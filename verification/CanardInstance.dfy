/** The Canard instance itself: the block arena with its linked lists, updated in place
    (components/airlink_can/libcanard/canard.c). */
module CanardInstance {
  import opened Bits
  import opened TransferCrc
  import opened CanardFrame
  import opened CanardLists
  import opened CanardPool
  import opened CanardTransport
  import opened CanardTxQueue
  import opened CanardModel
  import opened CanardStorage
  import opened CanardPoolFacts

  const CAPACITY_MAX := 0xFFFF

  class Canard {
    const arena: array<Block>
    var nodeId: NodeId
    var freeList: int
    var txQueue: int
    var rxStates: int
    var heldHead: int
    var usage: nat
    var peak: nat
    ghost var free: seq<nat>
    ghost var queue: seq<nat>
    ghost var states: seq<nat>
    ghost var chains: map<nat, seq<nat>>
    ghost var held: seq<nat>
    ghost var owner: seq<Owner>

    ghost function View(): Pool
      reads this, arena
    {
      Pool(arena[..], freeList, txQueue, rxStates, heldHead, free, queue, states, chains, held, owner)
    }

    /** Holds at every point where a block may be in hand. */
    ghost predicate Sound()
      reads this, arena
    {
      Wf(View()) && usage + |free| == arena.Length <= CAPACITY_MAX && usage <= peak
    }

    /** Holds between operations: every block of the arena is in exactly one list. */
    ghost predicate Valid()
      reads this, arena
    {
      Sound() && NoneTaken(owner)
    }

    ghost function Meaning(): Model
      reads this, arena
    {
      ModelOf(nodeId, View())
    }

    /** canardInit: all blocks on the free list. */
    constructor (blocks: nat)
      ensures Valid() && fresh(arena)
      ensures arena.Length == (if blocks > CAPACITY_MAX then CAPACITY_MAX else blocks)
      ensures Meaning() == Model(0, arena.Length, [], [], 0)
    {
      var capacity := if blocks > CAPACITY_MAX then CAPACITY_MAX else blocks;
      arena := new Block[capacity](i => Free(NULL));
      nodeId, usage, peak := 0, 0, 0;
      freeList, txQueue, rxStates, heldHead := NULL, NULL, NULL, NULL;
      free, queue, states, chains, held := [], [], [], map[], [];
      owner := seq(capacity, i => InFree);
      new;
      ThreadFreeList();
    }

    /** initPoolAllocator: threads every block onto the free list, lowest address first. */
    method ThreadFreeList()
      requires arena.Length <= CAPACITY_MAX && freeList == NULL && free == []
      requires txQueue == rxStates == heldHead == NULL && queue == states == held == [] && chains == map[]
      requires usage == 0 && owner == seq(arena.Length, i => InFree)
      modifies `freeList, `free, arena
      ensures Valid() && |free| == arena.Length
    {
      var i := arena.Length;
      while i > 0
        invariant 0 <= i <= arena.Length
        invariant free == Upward(i, arena.Length) && Linked(arena[..], freeList, free)
      {
        i := i - 1;
        ghost var before := arena[..];
        arena[i] := Free(freeList);
        assert arena[..] == before[i := Free(freeList)];
        forall b | b in free ensures b != i {
          UpwardMember(i + 1, arena.Length, b);
        }
        SegmentFrame(before, arena[..], freeList, free, NULL);
        LinkedPush(arena[..], i, free);
        freeList, free := i, [i] + free;
      }
      forall b: nat | b < arena.Length ensures OwnedAt(View(), b) {
        UpwardMember(0, arena.Length, b);
      }
    }

    /** allocateBlock: takes the first free block, or reports exhaustion. */
    method AllocateBlock() returns (b: int)
      requires Sound()
      modifies this
      ensures Sound() && nodeId == old(nodeId)
      ensures old(free) == [] ==> b == NULL && View() == old(View())
      ensures old(free) != [] ==> b == old(free)[0] && b < arena.Length && View() == TakeFree(old(View()))
    {
      hide Chained, OwnedAt, Fits;
      assert free == [] <==> freeList == NULL;
      if freeList == NULL {
        return NULL;
      }
      TakeFreeWf(View());
      b := freeList;
      assert b == free[0];
      freeList := arena[b].next;
      free, owner := free[1..], owner[b := Taken];
      usage := usage + 1;
      if peak < usage {
        peak := usage;
      }
    }

    /** freeBlock: puts a block in hand back at the head of the free list. */
    method FreeBlock(b: nat)
      requires Sound() && b < |owner| && owner[b] == Taken
      modifies this, arena
      ensures Sound() && nodeId == old(nodeId) && View() == PutFree(old(View()), b)
    {
      PutFreeWf(View(), b);
      UsagePositive(View(), b);
      ghost var before := View();
      arena[b] := Free(freeList);
      freeList := b;
      free, owner := [b] + free, owner[b := InFree];
      usage := usage - 1;
      assert arena[..] == before.m[b := Free(before.freeList)];
    }

    /** The first free block was taken and written. */
    ghost predicate TookAs(p: Pool, b: int, blk: Block)
      requires Wf(p) && p.free != []
      reads this, arena
    {
      && 0 <= b < arena.Length == |p.m| && b < |owner| && owner[b] == Taken && arena[b] == blk
      && Wf(TakeFree(p)) && View() == WriteTaken(TakeFree(p), b, blk)
    }

    // ---------- Transmit queue ----------

    /** createTxItem: a cleared queue item in hand. */
    method CreateTxItem() returns (b: int)
      requires Sound()
      modifies this, arena
      ensures Sound() && nodeId == old(nodeId)
      ensures old(free) == [] ==> b == NULL && View() == old(View())
      ensures old(free) != [] ==> b == old(free)[0] && TookAs(old(View()), b, TxItem(NULL, Frame(0, [], 0)))
    {
      b := AllocateBlock();
      if b == NULL {
        return;
      }
      TakeFreeWf(old(View()));
      WriteTakenWf(View(), b, TxItem(NULL, Frame(0, [], 0)));
      arena[b] := TxItem(NULL, Frame(0, [], 0));
    }

    /** pushTxQueue: links an item in front of the first frame it must leave before. */
    method PushTxQueue(item: nat)
      requires Sound() && item < |owner| && owner[item] == Taken
      requires arena[item].TxItem? && arena[item].next == NULL
      modifies this, arena
      ensures Sound() && nodeId == old(nodeId)
      ensures owner == old(owner)[item := InQueue]
      ensures Meaning() == old(Meaning()).(queue := Insert(old(Meaning()).queue, old(arena[item].frame)))
    {
      hide Chained, OwnedAt, Fits, Precedes, Frames, Sessions, Gather, Insert;
      ghost var p0 := View();
      ghost var id := arena[item].frame.id;
      var next, previous := txQueue, NULL;
      ghost var k := 0;
      LinkedHead(arena[..], txQueue, queue);
      assert queue[0..] == queue;
      QueuedItem(p0, 0);
      while next != NULL && !Precedes(arena[item].frame.id, arena[next].frame.id)
        invariant k <= |queue| && next == First(queue[k..], NULL) && Linked(arena[..], next, queue[k..])
        invariant k == 0 <==> previous == NULL
        invariant k > 0 ==> previous == queue[k - 1] && 0 <= previous < arena.Length
        invariant next != NULL ==> 0 <= next < arena.Length && arena[next].TxItem?
        invariant forall i :: 0 <= i < k ==> !Precedes(id, FrameAt(arena[..], queue[i]).id)
        invariant View() == p0 && Sound() && nodeId == old(nodeId)
        decreases |queue| - k
      {
        LinkedNext(arena[..], txQueue, queue, k);
        previous, next, k := next, arena[next].next, k + 1;
        QueuedItem(p0, k);
      }
      QueueInsertWf(p0, item, k);
      MeansQueueInsert(nodeId, p0, item, k);
      LinkItem(item, previous, next, k);
    }

    method LinkItem(item: nat, previous: int, next: int, ghost k: nat)
      requires Wf(View()) && item < |owner| && owner[item] == Taken && arena[item].TxItem?
      requires k <= |queue| && next == First(queue[k..], NULL)
      requires k == 0 <==> previous == NULL
      requires k > 0 ==> previous == queue[k - 1] && 0 <= previous < arena.Length && previous != item
      modifies `txQueue, `queue, `owner, arena
      ensures View() == QueueInsert(old(View()), item, k)
    {
      ghost var m := arena[..];
      arena[item] := SetNext(arena[item], next);
      if previous == NULL {
        txQueue := item;
      } else {
        arena[previous] := SetNext(arena[previous], item);
      }
      queue, owner := queue[..k] + [item] + queue[k..], owner[item := InQueue];
    }


    /** One frame of a transfer: a block for it, its contents, its place in the queue. */
    method SendFrame(frame: Frame) returns (sent: bool)
      requires Valid()
      modifies this, arena
      ensures Valid() && nodeId == old(nodeId)
      ensures sent == (old(Meaning()).free > 0)
      ensures sent ==> Meaning() == old(Meaning()).(free := old(Meaning()).free - 1,
                                                    queue := Insert(old(Meaning()).queue, frame))
      ensures !sent ==> Meaning() == old(Meaning())
    {
      hide Chained, OwnedAt, Fits, Linked, Insert;
      ghost var p0 := View();
      var item := CreateTxItem();
      if item == NULL {
        return false;
      }
      ghost var p1 := TakeFree(p0);
      MeansTakeFree(nodeId, p0);
      MeansWriteTaken(nodeId, p1, item, arena[item]);
      WriteTakenWf(View(), item, TxItem(NULL, frame));
      MeansWriteTaken(nodeId, View(), item, TxItem(NULL, frame));
      arena[item] := TxItem(NULL, frame);
      PushTxQueue(item);
      return true;
    }

    /** The data bytes of the frame that starts at `start`, and where the next one starts. */
    method FrameBytes(payload: seq<u8>, start: nat, crc: Register) returns (data: seq<u8>, next: nat)
      requires start < |payload|
      ensures next == start + FrameShare(|payload|, start)
      ensures data == (if start == 0 then CrcBytes(crc) else []) + payload[start..next]
    {
      hide CrcBytes;
      data, next := if start == 0 then CrcBytes(crc) else [], start;
      assert start == 0 ==> |CrcBytes(crc)| == 2;
      var i := |data|;
      while i < FRAME_DATA_MAX - 1 && next < |payload|
        invariant start <= next <= |payload|
        invariant i == |data| <= FRAME_DATA_MAX - 1 && next - start == i - (if start == 0 then 2 else 0)
        invariant data == (if start == 0 then CrcBytes(crc) else []) + payload[start..next]
      {
        data := data + [payload[next]];
        i, next := i + 1, next + 1;
      }
    }

    /** enqueueTxFrames: cuts a payload into frames and queues them. */
    method EnqueueTxFrames(canId: Id, crc: Register, payload: seq<u8>, tid: Tid) returns (code: SendCode)
      requires Valid() && canId < 0x2000_0000 && |payload| < 0x1_0000
      modifies this, arena
      ensures Valid() && nodeId == old(nodeId)
      ensures SendOutcome(Meaning(), code) == SendFrames(old(Meaning()), canId + FLAG_EFF, payload, crc, tid)
    {
      hide Wf, Insert, InsertAll;
      if |payload| < FRAME_DATA_MAX {
        var sent := SendFrame(Frame(canId + FLAG_EFF, payload + [0xC0 + tid], 0));
        return if sent then Queued(1) else NoMemory;
      }
      var totalBytes := (|payload| + 2) % 0x1_0000;
      var framesNeeded := (totalBytes + 6) / 7;
      var blocksAvailable := arena.Length - usage;
      if blocksAvailable < framesNeeded {
        return NoMemory;
      }
      code := EnqueueMultiFrame(canId + FLAG_EFF, crc, payload, tid);
    }

    method EnqueueMultiFrame(id: Id, crc: Register, payload: seq<u8>, tid: Tid) returns (code: SendCode)
      requires Valid() && FRAME_DATA_MAX <= |payload| && FramesReserved(|payload|) <= Meaning().free
      modifies this, arena
      ensures Valid() && nodeId == old(nodeId)
      ensures SendOutcome(Meaning(), code) == SendFrames(old(Meaning()), id, payload, crc, tid)
    {
      hide Valid, View, Insert, InsertAll, TailByte, CrcBytes, MultiFrames;
      ghost var m0 := Meaning();
      ghost var fs := TransferFrames(id, payload, crc, tid);
      var dataIndex, toggle, sotEot, result := 0, false, START, 0;
      assert fs[0..] == fs && fs[..0] == [];
      InsertAllNothing(m0.queue);
      while dataIndex != |payload|
        invariant 0 <= dataIndex <= |payload| && result <= |fs| && result <= m0.free
        invariant dataIndex < |payload| ==> sotEot == (if dataIndex == 0 then START else 0)
        invariant fs[result..] == MultiFrames(id, payload, crc, tid, dataIndex, toggle)
        invariant Valid() && nodeId == old(nodeId)
        invariant Meaning() == m0.(free := m0.free - result, queue := InsertAll(m0.queue, fs[..result]))
        decreases |payload| - dataIndex
      {
        ghost var start := dataIndex;
        var data;
        data, dataIndex := FrameBytes(payload, dataIndex, crc);
        sotEot := if dataIndex == |payload| then END else sotEot;
        var frame := Frame(id, data + [TailByte(sotEot, toggle, tid)], 0);
        assert frame == MultiFrame(id, payload, crc, tid, start, toggle);
        MultiFramesFrom(id, payload, crc, tid, start, toggle);
        assert fs[result] == frame && fs[result..][1..] == fs[result + 1..];
        InsertAllNext(m0.queue, fs, result);
        var sent := SendFrame(frame);
        if !sent {
          return NoMemory;
        }
        result := result + 1;
        toggle, sotEot := !toggle, 0;
      }
      MultiFramesEnd(id, payload, crc, tid, toggle);
      assert fs[result..] == [] && fs[..result] == fs;
      return Queued(result);
    }

    /** calculateCRC */
    static method CalculateCrc(signature: u64, payload: seq<u8>) returns (crc: Register)
      ensures crc == TransferCrcOf(signature, payload)
    {
      crc := INITIAL;
      if |payload| > 7 {
        crc := CrcAdd(crc, SignatureBytes(signature));
        crc := CrcAdd(crc, payload);
      }
    }

    /** canardSetLocalNodeID: the ID is set once, and only to a node's ID. */
    method SetLocalNodeId(id: u8)
      requires Valid()
      modifies `nodeId
      ensures Valid()
      ensures Meaning() == if old(nodeId) == 0 && 1 <= id <= 127 then old(Meaning()).(nodeId := id) else old(Meaning())
    {
      if nodeId == 0 && 1 <= id <= 127 {
        nodeId := id;
      }
    }

    /** canardBroadcast */
    method BroadcastTransfer(signature: u64, dataTypeId: u16, tid: u8, priority: u8, payload: seq<u8>)
      returns (code: SendCode, tid': u8)
      requires Valid() && |payload| < 0x1_0000
      modifies this, arena
      ensures Valid() && nodeId == old(nodeId)
      ensures TxResult(SendOutcome(Meaning(), code), tid') ==
              SendBroadcast(old(Meaning()), signature, dataTypeId, tid, priority, payload)
    {
      hide Valid, View, SendFrames, TransferCrcOf, Discriminator;
      if priority > 31 {
        return InvalidArgument, tid;
      }
      var canId: Id, crc := 0, INITIAL;
      if nodeId == 0 {
        if |payload| > 7 {
          return NodeIdNotSet, tid;
        }
        if dataTypeId >= 4 {
          return InvalidArgument, tid;
        }
        var sum := CrcAdd(INITIAL, payload);
        AnonymousIdFields(priority, Discriminator(sum), dataTypeId);
        canId := AnonymousId(priority, Discriminator(sum), dataTypeId);
        assert crc == TransferCrcOf(signature, payload) by { ShortCrc(signature, payload); }
      } else {
        BroadcastIdFields(priority, dataTypeId, nodeId);
        canId := BroadcastId(priority, dataTypeId, nodeId);
        crc := CalculateCrc(signature, payload);
      }
      code := EnqueueTxFrames(canId, crc, payload, tid % 32);
      tid' := if code.Queued? then AdvanceTid(tid) else tid;
    }

    /** canardRequestOrRespond */
    method RequestOrRespond(destination: u8, signature: u64, dataTypeId: u8, tid: u8, priority: u8, request: bool,
                            payload: seq<u8>)
      returns (code: SendCode, tid': u8)
      requires Valid() && |payload| < 0x1_0000
      modifies this, arena
      ensures Valid() && nodeId == old(nodeId)
      ensures TxResult(SendOutcome(Meaning(), code), tid') ==
              SendService(old(Meaning()), destination, signature, dataTypeId, tid, priority, request, payload)
    {
      hide Valid, View, SendFrames, TransferCrcOf;
      if priority > 31 {
        return InvalidArgument, tid;
      }
      if nodeId == 0 {
        return NodeIdNotSet, tid;
      }
      ServiceIdFields(priority, dataTypeId, request, destination, nodeId);
      var canId := ServiceId(priority, dataTypeId, request, destination, nodeId);
      var crc := CalculateCrc(signature, payload);
      code := EnqueueTxFrames(canId, crc, payload, tid % 32);
      tid' := if code.Queued? && request then AdvanceTid(tid) else tid;
    }

    /** canardPeekTxQueue */
    method PeekTxQueue() returns (frame: Option<Frame>)
      requires Valid()
      ensures frame == (if Meaning().queue == [] then None else Some(Meaning().queue[0]))
    {
      hide Chained, OwnedAt, Fits;
      LinkedHead(arena[..], txQueue, queue);
      QueuedItem(View(), 0);
      if txQueue == NULL {
        return None;
      }
      MeansQueuePop(nodeId, View());
      return Some(arena[txQueue].frame);
    }

    /** canardPopTxQueue: frees the head item. */
    method PopTxQueue()
      requires Valid() && Meaning().queue != []
      modifies this, arena
      ensures Valid()
      ensures Meaning() == old(Meaning()).(free := old(Meaning()).free + 1, queue := old(Meaning()).queue[1..])
    {
      hide Chained, OwnedAt, Fits, Linked;
      ghost var p0 := View();
      LinkedHead(arena[..], txQueue, queue);
      QueuedItem(p0, 0);
      QueuePopWf(p0);
      MeansQueuePop(nodeId, p0);
      var item := txQueue;
      txQueue := arena[item].next;
      queue, owner := queue[1..], owner[item := Taken];
      MeansPutFree(nodeId, View(), item);
      FreeBlock(item);
    }

    // ---------- Reception sessions ----------

    /** findRxState: the first session with this descriptor. */
    method FindRxState(descriptor: nat) returns (r: int, ghost k: nat)
      requires Sound()
      ensures k == FindSession(Meaning().sessions, descriptor) <= |states| == |Meaning().sessions|
      ensures r == First(states[FindSession(Meaning().sessions, descriptor)..], NULL)
      ensures r == (if k == |states| then NULL else states[k])
    {
      hide OwnedAt, Fits, Chained;
      ghost var sessions := Meaning().sessions;
      SessionsAt(arena[..], chains, states);
      r, k := rxStates, 0;
      LinkedHead(arena[..], rxStates, states);
      assert states[0..] == states;
      StateAt(View(), 0);
      while r != NULL && arena[r].rx.descriptor != descriptor
        invariant k <= |states| && r == First(states[k..], NULL)
        invariant r != NULL ==> 0 <= r < arena.Length && arena[r].RxState?
        invariant forall i :: 0 <= i < k ==> sessions[i].descriptor != descriptor
        decreases |states| - k
      {
        LinkedNext(arena[..], rxStates, states, k);
        r, k := arena[r].next, k + 1;
        StateAt(View(), k);
      }
      FindSessionAt(sessions, descriptor, k);
    }

    /** createRxState: a cleared session block in hand. */
    method CreateRxState(descriptor: nat) returns (b: int)
      requires Sound()
      modifies this, arena
      ensures Sound() && nodeId == old(nodeId)
      ensures old(free) == [] ==> b == NULL && View() == old(View())
      ensures old(free) != [] ==> b == old(free)[0] && TookAs(old(View()), b, RxState(NULL, NULL, Blank(descriptor)))
    {
      b := AllocateBlock();
      if b == NULL {
        return;
      }
      TakeFreeWf(old(View()));
      WriteTakenWf(View(), b, RxState(NULL, NULL, Blank(descriptor)));
      arena[b] := RxState(NULL, NULL, Blank(descriptor));
    }

    /** prependRxState: links a new session at the front of the list. */
    method PrependRxState(descriptor: nat) returns (r: int)
      requires Valid()
      modifies this, arena
      ensures Valid() && nodeId == old(nodeId)
      ensures r == NULL <==> old(Meaning()).free == 0
      ensures r == NULL ==> View() == old(View())
      ensures r != NULL ==> 0 <= r && states == [r] + old(states) && held == old(held)
      ensures r != NULL ==> Meaning() == Opened(old(Meaning()), descriptor)
    {
      hide Chained, OwnedAt, Fits, Linked, SessionAt, Frames, Sessions;
      ghost var p0 := View();
      r := CreateRxState(descriptor);
      if r == NULL {
        return;
      }
      MeansTakeFree(nodeId, p0);
      MeansWriteTaken(nodeId, TakeFree(p0), r, arena[r]);
      ghost var p1 := View();
      StatePrependWf(p1, r);
      MeansStatePrepend(nodeId, p1, r);
      BlankMeaning(descriptor);
      arena[r] := SetNext(arena[r], rxStates);
      rxStates := r;
      states, chains, owner := [r] + states, chains[r := []], owner[r := InStates];
      assert View() == StatePrepend(p1, r);
    }

    /** traverseRxStates: the session with this descriptor, created if there is none and a block is free. */
    method TraverseRxStates(descriptor: nat) returns (r: int, ghost k: nat)
      requires Valid()
      modifies this, arena
      ensures Valid() && nodeId == old(nodeId)
      ensures var m := old(Meaning()); var at := FindSession(m.sessions, descriptor);
        if at < |m.sessions| then r != NULL && k == at && View() == old(View())
        else if m.free == 0 then r == NULL && View() == old(View())
        else r != NULL && k == 0 && Meaning() == Opened(m, descriptor)
      ensures r != NULL ==> k < |states| && states[k] == r
      ensures held == old(held)
    {
      hide Wf;
      if rxStates == NULL {
        NoStates(View());
        k := 0;
        r := PrependRxState(descriptor);
        return;
      }
      r, k := FindRxState(descriptor);
      if r == NULL {
        r := PrependRxState(descriptor);
        k := 0;
      }
    }

    /** Rewriting the scalar fields of session k. */
    method SetFields(r: nat, ghost k: nat, rx: RxFields)
      requires Sound() && k < |states| && states[k] == r && r < arena.Length && arena[r].RxState? && |rx.head| == HEAD_SIZE
      modifies arena
      ensures Sound() && View() == WriteState(old(View()), r, rx)
      ensures |old(Meaning()).sessions| == |states|
      ensures Meaning() == WithSession(old(Meaning()), k, SessionOf(rx, Bytes(old(View()), r), |ChainOf(chains, r)|))
    {
      hide Chained, OwnedAt, Fits, Linked;
      StateAt(View(), k);
      WriteStateWf(View(), r, rx);
      MeansWriteState(nodeId, View(), k, rx);
      arena[r] := RxState(arena[r].next, arena[r].buffer, rx);
    }

    /** Unlinks the first chunk of session k. */
    method UnlinkChunk(r: nat, ghost k: nat) returns (block: nat)
      requires Sound() && k < |states| && states[k] == r && r in chains && chains[r] != []
      modifies this, arena
      ensures Sound() && nodeId == old(nodeId) && StateHere(View(), k, r) && StateHere(old(View()), k, r)
      ensures block == old(chains)[r][0] < arena.Length == |owner| == |old(owner)|
      ensures owner == old(owner)[block := Taken] && View() == ChainPop(old(View()), r)
      ensures arena[r].rx == old(arena[r].rx)
      ensures |old(Meaning()).sessions| == |Meaning().sessions| == |states|
      ensures Meaning() == WithSession(old(Meaning()), k, Meaning().sessions[k])
    {
      hide Chained, OwnedAt, Fits, Linked, Gather;
      ghost var p0 := View();
      StateAt(p0, k);
      ChainHead(p0, r);
      ChainPopWf(p0, r);
      MeansChainPop(nodeId, p0, k);
      block := arena[r].buffer;
      var temp := arena[block].next;
      arena[r] := RxState(arena[r].next, temp, arena[r].rx);
      chains, owner := chains[r := chains[r][1..]], owner[block := Taken];
    }

    /** Unlinks and frees the first chunk of session k. */
    method DropChunk(r: nat, ghost k: nat)
      requires Valid() && k < |states| && states[k] == r && r in chains && chains[r] != []
      modifies this, arena
      ensures Valid() && nodeId == old(nodeId) && StateHere(View(), k, r) && StateHere(old(View()), k, r)
      ensures states == old(states) && chains == old(chains)[r := old(chains)[r][1..]] && held == old(held)
      ensures arena[r].rx == old(arena[r].rx)
      ensures |old(Meaning()).sessions| == |Meaning().sessions| == |states|
      ensures Meaning() == WithSession(old(Meaning()), k, Meaning().sessions[k]).(free := old(Meaning()).free + 1)
    {
      hide Wf, Gather, SessionAt;
      var block := UnlinkChunk(r, k);
      ghost var p1 := View();
      MeansPutFree(nodeId, p1, block);
      FreeBlock(block);
      StateAt(View(), k);
    }

    /** releaseStatePayload: frees the whole chain of session k. */
    method ReleaseStatePayload(r: nat, ghost k: nat)
      requires Valid() && k < |states| && states[k] == r
      modifies this, arena
      ensures Valid() && nodeId == old(nodeId) && StateHere(View(), k, r) && StateHere(old(View()), k, r)
      ensures states == old(states) && held == old(held) && chains == old(chains)[r := []] && arena[r].buffer == NULL
      ensures arena[r].rx == old(arena[r].rx).(payloadLen := 0)
      ensures |old(Meaning()).sessions| == |states|
      ensures Meaning() == WithSession(old(Meaning()), k, SessionOf(arena[r].rx, [], 0)).(
          free := old(Meaning()).free + old(Meaning()).sessions[k].blocks)
    {
      hide Wf, Gather, Prefix;
      ghost var m0, c0 := Meaning(), ChainOf(chains, r);
      StateAt(View(), k);
      SessionHere(nodeId, View(), k, r);
      ghost var j := 0;
      assert c0[0..] == c0;
      while arena[r].buffer != NULL
        invariant j <= |c0| && Valid() && nodeId == old(nodeId) && StateHere(View(), k, r)
        invariant states == old(states) && held == old(held) && chains == old(chains)[r := c0[j..]]
        invariant arena[r].rx == old(arena[r].rx)
        invariant |m0.sessions| == |Meaning().sessions| == |states|
        invariant Meaning() == WithSession(m0, k, Meaning().sessions[k]).(free := m0.free + j)
        decreases |c0| - j
      {
        StateAt(View(), k);
        ChainBuffer(View(), r);
        DropChunk(r, k);
        assert c0[j..][1..] == c0[j + 1..];
        j := j + 1;
      }
      StateAt(View(), k);
      ChainBuffer(View(), r);
      GatherNone(arena[..]);
      assert c0[j..] == [] && j == |c0|;
      SetFields(r, k, arena[r].rx.(payloadLen := 0));
      ChainBuffer(View(), r);
    }

    // ---------- Storing received bytes ----------

    /** createBufferBlock: a chunk in hand whose bytes are whatever the memory held. */
    method CreateBufferBlock() returns (b: int)
      requires Sound()
      modifies this, arena
      ensures Sound() && nodeId == old(nodeId)
      ensures old(free) == [] ==> b == NULL && View() == old(View())
      ensures old(free) != [] ==> b == old(free)[0] && 0 <= b < arena.Length && arena[b].Chunk?
      ensures old(free) != [] ==> |arena[b].data| == BLOCK_SIZE && arena[b].next == NULL
      ensures old(free) != [] ==> TookAs(old(View()), b, arena[b])
    {
      b := AllocateBlock();
      if b == NULL {
        return;
      }
      assert |seq<u8>(BLOCK_SIZE, i => 0)| == BLOCK_SIZE;
      var data: seq<u8> :| |data| == BLOCK_SIZE;
      TakeFreeWf(old(View()));
      WriteTakenWf(View(), b, Chunk(NULL, data));
      arena[b] := Chunk(NULL, data);
    }

    /** Links a chunk in hand to the end of the session's chain; `last` is the block it is linked from. */
    method LinkChunk(r: nat, last: int, b: nat)
      requires Sound() && r in chains && r < arena.Length && arena[r].RxState? && IsLast(chains[r], last)
      requires b < |owner| && b < arena.Length && owner[b] == Taken
      requires arena[b].Chunk? && |arena[b].data| == BLOCK_SIZE && arena[b].next == NULL
      modifies this, arena
      ensures Sound() && nodeId == old(nodeId)
      ensures old(chains)[r] != [] ==> old(chains)[r][|old(chains)[r]| - 1] < arena.Length
      ensures View() == ChainAppend(old(View()), r, b)
    {
      hide Chained, OwnedAt, Fits, Linked;
      LastInRange(View(), r, last);
      ChainAppendWf(View(), r, b);
      if last == NULL {
        arena[r] := RxState(arena[r].next, b, arena[r].rx);
      } else {
        arena[last] := SetNext(arena[last], b);
      }
      chains, owner := chains[r := chains[r] + [b]], owner[b := InChain(r)];
      assert View() == ChainAppend(old(View()), r, b);
    }

    /** A new chunk at the end of the chain of session k; `last` is the block it is linked from. */
    method AppendChunk(r: nat, ghost k: nat, last: int) returns (b: int)
      requires Valid() && StateHere(View(), k, r) && IsLast(chains[r], last)
      modifies this, arena
      ensures Valid() && nodeId == old(nodeId) && StateHere(View(), k, r)
      ensures b == NULL <==> old(Meaning()).free == 0
      ensures b == NULL ==> View() == old(View())
      ensures b != NULL ==> 0 <= b < arena.Length && arena[b].Chunk? && arena[r].rx == old(arena[r].rx)
      ensures b != NULL ==> states == old(states) && held == old(held) && chains == old(chains)[r := old(chains)[r] + [b]]
      ensures b != NULL ==> |Bytes(View(), r)| == |Bytes(old(View()), r)| + BLOCK_SIZE
      ensures b != NULL ==> Bytes(old(View()), r) <= Bytes(View(), r)
      ensures b != NULL ==> Meaning() == Grown(old(Meaning()), k, SessionOf(arena[r].rx, Bytes(View(), r), |chains[r]|))
    {
      hide Chained, OwnedAt, Fits, Linked, Gather, SessionAt, Frames, Sessions;
      ghost var p0 := View();
      b := CreateBufferBlock();
      if b == NULL {
        return;
      }
      MeansTakeFree(nodeId, p0);
      MeansWriteTaken(nodeId, TakeFree(p0), b, arena[b]);
      ghost var p1 := View();
      StateAt(p1, k);
      LastInRange(p1, r, last);
      MeansChainAppend(nodeId, p1, k, b);
      AppendGathers(p1, r, b);
      TakenGathers(p0, p1, r);
      LinkChunk(r, last, b);
    }

    /** Walks to the last chunk of session k and counts the chunks. */
    method LastChunk(r: nat, ghost k: nat) returns (block: nat, nth: nat)
      requires Sound() && StateHere(View(), k, r) && chains[r] != []
      ensures IsLast(chains[r], block) && nth == |chains[r]|
      ensures block < arena.Length && arena[block].Chunk?
    {
      hide OwnedAt, Fits, Chained, Wf;
      ChainHead(View(), r);
      ChainLinked(View(), r);
      nth := 1;
      block := arena[r].buffer;
      while arena[block].next != NULL
        invariant 1 <= nth <= |chains[r]| && block == chains[r][nth - 1] < arena.Length
        decreases |chains[r]| - nth
      {
        LinkedNext(arena[..], arena[r].buffer, chains[r], nth - 1);
        block := arena[block].next;
        nth := nth + 1;
        LinkedNext(arena[..], arena[r].buffer, chains[r], nth - 1);
      }
      LinkedNext(arena[..], arena[r].buffer, chains[r], nth - 1);
      LastInRange(View(), r, block);
    }

    /** Since p0 session k got new fields, chunks or bytes, and nothing else changed. */
    ghost predicate Grew(p0: Pool, n: NodeId, k: nat, r: nat)
      reads this, arena
    {
      && Valid() && nodeId == n && StateHere(p0, k, r) && StateHere(View(), k, r)
      && states == p0.states && held == p0.held
      && |ModelOf(n, p0).sessions| == |states|
      && |p0.chains[r]| <= |chains[r]| <= |p0.chains[r]| + |p0.free|
      && Meaning() == WithSession(ModelOf(n, p0), k, SessionOf(arena[r].rx, Bytes(View(), r), |chains[r]|)).(
                        free := |p0.free| - (|chains[r]| - |p0.chains[r]|))
    }

    lemma GrewNothing(k: nat, r: nat)
      requires Valid() && StateHere(View(), k, r)
      ensures Grew(View(), nodeId, k, r)
    {
      hide Wf, Gather, SessionOf, Frames, Sessions;
      SessionHere(nodeId, View(), k, r);
    }

    lemma GrewChain(p0: Pool, k: nat, r: nat)
      requires Grew(p0, nodeId, k, r)
      ensures r in chains && r in p0.chains && |Bytes(View(), r)| == BLOCK_SIZE * |chains[r]|
      ensures |chains[r]| <= |p0.chains[r]| + |p0.free|
    {
      hide Wf, Gather, SessionOf, Frames, Sessions;
      ChainLength(View(), r);
    }

    /** Copies bytes into the last chunk from `index` on, as many as fit. */
    method FillChunk(r: nat, ghost k: nat, ghost p0: Pool, block: nat, index: nat, data: seq<u8>, from: nat)
      returns (to: nat)
      requires Grew(p0, nodeId, k, r) && r < arena.Length && arena[r].RxState?
      requires chains[r] != [] && IsLast(chains[r], block)
      requires index <= BLOCK_SIZE && from <= |data|
      modifies arena
      ensures Grew(p0, nodeId, k, r) && r in chains && chains == old(chains)
      ensures r < arena.Length && arena[r].RxState? && arena[r].rx == old(arena[r].rx)
      ensures to == from + (if |data| - from < BLOCK_SIZE - index then |data| - from else BLOCK_SIZE - index)
      ensures |Bytes(old(View()), r)| == BLOCK_SIZE * |chains[r]|
      ensures Bytes(View(), r) == Splice(Bytes(old(View()), r), BLOCK_SIZE * (|chains[r]| - 1) + index, data[from..to])
    {
      hide Chained, OwnedAt, Fits, Linked, Gather, SessionOf, Frames, Sessions;
      ghost var p1 := View();
      LastInRange(p1, r, block);
      var bytes;
      bytes, to := CopyInto(arena[block].data, index, data, from);
      WriteChunkWf(p1, block, bytes);
      MeansWriteChunk(nodeId, p1, k, block, bytes);
      FilledBytes(p1, r, block, index, data[from..to]);
      arena[block] := Chunk(arena[block].next, bytes);
      assert View() == WriteChunk(p1, block, bytes);
      SessionHere(nodeId, View(), k, r);
    }

    static method CopyInto(chunk: seq<u8>, index: nat, data: seq<u8>, from: nat) returns (bytes: seq<u8>, to: nat)
      requires |chunk| == BLOCK_SIZE && index <= BLOCK_SIZE && from <= |data|
      ensures to == from + (if |data| - from < BLOCK_SIZE - index then |data| - from else BLOCK_SIZE - index)
      ensures |bytes| == BLOCK_SIZE && bytes == Splice(chunk, index, data[from..to])
    {
      bytes, to := chunk, from;
      var i := index;
      while i < BLOCK_SIZE && to < |data|
        invariant from <= to <= |data| && i == index + (to - from) <= BLOCK_SIZE
        invariant |bytes| == BLOCK_SIZE && bytes == Splice(chunk, index, data[from..to])
      {
        bytes := bytes[i := data[to]];
        i, to := i + 1, to + 1;
      }
    }

    /** AppendChunk on a session that already grew. */
    method GrowChain(r: nat, ghost k: nat, ghost p0: Pool, last: int) returns (b: int)
      requires Grew(p0, nodeId, k, r) && r < arena.Length && arena[r].RxState? && IsLast(chains[r], last)
      modifies this, arena
      ensures Grew(p0, old(nodeId), k, r)
      ensures r < arena.Length && arena[r].RxState? && arena[r].rx == old(arena[r].rx)
      ensures nodeId == old(nodeId) && r in chains && |Bytes(View(), r)| == BLOCK_SIZE * |chains[r]|
      ensures b == NULL <==> old(|chains[r]|) == |p0.chains[r]| + |p0.free|
      ensures b == NULL ==> chains == old(chains)
      ensures b != NULL ==> 0 <= b && |chains[r]| == |old(chains[r])| + 1 && IsLast(chains[r], b)
      ensures Bytes(old(View()), r) <= Bytes(View(), r)
    {
      hide Wf, Gather, SessionOf, Frames, Sessions;
      b := AppendChunk(r, k, last);
      ChainLength(View(), r);
    }

    /** Rewriting the scalar fields of session k leaves its bytes alone. */
    method UpdateFields(r: nat, ghost k: nat, ghost p0: Pool, rx: RxFields)
      requires Grew(p0, nodeId, k, r) && |rx.head| == HEAD_SIZE
      modifies arena
      ensures Grew(p0, nodeId, k, r)
      ensures r < arena.Length && arena[r].RxState? && arena[r].rx == rx
      ensures Bytes(View(), r) == Bytes(old(View()), r)
    {
      hide Chained, OwnedAt, Fits, Linked, Gather, SessionOf, Frames, Sessions;
      HeadBytes(View(), k, r, rx);
      SetFields(r, k, rx);
    }

    /** The part of bufferBlockPushBytes that fills the session block itself. */
    method FillHead(r: nat, ghost k: nat, ghost p0: Pool, data: seq<u8>) returns (to: nat)
      requires Grew(p0, nodeId, k, r) && r < arena.Length && arena[r].RxState? && |arena[r].rx.head| == HEAD_SIZE
      modifies arena
      ensures Grew(p0, nodeId, k, r)
      ensures r < arena.Length && arena[r].RxState? && arena[r].rx == old(arena[r].rx).(head := arena[r].rx.head)
      ensures to == HeadShare(old(arena[r].rx.payloadLen), |data|) <= |data|
      ensures arena[r].rx.head == Splice(old(arena[r].rx.head), old(arena[r].rx.payloadLen), data[..to])
      ensures Bytes(View(), r) == Bytes(old(View()), r)
    {
      hide Grew, View, Bytes;
      var head := arena[r].rx.head;
      var i := arena[r].rx.payloadLen;
      to := 0;
      while i < HEAD_SIZE && to < |data|
        invariant to <= |data| && i == arena[r].rx.payloadLen + to && (to > 0 ==> i <= HEAD_SIZE)
        invariant |head| == HEAD_SIZE && head == Splice(arena[r].rx.head, arena[r].rx.payloadLen, data[..to])
      {
        head := head[i := data[to]];
        i, to := i + 1, to + 1;
      }
      UpdateFields(r, k, p0, arena[r].rx.(head := head));
    }

    /** The loop of bufferBlockPushBytes: fills the last chunk and appends chunks while bytes remain. */
    method FillChain(r: nat, ghost k: nat, ghost p0: Pool, first: nat, start: nat, data: seq<u8>, from: nat)
      returns (ok: bool)
      requires Grew(p0, nodeId, k, r) && r < arena.Length && arena[r].RxState?
      requires chains[r] != [] && IsLast(chains[r], first)
      requires start < BLOCK_SIZE && from < |data| <= FRAME_DATA_MAX - 1
      modifies this, arena
      ensures Grew(p0, old(nodeId), k, r) && nodeId == old(nodeId) && r in chains
      ensures r < arena.Length && arena[r].RxState? && arena[r].rx == old(arena[r].rx)
      ensures ok == (old(|chains[r]|) + Spill(start, |data| - from) <= |p0.chains[r]| + |p0.free|)
      ensures ok ==> |chains[r]| == old(|chains[r]|) + Spill(start, |data| - from)
      ensures ok ==> Overwritten(Bytes(old(View()), r), Bytes(View(), r),
                                 BLOCK_SIZE * (old(|chains[r]|) - 1) + start, data[from..])
    {
      hide View, Grew, StateHere, Bytes, Overwritten, Splice;
      GrewChain(p0, k, r);
      ghost var n0, b0 := |chains[r]|, Bytes(View(), r);
      var block, index, dataIndex := first, start, from;
      ghost var pos := BLOCK_SIZE * (n0 - 1) + start;
      OverwrittenNothing(b0, pos, data, from);
      while dataIndex < |data|
        invariant Grew(p0, old(nodeId), k, r) && nodeId == old(nodeId) && r in chains
        invariant r < arena.Length && arena[r].RxState? && arena[r].rx == old(arena[r].rx)
        invariant from <= dataIndex <= |data| && |Bytes(View(), r)| == BLOCK_SIZE * |chains[r]| && block >= 0
        invariant if dataIndex == from then |chains[r]| == n0 else |chains[r]| == n0 + Spill(start, |data| - from)
        invariant dataIndex < |data| ==> IsLast(chains[r], block) && index < BLOCK_SIZE
        invariant dataIndex == from ==> index == start
        invariant from < dataIndex < |data| ==> index == 0 && dataIndex - from == BLOCK_SIZE - start
        invariant Overwritten(b0, Bytes(View(), r), pos, data[from..dataIndex])
        decreases |data| - dataIndex
      {
        ghost var b1, d1 := Bytes(View(), r), dataIndex;
        assert index + (|data| - dataIndex) <= BLOCK_SIZE + FRAME_DATA_MAX;
        dataIndex := FillChunk(r, k, p0, block, index, data, dataIndex);
        OverwrittenFurther(b0, b1, pos, data, from, d1, dataIndex);
        if dataIndex < |data| {
          ghost var b2 := Bytes(View(), r);
          var next := GrowChain(r, k, p0, block);
          if next == NULL {
            return false;
          }
          OverwrittenLonger(b0, b2, Bytes(View(), r), pos, data[from..dataIndex]);
          block, index := next, 0;
        }
      }
      assert data[from..dataIndex] == data[from..];
      GrewChain(p0, k, r);
      return true;
    }

    /** The chunk and the index in it where storing goes on; a new chunk when there is none or it is full. */
    method NextChunk(r: nat, ghost k: nat, ghost p0: Pool, n: nat) returns (block: int, index: nat)
      requires Grew(p0, nodeId, k, r) && r < arena.Length && arena[r].RxState?
      requires |chains[r]| == |p0.chains[r]| && n < FRAME_DATA_MAX
      modifies this, arena
      ensures Grew(p0, old(nodeId), k, r) && nodeId == old(nodeId) && r in chains && index < BLOCK_SIZE
      ensures r < arena.Length && arena[r].RxState? && arena[r].rx == old(arena[r].rx)
      ensures block == NULL ==> p0.free == [] && |chains[r]| == |p0.chains[r]|
      ensures block != NULL ==> block >= 0 && chains[r] != [] && IsLast(chains[r], block)
      ensures Bytes(old(View()), r) <= Bytes(View(), r)
      ensures var length, blocks := arena[r].rx.payloadLen, |p0.chains[r]|;
        if block == NULL then FirstChunk(length, blocks, n) == blocks + 1
        else |chains[r]| == FirstChunk(length, blocks, n) && index == ChunkIndex(length, blocks)
    {
      hide Wf, Gather, SessionOf, Frames, Sessions, WithSession;
      var length := arena[r].rx.payloadLen;
      ChainBuffer(View(), r);
      index := ((length - HEAD_SIZE) % 0x1_0000_0000) % BLOCK_SIZE;
      if arena[r].buffer == NULL {
        block := GrowChain(r, k, p0, NULL);
        index := 0;
      } else {
        var nth;
        block, nth := LastChunk(r, k);
        var blocks := ((length + n - HEAD_SIZE) % 0x1_0000_0000) / BLOCK_SIZE + 1;
        if blocks > nth && index == 0 {
          block := GrowChain(r, k, p0, block);
        }
      }
    }

    /** The part of bufferBlockPushBytes after the head is full. */
    method StoreInChain(r: nat, ghost k: nat, ghost p0: Pool, data: seq<u8>, to: nat) returns (ok: bool)
      requires Grew(p0, nodeId, k, r) && r < arena.Length && arena[r].RxState?
      requires |chains[r]| == |p0.chains[r]| && |arena[r].rx.head| == HEAD_SIZE && |data| < FRAME_DATA_MAX
      requires to == HeadShare(arena[r].rx.payloadLen, |data|) && (to < |data| || arena[r].rx.payloadLen == HEAD_SIZE)
      modifies this, arena
      ensures Grew(p0, old(nodeId), k, r) && r in chains
      ensures r < arena.Length && arena[r].RxState?
      ensures arena[r].rx == old(arena[r].rx).(payloadLen :=
        if ok then (old(arena[r].rx.payloadLen) + |data|) % PAYLOAD_LEN_LIMIT else old(arena[r].rx.payloadLen))
      ensures ok == (BlocksAfter(old(arena[r].rx.payloadLen), |p0.chains[r]|, |data|) <= |p0.chains[r]| + |p0.free|)
      ensures ok ==> |chains[r]| == BlocksAfter(old(arena[r].rx.payloadLen), |p0.chains[r]|, |data|)
      ensures FitsChain(old(arena[r].rx.payloadLen), |p0.chains[r]|) && ok ==>
        Overwritten(Bytes(old(View()), r), Bytes(View(), r), Place(old(arena[r].rx.payloadLen)), data[to..])
    {
      hide View, Grew, StateHere, Bytes, Splice, Overwritten, FirstChunk, ChunkIndex;
      GrewChain(p0, k, r);
      ghost var length, b0 := arena[r].rx.payloadLen as nat, Bytes(View(), r);
      var block, index := NextChunk(r, k, p0, |data|);
      GrewChain(p0, k, r);
      ghost var b1 := Bytes(View(), r);
      if block == NULL {
        return false;
      }
      if FitsChain(length, |p0.chains[r]|) {
        PlaceFound(length, |p0.chains[r]|, |data|);
      }
      if to < |data| {
        ok := FillChain(r, k, p0, block, index, data, to);
        if !ok {
          return;
        }
      } else if FitsChain(length, |p0.chains[r]|) {
        OverwrittenNothing(b1, Place(length), data, to);
      }
      GrewChain(p0, k, r);
      if FitsChain(length, |p0.chains[r]|) {
        OverwrittenShorter(b0, b1, Bytes(View(), r), Place(length), data[to..]);
      }
      UpdateFields(r, k, p0, arena[r].rx.(payloadLen := (arena[r].rx.payloadLen + |data|) % PAYLOAD_LEN_LIMIT));
      return true;
    }

    /** bufferBlockPushBytes: stores the bytes of one frame. */
    method BufferBlockPushBytes(r: nat, ghost k: nat, data: seq<u8>) returns (ok: bool)
      requires Valid() && StateHere(View(), k, r) && |data| < FRAME_DATA_MAX
      modifies this, arena
      ensures Grew(old(View()), old(nodeId), k, r)
      ensures arena[r].rx == old(arena[r].rx).(head := arena[r].rx.head, payloadLen := arena[r].rx.payloadLen)
      ensures Pushed(old(Meaning()).sessions[k], SessionOf(arena[r].rx, Bytes(View(), r), |chains[r]|), data,
                     old(Meaning()).free, ok)
    {
      hide Wf, Gather, SessionOf, Frames, Sessions, WithSession, BlocksAfter, Pushed;
      ghost var p0, rx0 := View(), arena[r].rx;
      SessionHere(nodeId, p0, k, r);
      ChainLength(p0, r);
      GrewNothing(k, r);
      var to := 0;
      if arena[r].rx.payloadLen != HEAD_SIZE {
        to := FillHead(r, k, p0, data);
        if to == |data| {
          assert data[..to] == data;
          StoredInHead(rx0, arena[r].rx.head, Bytes(p0, r), |chains[r]|, data, |p0.free|);
          UpdateFields(r, k, p0, arena[r].rx.(payloadLen := (arena[r].rx.payloadLen + |data|) % PAYLOAD_LEN_LIMIT));
          return true;
        }
      }
      assert data[..0] == [];
      ok := StoreInChain(r, k, p0, data, to);
      StoredInChain(rx0, arena[r].rx, Bytes(p0, r), |p0.chains[r]|, Bytes(View(), r), |chains[r]|, data, to, |p0.free|, ok);
    }

    // ---------- Receiving frames ----------

    /** The session in block r. */
    ghost function At(r: nat): Session
      reads this, arena
    {
      SessionAt(arena[..], chains, r)
    }

    /** Rewriting the scalar fields of session k. */
    method WriteFields(r: nat, ghost k: nat, rx: RxFields)
      requires Valid() && StateHere(View(), k, r) && |rx.head| == HEAD_SIZE
      requires rx.descriptor == arena[r].rx.descriptor
      modifies arena
      ensures Valid() && Touched(nodeId, old(View()), View(), k, r)
      ensures arena[r].RxState? && arena[r].rx == rx && arena[r].buffer == old(arena[r].buffer)
      ensures At(r) == SessionOf(rx, Bytes(old(View()), r), |chains[r]|)
      ensures Gather(arena[..], held) == Gather(old(arena[..]), held)
    {
      hide Chained, OwnedAt, Fits, Linked, Gather, SessionOf, Frames, Sessions;
      ghost var p0 := View();
      HeadBytes(p0, k, r, rx);
      SetFields(r, k, rx);
      GatherFrame(p0.m, arena[..], held);
    }

    /** releaseStatePayload and prepareForNextTransfer: the transfer is given up. */
    method GiveUp(r: nat, ghost k: nat)
      requires Valid() && StateHere(View(), k, r)
      modifies this, arena
      ensures Valid() && nodeId == old(nodeId) && held == old(held) && Touched(nodeId, old(View()), View(), k, r)
      ensures At(r) == Prepared(old(At(r))) && |free| == old(|free|) + old(At(r)).blocks
    {
      hide Wf, Gather, Frames, Sessions;
      ghost var p0 := View();
      SessionHere(nodeId, p0, k, r);
      ReleaseStatePayload(r, k);
      ghost var p1 := View();
      SessionHere(nodeId, p1, k, r);
      PrepareForNextTransfer(r, k);
      TouchedTwice(nodeId, p0, p1, View(), k, r);
    }

    /** prepareForNextTransfer, on a session without chain. */
    method PrepareForNextTransfer(r: nat, ghost k: nat)
      requires Valid() && StateHere(View(), k, r) && chains[r] == []
      modifies arena
      ensures Valid() && Touched(nodeId, old(View()), View(), k, r)
      ensures At(r) == Prepared(old(At(r))) && Gather(arena[..], held) == Gather(old(arena[..]), held)
    {
      hide Wf, Frames, Sessions;
      var rx := arena[r].rx;
      WriteFields(r, k, rx.(transferId := NextTid(rx.transferId), payloadLen := 0, nextToggle := false));
    }

    /** Stores the payload of a frame that is not the last, or gives the transfer up. */
    method StorePayload(r: nat, ghost k: nat, bytes: seq<u8>, crc: Register) returns (code: Code)
      requires Valid() && StateHere(View(), k, r) && |bytes| < FRAME_DATA_MAX
      modifies this, arena
      ensures Valid() && nodeId == old(nodeId) && held == old(held) && Touched(nodeId, old(View()), View(), k, r)
      ensures code in {Ok, OutOfMemory}
      ensures Outcome(At(r), |free|, 0, code, None) == Push(old(At(r)), bytes, crc, old(|free|), At(r).payload)
    {
      hide Wf, Gather, Frames, Sessions, BlocksAfter, Stored;
      ghost var p0 := View();
      SessionHere(nodeId, p0, k, r);
      var ok := BufferBlockPushBytes(r, k, bytes);
      ghost var p1 := View();
      GrewTouches(p0, k, r);
      if !ok {
        GiveUp(r, k);
        TouchedTwice(nodeId, p0, p1, View(), k, r);
        return OutOfMemory;
      }
      var sum := CrcAdd(crc, bytes);
      WriteFields(r, k, arena[r].rx.(calculatedCrc := sum, nextToggle := !arena[r].rx.nextToggle));
      TouchedTwice(nodeId, p0, p1, View(), k, r);
      return Ok;
    }

    lemma GrewTouches(p0: Pool, k: nat, r: nat)
      requires Grew(p0, nodeId, k, r) && arena[r].rx.descriptor == p0.m[r].rx.descriptor
      ensures Touched(nodeId, p0, View(), k, r)
    {
      hide Wf, Gather, Frames, Sessions;
    }

    /** First frame of a multi-frame transfer: takes the CRC off and stores the rest. */
    method StartTransfer(r: nat, ghost k: nat, f: Frame, now: u64, signature: u64) returns (code: Code)
      requires Valid() && StateHere(View(), k, r) && chains[r] == [] && 3 < |f.data| <= FRAME_DATA_MAX
      modifies this, arena
      ensures Valid() && nodeId == old(nodeId) && held == old(held) && Touched(nodeId, old(View()), View(), k, r)
      ensures Outcome(At(r), |free|, 0, code, None) ==
              Push(old(At(r)).(timestamp := now, payload := [], payloadCrc := CrcFromBytes(f.data[0], f.data[1])),
                   Body(f)[2..], Crc(INITIAL, SignatureBytes(signature)), old(|free|), At(r).payload)
    {
      hide Wf, Gather, Frames, Sessions, SignatureBytes, Push, Prefix, Crc;
      ghost var p0 := View();
      var rx := arena[r].rx;
      GatherNone(arena[..]);
      WriteFields(r, k, rx.(timestamp := now, payloadLen := 0));
      ghost var p1 := View();
      var start := CrcAdd(INITIAL, SignatureBytes(signature));
      ghost var s1, free1 := At(r), |free|;
      code := StorePayload(r, k, f.data[2..|f.data| - 1], start);
      ghost var p2 := View();
      PushHead(s1, Body(f)[2..], start, free1, At(r).payload);
      PushHead(s1.(payloadCrc := CrcFromBytes(f.data[0], f.data[1])), Body(f)[2..], start, free1, At(r).payload);
      TouchedTwice(nodeId, p0, p1, p2, k, r);
      assert f.data[2..|f.data| - 1] == Body(f)[2..];
      WriteFields(r, k, arena[r].rx.(payloadCrc := CrcFromBytes(f.data[0], f.data[1])));
      TouchedTwice(nodeId, p0, p2, View(), k, r);
    }

    /** The bytes of the last frame that still fit into the storage. */
    method StoreLast(r: nat, ghost k: nat, ghost p0: Pool, body: seq<u8>) returns (to: nat)
      requires Valid() && StateHere(View(), k, r) && p0 == View()
      modifies arena
      ensures Grew(p0, nodeId, k, r) && to <= |body|
      ensures arena[r].rx == p0.m[r].rx.(head := arena[r].rx.head)
      ensures FitsChain(p0.m[r].rx.payloadLen, |p0.chains[r]|) ==>
        to == LastShare(p0.m[r].rx.payloadLen, |p0.chains[r]|, |body|)
      ensures FitsChain(p0.m[r].rx.payloadLen, |p0.chains[r]|) ==>
        Completed(p0.m[r].rx, arena[r].rx, Bytes(p0, r), Bytes(View(), r), to, body)
    {
      hide Wf, Gather, SessionOf, Frames, Sessions, WithSession, Completed, Splice, HeadShare;
      var rx := arena[r].rx;
      GrewNothing(k, r);
      ChainLength(p0, r);
      ChainBuffer(p0, r);
      if rx.payloadLen < HEAD_SIZE {
        to := FillHead(r, k, p0, body);
        if FitsChain(rx.payloadLen, |p0.chains[r]|) {
          CompletedInHead(rx, arena[r].rx, Bytes(p0, r), to, body);
        }
      } else if arena[r].buffer != NULL {
        var block, nth := LastChunk(r, k);
        var index := (rx.payloadLen - (HEAD_SIZE + BLOCK_SIZE * (nth - 1))) % 0x1_0000_0000;
        to := 0;
        if index <= BLOCK_SIZE {
          to := FillChunk(r, k, p0, block, index, body, 0);
          assert body[0..to] == body[..to];
        }
        if FitsChain(rx.payloadLen, |p0.chains[r]|) {
          CompletedInChain(rx, Bytes(p0, r), |p0.chains[r]|, to, body);
        }
      } else {
        to := 0;
        if FitsChain(rx.payloadLen, |p0.chains[r]|) {
          CompletedAfterHead(rx, body);
        }
      }
    }

    /** Hands the chain of session k over: it belongs to the delivered transfer from here on. */
    method HandOver(r: nat, ghost k: nat)
      requires Valid() && StateHere(View(), k, r) && held == []
      modifies this, arena
      ensures Valid() && nodeId == old(nodeId) && Touched(nodeId, old(View()), View(), k, r)
      ensures chains[r] == [] && held == old(chains[r]) && heldHead == old(arena[r].buffer)
      ensures arena[r].rx == old(arena[r].rx) && |free| == old(|free|)
      ensures Gather(arena[..], held) == Bytes(old(View()), r)
    {
      hide Chained, OwnedAt, Fits, Linked, Gather, SessionOf, Frames, Sessions;
      ghost var p0 := View();
      ChainToHeldWf(p0, r);
      MeansChainToHeld(nodeId, p0, k);
      HeadBytes(p0, k, r, arena[r].rx);
      heldHead, held := arena[r].buffer, chains[r];
      arena[r] := RxState(arena[r].next, NULL, arena[r].rx);
      chains := chains[r := []];
      ghost var o := owner;
      owner := seq(|o|, i requires 0 <= i < |o| => if o[i] == InChain(r) then InCallback else o[i]);
      assert View() == ChainToHeld(p0, r);
      GatherFrame(p0.m, arena[..], held);
      GatherNone(arena[..]);
    }

    /** canardReleaseRxTransferPayload: the application's blocks go back to the pool. */
    method ReleaseTransferPayload()
      requires Valid()
      modifies this, arena
      ensures Valid() && nodeId == old(nodeId) && held == []
      ensures states == old(states) && chains == old(chains)
      ensures Meaning() == old(Meaning()).(free := old(Meaning()).free + old(Meaning()).held, held := 0)
    {
      hide Wf, Frames, Sessions;
      ghost var m0 := Meaning();
      LendHead(View());
      while heldHead != NULL
        invariant Valid() && nodeId == old(nodeId) && (heldHead == NULL <==> held == [])
        invariant states == old(states) && chains == old(chains) && |held| <= m0.held
        invariant Meaning() == m0.(free := m0.free + m0.held - |held|, held := |held|)
        decreases |held|
      {
        ReleaseFirst();
        LendHead(View());
      }
    }

    /** Unlinks and frees the first block lent to the application. */
    method ReleaseFirst()
      requires Valid() && held != []
      modifies this, arena
      ensures Valid() && nodeId == old(nodeId) && held == old(held)[1..]
      ensures states == old(states) && chains == old(chains)
      ensures Meaning() == old(Meaning()).(free := old(Meaning()).free + 1, held := |held|)
    {
      hide Chained, OwnedAt, Fits, Linked;
      ghost var p0 := View();
      LendHead(p0);
      HeldPopWf(p0);
      MeansHeldPop(nodeId, p0);
      var block := heldHead;
      heldHead := arena[block].next;
      held, owner := held[1..], owner[block := Taken];
      MeansPutFree(nodeId, View(), block);
      FreeBlock(block);
    }

    /** Completes the payload and takes it out of the session. */
    method CollectLast(r: nat, ghost k: nat, f: Frame, now: u64) returns (candidate: RxTransfer)
      requires Valid() && StateHere(View(), k, r) && held == [] && 0 < |f.data| <= FRAME_DATA_MAX
      modifies this, arena
      ensures Valid() && nodeId == old(nodeId) && Touched(nodeId, old(View()), View(), k, r)
      ensures StateHere(View(), k, r) && chains[r] == []
      ensures arena[r].rx == old(arena[r].rx).(head := arena[r].rx.head)
      ensures |free| == old(|free|) && |held| == old(|chains[r]|)
      ensures candidate.info == InfoOf(f, now) && candidate.middle == heldHead
      ensures Regular(old(At(r))) ==> Flat(candidate, Gather(arena[..], held)) == old(At(r)).payload + Body(f)
      ensures |Flat(candidate, Gather(arena[..], held))| == |old(At(r)).payload| + |Body(f)|
      ensures Regular(old(At(r))) ==> WellScattered(candidate, |held|)
    {
      hide Wf, Gather, Frames, Sessions, InfoOf, WellScattered, LastShare;
      ghost var p0 := View();
      SessionHere(nodeId, p0, k, r);
      var length := arena[r].rx.payloadLen;
      var body := Body(f);
      var to := StoreLast(r, k, p0, body);
      ghost var p1 := View();
      GrewTouches(p0, k, r);
      candidate := RxTransfer(InfoOf(f, now), arena[r].rx.head, arena[r].buffer, body[to..], length + |body|);
      ChainBuffer(p1, r);
      if FitsChain(length, |chains[r]|) {
        LastScattered(candidate, length, |chains[r]|, |body|);
      }
      HandOver(r, k);
      TouchedTwice(nodeId, p0, p1, View(), k, r);
    }

    /** Checks the CRC of a completed transfer and prepares the session for the next. */
    method CloseTransfer(r: nat, ghost k: nat, body: seq<u8>) returns (intact: bool)
      requires Valid() && StateHere(View(), k, r) && chains[r] == []
      modifies arena
      ensures Valid() && Touched(nodeId, old(View()), View(), k, r) && StateHere(View(), k, r)
      ensures intact == (Crc(old(arena[r].rx.calculatedCrc), body) == old(arena[r].rx.payloadCrc))
      ensures At(r) == Prepared(old(At(r)).(calculatedCrc := Crc(old(arena[r].rx.calculatedCrc), body)))
      ensures Gather(arena[..], held) == Gather(old(arena[..]), held)
    {
      hide Wf, Gather, Frames, Sessions;
      ghost var p0 := View();
      var crc := CrcAdd(arena[r].rx.calculatedCrc, body);
      intact := crc == arena[r].rx.payloadCrc;
      WriteFields(r, k, arena[r].rx.(calculatedCrc := crc));
      ghost var p1 := View();
      PrepareForNextTransfer(r, k);
      TouchedTwice(nodeId, p0, p1, View(), k, r);
    }

    /** Gives back the blocks of a completed transfer that is not delivered. */
    method DiscardTransfer(r: nat, ghost k: nat)
      requires Valid() && StateHere(View(), k, r)
      modifies this, arena
      ensures Valid() && nodeId == old(nodeId) && Touched(nodeId, old(View()), View(), k, r)
      ensures At(r) == old(At(r)) && held == [] && |free| == old(|free|) + old(|held|)
    {
      hide Wf, Gather, Frames, Sessions, SessionAt;
      ghost var p0 := View();
      ReleaseTransferPayload();
      ReleaseTouches(nodeId, p0, View(), k, r);
    }

    /** Last frame of a multi-frame transfer: the payload is complete, and delivered if its CRC is right. */
    method EndTransfer(r: nat, ghost k: nat, f: Frame, now: u64) returns (code: Code, transfer: Option<RxTransfer>)
      requires Valid() && StateHere(View(), k, r) && held == [] && 0 < |f.data| <= FRAME_DATA_MAX
      modifies this, arena
      ensures Valid() && nodeId == old(nodeId) && Touched(nodeId, old(View()), View(), k, r)
      ensures Outcome(At(r), |free|, |held|, code, Payload(transfer)) ==
              Finish(old(At(r)), Body(f), old(|free|), Memory(r, transfer))
      ensures Described(transfer, f, now)
      ensures Regular(old(At(r))) ==> Readable(transfer)
    {
      hide Wf, Gather, Frames, Sessions, InfoOf, Flat, Touched, Regular, Prefix;
      ghost var p0, s0 := View(), At(r);
      var candidate := CollectLast(r, k, f, now);
      ghost var p1 := View();
      var intact := CloseTransfer(r, k, Body(f));
      ghost var p2 := View();
      TouchedTwice(nodeId, p0, p1, p2, k, r);
      if intact {
        PrefixAll(Payload(Some(candidate)).value);
        return Ok, Some(candidate);
      }
      DiscardTransfer(r, k);
      TouchedTwice(nodeId, p0, p2, View(), k, r);
      return BadCrc, None;
    }

    /** The transfer describes the frame that completed it; its chain is the one lent to the application. */
    ghost predicate Described(transfer: Option<RxTransfer>, f: Frame, now: u64)
      reads this
    {
      match transfer
      case None => held == []
      case Some(t) => t.info == InfoOf(f, now) && t.middle == heldHead
    }

    ghost predicate Readable(transfer: Option<RxTransfer>)
      reads this
    {
      transfer.Some? ==> WellScattered(transfer.value, |held|)
    }

    /** The payload of a delivered transfer, read from where it is scattered. */
    ghost function Payload(transfer: Option<RxTransfer>): Option<seq<u8>>
      reads this, arena
    {
      match transfer
      case None => None
      case Some(t) => Some(Flat(t, Gather(arena[..], held)))
    }

    /** What the storage showed when a frame was handled: the bytes of a delivered payload, or those of the session. */
    ghost function Memory(r: nat, transfer: Option<RxTransfer>): seq<u8>
      reads this, arena
    {
      if transfer.Some? then Payload(transfer).value else At(r).payload
    }

    /** Single-frame transfer: delivered from the frame itself. */
    method TakeSingle(r: nat, ghost k: nat, f: Frame, now: u64) returns (transfer: RxTransfer)
      requires Valid() && StateHere(View(), k, r) && held == [] && chains[r] == [] && 0 < |f.data| <= FRAME_DATA_MAX
      modifies arena
      ensures Valid() && Touched(nodeId, old(View()), View(), k, r)
      ensures At(r) == Prepared(old(At(r)).(timestamp := now))
      ensures transfer.info == InfoOf(f, now) && transfer.middle == heldHead && WellScattered(transfer, 0)
      ensures Payload(Some(transfer)) == Some(Body(f))
    {
      hide Wf, Frames, Sessions;
      ghost var p0 := View();
      LendNothing(p0);
      transfer := RxTransfer(InfoOf(f, now), Body(f), NULL, [], |Body(f)|);
      WriteFields(r, k, arena[r].rx.(timestamp := now));
      ghost var p1 := View();
      PrepareForNextTransfer(r, k);
      TouchedTwice(nodeId, p0, p1, View(), k, r);
      LendNothing(View());
      assert transfer.head + [] + transfer.tail == Body(f);
      assert Flat(transfer, []) == Body(f);
    }

    /** canardHandleRxFrame after the restart decision. */
    method AcceptFrame(r: nat, ghost k: nat, f: Frame, now: u64, signature: u64)
      returns (code: Code, transfer: Option<RxTransfer>)
      requires Valid() && StateHere(View(), k, r) && held == [] && 0 < |f.data| <= FRAME_DATA_MAX
      requires IsStart(Tail(f)) && f.iface == arena[r].rx.iface ==> chains[r] == []
      modifies this, arena
      ensures Valid() && nodeId == old(nodeId) && Touched(nodeId, old(View()), View(), k, r)
      ensures Outcome(At(r), |free|, |held|, code, Payload(transfer)) ==
              Accept(old(At(r)), f, Moment(now, Memory(r, transfer)), signature, old(|free|))
      ensures Described(transfer, f, now)
      ensures Regular(old(At(r))) ==> Readable(transfer)
    {
      hide Wf, Gather, Frames, Sessions, InfoOf, Flat, Touched, Regular, Prefix, Push, Finish, SignatureBytes;
      TouchedNothing(nodeId, View(), k, r);
      ghost var s0 := At(r);
      var tail := f.data[|f.data| - 1];
      if f.iface != arena[r].rx.iface {
        return Ok, None;
      }
      if IsStart(tail) && IsEnd(tail) {
        var single := TakeSingle(r, k, f, now);
        return Ok, Some(single);
      }
      if Toggle(tail) != arena[r].rx.nextToggle {
        return WrongToggle, None;
      }
      if TransferId(tail) != arena[r].rx.transferId {
        return UnexpectedTid, None;
      }
      if IsStart(tail) {
        if |f.data| <= 3 {
          return ShortFrame, None;
        }
        code := StartTransfer(r, k, f, now, signature);
        return code, None;
      } else if !IsEnd(tail) {
        code := StorePayload(r, k, f.data[..|f.data| - 1], arena[r].rx.calculatedCrc);
        return code, None;
      } else {
        code, transfer := EndTransfer(r, k, f, now);
      }
    }

    /** The session starts over: whatever it collected is released. */
    method Restart(r: nat, ghost k: nat, f: Frame)
      requires Valid() && StateHere(View(), k, r) && f.data != []
      modifies this, arena
      ensures Valid() && nodeId == old(nodeId) && held == old(held) && Touched(nodeId, old(View()), View(), k, r)
      ensures At(r) == Restarted(old(At(r)), f) && |free| == old(|free|) + old(At(r)).blocks && chains[r] == []
    {
      hide Wf, Gather, Frames, Sessions;
      ghost var p0 := View();
      var tail := f.data[|f.data| - 1];
      WriteFields(r, k, arena[r].rx.(transferId := TransferId(tail), nextToggle := false));
      ghost var p1 := View();
      SessionHere(nodeId, p1, k, r);
      ReleaseStatePayload(r, k);
      ghost var p2 := View();
      TouchedTwice(nodeId, p0, p1, p2, k, r);
      WriteFields(r, k, arena[r].rx.(iface := f.iface));
      TouchedTwice(nodeId, p0, p2, View(), k, r);
    }

    /** Does the session have to start over before it can take this frame? */
    method RestartNeeded(r: nat, ghost k: nat, f: Frame, now: u64) returns (need: bool)
      requires Valid() && StateHere(View(), k, r) && f.data != []
      ensures forall memory :: need == NeedRestart(At(r), f, Moment(now, memory))
      ensures (arena[r].buffer == NULL) == (chains[r] == [])
    {
      hide Wf, Gather, Frames, Sessions;
      ChainBuffer(View(), r);
      var rx := arena[r].rx;
      var tail := f.data[|f.data| - 1];
      var notInitialized := rx.timestamp == 0;
      var tidTimedOut := Elapsed(now, rx.timestamp) > TRANSFER_TIMEOUT;
      var sameIface := f.iface == rx.iface;
      var firstFrame := IsStart(tail);
      var notPreviousTid := ForwardDistance(rx.transferId, TransferId(tail)) > 1;
      var ifaceSwitchAllowed := Elapsed(now, rx.timestamp) > IFACE_SWITCH_DELAY;
      var nonWrappedTid := ForwardDistance(TransferId(tail), rx.transferId) < 16;
      var incompleteFrame := arena[r].buffer != NULL;
      need := notInitialized || tidTimedOut || (sameIface && firstFrame && (notPreviousTid || incompleteFrame)) ||
              (ifaceSwitchAllowed && firstFrame && nonWrappedTid);
    }

    /** canardHandleRxFrame once the session is found. */
    method ReceiveFrame(r: nat, ghost k: nat, f: Frame, now: u64, signature: u64)
      returns (code: Code, transfer: Option<RxTransfer>)
      requires Valid() && StateHere(View(), k, r) && held == [] && 0 < |f.data| <= FRAME_DATA_MAX
      modifies this, arena
      ensures Valid() && nodeId == old(nodeId) && Touched(nodeId, old(View()), View(), k, r)
      ensures Outcome(At(r), |free|, |held|, code, Payload(transfer)) ==
              Receive(old(At(r)), f, Moment(now, Memory(r, transfer)), signature, old(|free|))
      ensures Described(transfer, f, now)
      ensures Regular(old(At(r))) ==> Readable(transfer)
    {
      hide Wf, Gather, Frames, Sessions, InfoOf, Flat, Prefix, Accept, NeedRestart;
      ghost var p0, s0 := View(), At(r);
      var need := RestartNeeded(r, k, f, now);
      if need {
        Restart(r, k, f);
        ghost var p1 := View();
        if !IsStart(f.data[|f.data| - 1]) {
          WriteFields(r, k, arena[r].rx.(transferId := NextTid(arena[r].rx.transferId)));
          TouchedTwice(nodeId, p0, p1, View(), k, r);
          return MissedStart, None;
        }
        code, transfer := AcceptFrame(r, k, f, now, signature);
        TouchedTwice(nodeId, p0, p1, View(), k, r);
      } else {
        FirstNotMidway(s0, f, Moment(now, []));
        code, transfer := AcceptFrame(r, k, f, now, signature);
      }
    }

    /** The found or created session takes the frame. */
    method ReceiveInSession(r: nat, ghost k: nat, f: Frame, now: u64, signature: u64)
      returns (code: Code, transfer: Option<RxTransfer>, ghost memory: seq<u8>)
      requires Valid() && k < |states| && states[k] == r && held == [] && 0 < |f.data| <= FRAME_DATA_MAX
      modifies this, arena
      ensures Valid() && nodeId == old(nodeId) && k < |old(Meaning()).sessions| == |Meaning().sessions|
      ensures Meaning().queue == old(Meaning()).queue
      ensures Meaning().sessions == old(Meaning()).sessions[k := Meaning().sessions[k]]
      ensures Meaning().sessions[k].descriptor == old(Meaning()).sessions[k].descriptor
      ensures Handled(Meaning(), code, Payload(transfer)) == InSession(old(Meaning()), k, f, Moment(now, memory), signature)
      ensures Described(transfer, f, now)
      ensures Regular(old(Meaning()).sessions[k]) ==> Readable(transfer)
    {
      hide Wf, Gather, Frames, Sessions, InfoOf, Flat, Prefix, Receive;
      SessionHere(nodeId, View(), k, r);
      code, transfer := ReceiveFrame(r, k, f, now, signature);
      memory := Memory(r, transfer);
      SessionHere(nodeId, View(), k, r);
    }

    /** canardHandleRxFrame up to the reception callback. The blocks of a delivered transfer stay lent to
        the application until ReleaseTransferPayload; `memory` is what the storage of a session whose length field
        has overflowed turned out to show. */
    method HandleRxFrame(f: Frame, now: u64, accept: Option<u64>) 
      returns (code: Code, transfer: Option<RxTransfer>, ghost memory: seq<u8>)
      requires Valid() && held == [] && |f.data| <= FRAME_DATA_MAX
      modifies this, arena
      ensures Valid() && nodeId == old(nodeId)
      ensures Handled(Meaning(), code, Payload(transfer)) == HandleRx(old(Meaning()), f, Moment(now, memory), accept)
      ensures OnlyFor(old(Meaning()), Meaning(), Descriptor(f.id))
      ensures Described(transfer, f, now)
      ensures InOrderFor(old(Meaning()), f) ==> Readable(transfer)
    {
      hide Wf, View, Gather, Frames, Sessions, InfoOf, Flat, Prefix, Receive, Descriptor;
      ghost var m0 := Meaning();
      memory := [];
      if !Compatible(f) {
        return IncompatiblePacket, None, [];
      }
      if TransferTypeOf(f.id) != Broadcast && DestinationOf(f.id) != nodeId {
        return WrongAddress, None, [];
      }
      var descriptor := Descriptor(f.id);
      if IsStart(f.data[|f.data| - 1]) {
        if accept == None {
          return NotWanted, None, [];
        }
        var r, k := TraverseRxStates(descriptor);
        if r == NULL {
          return OutOfMemory, None, [];
        }
        code, transfer, memory := ReceiveInSession(r, k, f, now, accept.value);
      } else {
        var r, k := FindRxState(descriptor);
        if r == NULL {
          return if accept == None then NotWanted else MissedStart, None, [];
        }
        code, transfer, memory := ReceiveInSession(r, k, f, now, 0);
      }
    }

    // ---------- Stale sessions ----------

    /** Releases session k, unlinks it from the session before it and frees its block. */
    method DropState(state: nat, ghost k: nat, prev: int) returns (next: int)
      requires Valid() && k < |states| && states[k] == state
      requires k > 0 ==> prev == states[k - 1]
      modifies this, arena
      ensures Valid() && nodeId == old(nodeId) && k < |old(Meaning()).sessions|
      ensures states == old(states)[..k] + old(states)[k + 1..] && held == old(held)
      ensures next == First(states[k..], NULL)
      ensures Meaning() == Dropped(old(Meaning()), k)
    {
      hide Chained, OwnedAt, Fits, Linked, SessionAt, Frames, Sessions;
      ghost var m0 := Meaning();
      ReleaseStatePayload(state, k);
      ghost var p1 := View();
      StateNeighbours(p1, k);
      next := UnlinkState(state, k, prev);
      ghost var p2 := View();
      MeansPutFree(nodeId, p2, state);
      FreeBlock(state);
      assert states[k..] == old(states)[k + 1..];
    }

    /** Takes session k, whose chain is empty, out of the list. */
    method UnlinkState(state: nat, ghost k: nat, prev: int) returns (next: int)
      requires Sound() && StateHere(View(), k, state) && chains[state] == []
      requires k > 0 ==> 0 <= prev < arena.Length && prev == states[k - 1]
      requires (state == rxStates) == (k == 0)
      modifies this, arena
      ensures Sound() && nodeId == old(nodeId) && held == old(held) && |free| == old(|free|)
      ensures state < |owner| && owner == old(owner)[state := Taken]
      ensures states == old(states)[..k] + old(states)[k + 1..] && next == First(old(states)[k + 1..], NULL)
      ensures k < |old(Meaning()).sessions|
      ensures Meaning() ==
        old(Meaning()).(sessions := old(Meaning()).sessions[..k] + old(Meaning()).sessions[k + 1..])
    {
      hide Chained, OwnedAt, Fits, Linked, SessionAt, Frames, Sessions;
      ghost var p1 := View();
      StateRemoveWf(p1, k);
      MeansStateRemove(nodeId, p1, k);
      LinkedNext(p1.m, p1.rxStates, p1.states, k);
      next := arena[state].next;
      if state == rxStates {
        rxStates := next;
      } else {
        arena[prev] := SetNext(arena[prev], next);
      }
      states, chains, owner := states[..k] + states[k + 1..], chains - {state}, owner[state := Taken];
      assert View() == StateRemove(p1, k);
    }

    /** canardCleanupStaleTransfers */
    method CleanupStaleTransfers(now: u64)
      requires Valid()
      modifies this, arena
      ensures Valid() && nodeId == old(nodeId) && held == old(held)
      ensures Meaning() == Cleanup(old(Meaning()), now)
    {
      hide Wf, Gather, Frames, Sessions, Cleanup, Dropped;
      ghost var m0, k := Meaning(), 0;
      var prev, state := rxStates, rxStates;
      StateNeighbours(View(), 0);
      while state != NULL
        invariant Valid() && nodeId == old(nodeId) && held == old(held)
        invariant k <= |states| == |Meaning().sessions| && state == First(states[k..], NULL)
        invariant k > 0 ==> prev == states[k - 1]
        invariant forall i :: 0 <= i < k ==> !Stale(Meaning().sessions[i], now)
        invariant Cleanup(Meaning(), now) == Cleanup(m0, now)
        decreases |states| - k
      {
        SessionHere(nodeId, View(), k, state);
        StateNeighbours(View(), k);
        if Elapsed(now, arena[state].rx.timestamp) > TRANSFER_TIMEOUT {
          CleanupStep(Meaning(), now, k);
          DroppedBehind(Meaning(), k);
          state := DropState(state, k, prev);
        } else {
          prev, state, k := state, arena[state].next, k + 1;
        }
      }
      AllLive(Meaning(), now);
    }
  }
}
