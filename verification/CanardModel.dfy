/** What a Canard instance means: the frames waiting for transmission, the reception sessions, the
    number of free blocks and of blocks lent to the application; and what each operation does to it. */
module CanardModel {
  import opened Bits
  import opened TransferCrc
  import opened CanardFrame
  import opened CanardLists
  import opened CanardPool
  import opened CanardTransport
  import opened CanardTxQueue

  datatype Model = Model(nodeId: NodeId, free: nat, queue: seq<Frame>, sessions: seq<Session>, held: nat)

  // ---------- Sending ----------

  /** Frames queued, or the reason why none or not all of them were. */
  datatype SendCode = Queued(frames: nat) | InvalidArgument | NodeIdNotSet | NoMemory

  datatype SendOutcome = SendOutcome(model: Model, code: SendCode)

  /** Frames the sender reserves room for; the length with its CRC is computed in sixteen bits. */
  function FramesReserved(length: nat): nat {
    ((length + 2) % 0x1_0000 + 6) / 7
  }

  /** enqueueTxFrames: single frames need one block, longer payloads are refused unless the reserved
      number of blocks is free. The queue then receives every frame, or as many as there are blocks. */
  function SendFrames(m: Model, id: Id, payload: seq<u8>, crc: Register, tid: Tid): SendOutcome {
    var fs := TransferFrames(id, payload, crc, tid);
    if |payload| < FRAME_DATA_MAX then
      if m.free == 0 then SendOutcome(m, NoMemory)
      else SendOutcome(m.(free := m.free - 1, queue := Insert(m.queue, fs[0])), Queued(1))
    else if m.free < FramesReserved(|payload|) then SendOutcome(m, NoMemory)
    else if m.free < |fs| then
      SendOutcome(m.(free := 0, queue := InsertAll(m.queue, fs[..m.free])), NoMemory)
    else
      SendOutcome(m.(free := m.free - |fs|, queue := InsertAll(m.queue, fs)), Queued(|fs|))
  }

  /** A send request's outcome and the caller's transfer ID counter afterwards. */
  datatype TxResult = TxResult(outcome: SendOutcome, tid: u8)

  function AdvanceTid(tid: u8): u8 { if tid + 1 < 32 then tid + 1 else 0 }

  /** CRC put into the first frame; single-frame transfers carry none. */
  function TransferCrcOf(signature: u64, payload: seq<u8>): Register {
    if |payload| > 7 then PayloadCrc(signature, payload) else INITIAL
  }

  /** canardBroadcast. An anonymous node may only send single frames of the lowest four data types. */
  function SendBroadcast(m: Model, signature: u64, dataTypeId: u16, tid: u8, priority: u8, payload: seq<u8>): TxResult {
    if priority > 31 then TxResult(SendOutcome(m, InvalidArgument), tid)
    else if m.nodeId == 0 && |payload| > 7 then TxResult(SendOutcome(m, NodeIdNotSet), tid)
    else if m.nodeId == 0 && dataTypeId >= 4 then TxResult(SendOutcome(m, InvalidArgument), tid)
    else
      var id := if m.nodeId == 0 then AnonymousId(priority, Discriminator(Crc(INITIAL, payload)), dataTypeId)
                else BroadcastId(priority, dataTypeId, m.nodeId);
      var o := SendFrames(m, id + FLAG_EFF, payload, TransferCrcOf(signature, payload), tid % 32);
      TxResult(o, if o.code.Queued? then AdvanceTid(tid) else tid)
  }

  /** canardRequestOrRespond. Only a request advances the transfer ID. */
  function SendService(m: Model, destination: u8, signature: u64, dataTypeId: u8, tid: u8, priority: u8,
                       request: bool, payload: seq<u8>): TxResult
  {
    if priority > 31 then TxResult(SendOutcome(m, InvalidArgument), tid)
    else if m.nodeId == 0 then TxResult(SendOutcome(m, NodeIdNotSet), tid)
    else
      var id := ServiceId(priority, dataTypeId, request, destination, m.nodeId);
      var o := SendFrames(m, id + FLAG_EFF, payload, TransferCrcOf(signature, payload), tid % 32);
      TxResult(o, if o.code.Queued? && request then AdvanceTid(tid) else tid)
  }

  // ---------- Receiving ----------

  /** Index of the first session with this descriptor, or the number of sessions. */
  function FindSession(sessions: seq<Session>, descriptor: nat): (k: nat)
    ensures k <= |sessions|
    ensures k < |sessions| ==> sessions[k].descriptor == descriptor
  {
    if sessions == [] || sessions[0].descriptor == descriptor then 0
    else 1 + FindSession(sessions[1..], descriptor)
  }

  lemma {:induction false} FindSessionAt(sessions: seq<Session>, descriptor: nat, k: nat)
    requires k <= |sessions| && forall i :: 0 <= i < k ==> sessions[i].descriptor != descriptor
    requires k < |sessions| ==> sessions[k].descriptor == descriptor
    ensures FindSession(sessions, descriptor) == k
    decreases k
  {
    if k > 0 {
      FindSessionAt(sessions[1..], descriptor, k - 1);
    }
  }

  function WithSession(m: Model, k: nat, s: Session): Model {
    if k < |m.sessions| then m.(sessions := m.sessions[k := s]) else m
  }

  /** Session k took one more block. */
  function Grown(m: Model, k: nat, s: Session): Model {
    WithSession(m, k, s).(free := if m.free == 0 then 0 else m.free - 1)
  }

  /** A block becomes a new session in front of the others. */
  function Opened(m: Model, descriptor: nat): Model {
    m.(free := if m.free == 0 then 0 else m.free - 1, sessions := [Fresh(descriptor)] + m.sessions)
  }

  /** Return code and delivered payload of one received frame. */
  datatype Handled = Handled(model: Model, code: Code, delivered: Option<seq<u8>>)

  /** A frame through session k; payload blocks of a delivered transfer are lent to the application. */
  function InSession(m: Model, k: nat, f: Frame, now: Moment, signature: u64): Handled
    requires k < |m.sessions|
  {
    var o := Receive(m.sessions[k], f, now, signature, m.free);
    Handled(m.(sessions := m.sessions[k := o.session], free := o.free, held := o.held), o.code, o.delivered)
  }

  predicate Compatible(f: Frame) {
    IsExtended(f.id) && !IsRemote(f.id) && !IsError(f.id) && f.data != []
  }

  /** canardHandleRxFrame; `accept` is the signature the application returns for this kind of transfer,
      or None when it declines. */
  function HandleRx(m: Model, f: Frame, now: Moment, accept: Option<u64>): Handled {
    var k := FindSession(m.sessions, Descriptor(f.id));
    if !Compatible(f) then Handled(m, IncompatiblePacket, None)
    else if TransferTypeOf(f.id) != Broadcast && DestinationOf(f.id) != m.nodeId then Handled(m, WrongAddress, None)
    else if IsStart(Tail(f)) then
      if accept == None then Handled(m, NotWanted, None)
      else if k < |m.sessions| then InSession(m, k, f, now, accept.value)
      else if m.free == 0 then Handled(m, OutOfMemory, None)
      else InSession(Opened(m, Descriptor(f.id)), 0, f, now, accept.value)
    else if k < |m.sessions| then InSession(m, k, f, now, 0)
    else Handled(m, if accept == None then NotWanted else MissedStart, None)
  }

  /** The session the frame belongs to, if there is one, holds its bytes without a gap. */
  predicate InOrderFor(m: Model, f: Frame) {
    var k := FindSession(m.sessions, Descriptor(f.id));
    k < |m.sessions| ==> Regular(m.sessions[k])
  }

  /** The queue and the sessions of every other descriptor are as before. */
  predicate OnlyFor(m: Model, m': Model, descriptor: nat) {
    var k := FindSession(m.sessions, descriptor);
    && m'.queue == m.queue && m'.nodeId == m.nodeId
    && (|| m'.sessions == m.sessions
        || (k < |m.sessions| == |m'.sessions| && m'.sessions == m.sessions[k := m'.sessions[k]] &&
            m'.sessions[k].descriptor == descriptor)
        || (k == |m.sessions| < |m'.sessions| && m'.sessions[1..] == m.sessions &&
            m'.sessions[0].descriptor == descriptor))
  }

  predicate Stale(s: Session, now: u64) { Elapsed(now, s.timestamp) > TRANSFER_TIMEOUT }

  function Live(sessions: seq<Session>, now: u64): seq<Session> {
    if sessions == [] then []
    else (if Stale(sessions[0], now) then [] else [sessions[0]]) + Live(sessions[1..], now)
  }

  /** Blocks of the stale sessions: their own and their chunks. */
  function StaleBlocks(sessions: seq<Session>, now: u64): nat {
    if sessions == [] then 0
    else (if Stale(sessions[0], now) then 1 + sessions[0].blocks else 0) + StaleBlocks(sessions[1..], now)
  }

  /** canardCleanupStaleTransfers */
  function Cleanup(m: Model, now: u64): Model {
    m.(sessions := Live(m.sessions, now), free := m.free + StaleBlocks(m.sessions, now))
  }

  /** Session k is dropped and its blocks are free again. */
  function Dropped(m: Model, k: nat): Model
    requires k < |m.sessions|
  {
    m.(sessions := m.sessions[..k] + m.sessions[k + 1..], free := m.free + 1 + m.sessions[k].blocks)
  }

  /** Keeping or dropping session k after k live ones is a step of the filter. */
  lemma {:induction false} CleanupStep(m: Model, now: u64, k: nat)
    requires k < |m.sessions| && forall i :: 0 <= i < k ==> !Stale(m.sessions[i], now)
    ensures Stale(m.sessions[k], now) ==> Cleanup(Dropped(m, k), now) == Cleanup(m, now)
  {
    if Stale(m.sessions[k], now) {
      var a, b := m.sessions[..k], m.sessions[k..];
      assert m.sessions == a + b;
      LiveConcat(a, b, now);
      LiveConcat(a, b[1..], now);
      assert b[1..] == m.sessions[k + 1..];
    }
  }

  lemma {:induction false} LiveConcat(a: seq<Session>, b: seq<Session>, now: u64)
    ensures Live(a + b, now) == Live(a, now) + Live(b, now)
    ensures StaleBlocks(a + b, now) == StaleBlocks(a, now) + StaleBlocks(b, now)
    decreases a
  {
    hide Stale;
    if a == [] {
      assert a + b == b;
    } else {
      LiveConcat(a[1..], b, now);
      assert a + b == [a[0]] + (a[1..] + b);
      LiveCons(a[0], a[1..] + b, now);
      LiveCons(a[0], a[1..], now);
      assert a == [a[0]] + a[1..];
      Grouped(Live([a[0]], now), Live(a[1..], now), Live(b, now));
    }
  }

  lemma LiveCons(s: Session, rest: seq<Session>, now: u64)
    ensures Live([s] + rest, now) == Live([s], now) + Live(rest, now)
    ensures StaleBlocks([s] + rest, now) == StaleBlocks([s], now) + StaleBlocks(rest, now)
  {
    hide Stale;
    assert ([s] + rest)[1..] == rest && [s][1..] == [];
  }

  lemma Grouped(a: seq<Session>, b: seq<Session>, c: seq<Session>)
    ensures a + (b + c) == (a + b) + c
  {
  }

  /** Sessions in front of the dropped one keep their places. */
  lemma DroppedBehind(m: Model, k: nat)
    requires k < |m.sessions|
    ensures |Dropped(m, k).sessions| == |m.sessions| - 1
    ensures forall i :: 0 <= i < k ==> Dropped(m, k).sessions[i] == m.sessions[i]
  {
  }

  lemma {:induction false} AllLive(m: Model, now: u64)
    requires forall i :: 0 <= i < |m.sessions| ==> !Stale(m.sessions[i], now)
    ensures Cleanup(m, now) == m
    decreases m.sessions
  {
    hide Stale;
    if m.sessions != [] {
      AllLive(m.(sessions := m.sessions[1..]), now);
      assert m.sessions == [m.sessions[0]] + m.sessions[1..];
    }
  }

  // ---------- Reading the pool ----------

  function BlockAt(m: seq<Block>, b: nat): Block { if b < |m| then m[b] else Free(NULL) }

  function FrameAt(m: seq<Block>, b: nat): Frame {
    if BlockAt(m, b).TxItem? then BlockAt(m, b).frame else Frame(0, [], 0)
  }

  function Frames(m: seq<Block>, queue: seq<nat>): seq<Frame> {
    if queue == [] then [] else [FrameAt(m, queue[0])] + Frames(m, queue[1..])
  }

  function DataAt(m: seq<Block>, b: nat): seq<u8> {
    if BlockAt(m, b).Chunk? then BlockAt(m, b).data else []
  }

  /** The bytes of a block chain. */
  function Gather(m: seq<Block>, chain: seq<nat>): seq<u8> {
    if chain == [] then [] else DataAt(m, chain[0]) + Gather(m, chain[1..])
  }

  datatype TransferInfo = TransferInfo(
    timestamp: u64, dataTypeId: nat, transferType: TransferType, transferId: Tid, priority: nat, source: nat)

  function InfoOf(f: Frame, now: u64): TransferInfo {
    TransferInfo(now, DataTypeOf(f.id), TransferTypeOf(f.id), TransferId(Tail(f)), PriorityOf(f.id), SourceOf(f.id))
  }

  /** A delivered transfer: its payload is scattered over head, block chain (from `middle`) and tail. */
  datatype RxTransfer = RxTransfer(info: TransferInfo, head: seq<u8>, middle: int, tail: seq<u8>, payloadLen: u16)

  /** The parts hold the whole payload: a short one in the head alone, a longer one in the head, then the
      chunks, then the tail. */
  predicate WellScattered(t: RxTransfer, chunks: nat) {
    if t.middle == NULL && t.tail == [] then t.payloadLen <= |t.head|
    else
      && |t.head| == HEAD_SIZE && HEAD_SIZE <= t.payloadLen <= HEAD_SIZE + BLOCK_SIZE * chunks + |t.tail|
      && (t.tail != [] ==> t.payloadLen >= HEAD_SIZE + BLOCK_SIZE * chunks)
  }

  function Flat(t: RxTransfer, middle: seq<u8>): seq<u8> { Prefix(t.head + middle + t.tail, t.payloadLen) }

  function SessionOf(rx: RxFields, bytes: seq<u8>, blocks: nat): Session {
    Session(rx.descriptor, rx.timestamp, rx.calculatedCrc, rx.transferId, rx.nextToggle, rx.payloadCrc, rx.iface,
            Prefix(rx.head + bytes, rx.payloadLen), blocks)
  }

  function ChainOf(chains: map<nat, seq<nat>>, r: nat): seq<nat> { if r in chains then chains[r] else [] }

  function SessionAt(m: seq<Block>, chains: map<nat, seq<nat>>, r: nat): Session {
    if BlockAt(m, r).RxState? then
      SessionOf(BlockAt(m, r).rx, Gather(m, ChainOf(chains, r)), |ChainOf(chains, r)|)
    else Fresh(0)
  }

  function Sessions(m: seq<Block>, chains: map<nat, seq<nat>>, states: seq<nat>): seq<Session> {
    if states == [] then [] else [SessionAt(m, chains, states[0])] + Sessions(m, chains, states[1..])
  }

  function ModelOf(nodeId: NodeId, p: Pool): Model {
    Model(nodeId, |p.free|, Frames(p.m, p.queue), Sessions(p.m, p.chains, p.states), |p.held|)
  }

  lemma {:induction false} FramesAt(m: seq<Block>, queue: seq<nat>)
    ensures |Frames(m, queue)| == |queue|
    ensures forall i :: 0 <= i < |queue| ==> Frames(m, queue)[i] == FrameAt(m, queue[i])
    decreases queue
  {
    if queue != [] {
      FramesAt(m, queue[1..]);
    }
  }

  lemma {:induction false} FramesFrame(m: seq<Block>, m': seq<Block>, queue: seq<nat>)
    requires forall b :: b in queue ==> FrameAt(m', b) == FrameAt(m, b)
    ensures Frames(m', queue) == Frames(m, queue)
    decreases queue
  {
    if queue != [] {
      assert queue[0] in queue;
      FramesFrame(m, m', queue[1..]);
    }
  }

  lemma {:induction false} FramesConcat(m: seq<Block>, a: seq<nat>, b: seq<nat>)
    ensures Frames(m, a + b) == Frames(m, a) + Frames(m, b)
    decreases a
  {
    if a == [] {
      assert a + b == b;
    } else {
      assert (a + b)[1..] == a[1..] + b;
      FramesConcat(m, a[1..], b);
    }
  }

  lemma {:induction false} GatherFrame(m: seq<Block>, m': seq<Block>, chain: seq<nat>)
    requires forall b :: b in chain ==> DataAt(m', b) == DataAt(m, b)
    ensures Gather(m', chain) == Gather(m, chain)
    decreases chain
  {
    if chain != [] {
      assert chain[0] in chain;
      GatherFrame(m, m', chain[1..]);
    }
  }

  lemma {:induction false} GatherConcat(m: seq<Block>, a: seq<nat>, b: seq<nat>)
    ensures Gather(m, a + b) == Gather(m, a) + Gather(m, b)
    decreases a
  {
    if a == [] {
      assert a + b == b;
    } else {
      assert (a + b)[1..] == a[1..] + b;
      GatherConcat(m, a[1..], b);
    }
  }

  lemma {:induction false} SessionsAt(m: seq<Block>, chains: map<nat, seq<nat>>, states: seq<nat>)
    ensures |Sessions(m, chains, states)| == |states|
    ensures forall i :: 0 <= i < |states| ==> Sessions(m, chains, states)[i] == SessionAt(m, chains, states[i])
    decreases states
  {
    if states != [] {
      SessionsAt(m, chains, states[1..]);
    }
  }

  lemma {:induction false} SessionsFrame(m: seq<Block>, m': seq<Block>, chains: map<nat, seq<nat>>,
                                         chains': map<nat, seq<nat>>, states: seq<nat>)
    requires forall r :: r in states ==> SessionAt(m', chains', r) == SessionAt(m, chains, r)
    ensures Sessions(m', chains', states) == Sessions(m, chains, states)
    decreases states
  {
    if states != [] {
      assert states[0] in states;
      SessionsFrame(m, m', chains, chains', states[1..]);
    }
  }

  // ---------- What the elementary steps mean ----------

  /** Queued frames, other sessions' fields and other sessions' bytes are as before. */
  ghost predicate Undisturbed(p: Pool, p': Pool, except: int) {
    && |p'.m| == |p.m| == |p.owner|
    && (forall b: nat :: b < |p.m| && p.owner[b] == InQueue ==> p'.m[b].TxItem? && p.m[b].TxItem? && p'.m[b].frame == p.m[b].frame)
    && (forall r: nat :: r < |p.m| && p.owner[r] == InStates && r != except ==>
          p'.m[r].RxState? && p.m[r].RxState? && p'.m[r].rx == p.m[r].rx && ChainOf(p'.chains, r) == ChainOf(p.chains, r))
    && (forall b: nat :: b < |p.m| && p.owner[b].InChain? && p.owner[b].state != except ==>
          p'.m[b].Chunk? && p.m[b].Chunk? && p'.m[b].data == p.m[b].data)
  }

  lemma QueueUndisturbed(p: Pool, p': Pool, except: int)
    requires Wf(p) && Undisturbed(p, p', except)
    ensures Frames(p'.m, p.queue) == Frames(p.m, p.queue)
  {
    hide Linked, Chained;
    forall b | b in p.queue ensures FrameAt(p'.m, b) == FrameAt(p.m, b) {
      LinkedInRange(p.m, p.txQueue, p.queue);
      assert OwnedAt(p, b);
    }
    FramesFrame(p.m, p'.m, p.queue);
  }

  lemma SessionUndisturbed(p: Pool, p': Pool, except: int, r: nat)
    requires Wf(p) && Undisturbed(p, p', except) && r in p.states && r != except
    ensures SessionAt(p'.m, p'.chains, r) == SessionAt(p.m, p.chains, r)
  {
    hide Linked, Chained;
    LinkedInRange(p.m, p.rxStates, p.states);
    assert OwnedAt(p, r);
    var chain := ChainOf(p.chains, r);
    forall b | b in chain ensures DataAt(p'.m, b) == DataAt(p.m, b) {
      ChainOwned(p, r, b);
    }
    GatherFrame(p.m, p'.m, chain);
  }

  lemma ChainOwned(p: Pool, r: nat, b: nat)
    requires Wf(p) && b in ChainOf(p.chains, r)
    ensures b < |p.m| && p.owner[b] == InChain(r)
  {
    LinkedInRange(p.m, p.m[r].buffer, p.chains[r]);
    assert OwnedAt(p, b);
  }

  lemma SessionsUndisturbed(p: Pool, p': Pool)
    requires Wf(p) && Undisturbed(p, p', NULL)
    ensures Sessions(p'.m, p'.chains, p.states) == Sessions(p.m, p.chains, p.states)
  {
    hide Wf, Undisturbed;
    forall r | r in p.states ensures SessionAt(p'.m, p'.chains, r) == SessionAt(p.m, p.chains, r) {
      SessionUndisturbed(p, p', NULL, r);
    }
    SessionsFrame(p.m, p'.m, p.chains, p'.chains, p.states);
  }

  /** Only session k changed. */
  lemma OneSessionDisturbed(p: Pool, p': Pool, k: nat)
    requires Wf(p) && k < |p.states| && Undisturbed(p, p', p.states[k])
    ensures |Sessions(p.m, p.chains, p.states)| == |p.states|
    ensures Sessions(p'.m, p'.chains, p.states) ==
            Sessions(p.m, p.chains, p.states)[k := SessionAt(p'.m, p'.chains, p.states[k])]
  {
    hide Undisturbed, Chained, SessionAt;
    LinkedNoDuplicates(p.m, p.rxStates, p.states);
    SessionsAt(p.m, p.chains, p.states);
    SessionsAt(p'.m, p'.chains, p.states);
    forall i | 0 <= i < |p.states| && i != k
      ensures SessionAt(p'.m, p'.chains, p.states[i]) == SessionAt(p.m, p.chains, p.states[i])
    {
      assert p.states[i] in p.states;
      SessionUndisturbed(p, p', p.states[k], p.states[i]);
    }
  }

  lemma MeansTakeFree(n: NodeId, p: Pool)
    requires Wf(p) && p.free != []
    ensures ModelOf(n, TakeFree(p)) == ModelOf(n, p).(free := |p.free| - 1)
  {
  }

  lemma MeansPutFree(n: NodeId, p: Pool, b: nat)
    requires Wf(p) && b < |p.m| && p.owner[b] == Taken
    ensures ModelOf(n, PutFree(p, b)) == ModelOf(n, p).(free := |p.free| + 1)
  {
    var p' := PutFree(p, b);
    assert Undisturbed(p, p', NULL) by { TakenUndisturbed(p, p', b); }
    hide Wf, Undisturbed;
    QueueUndisturbed(p, p', NULL);
    SessionsUndisturbed(p, p');
  }

  lemma TakenUndisturbed(p: Pool, p': Pool, b: nat)
    requires Wf(p) && b < |p.m| && p.owner[b] == Taken && |p'.m| == |p.m| && p'.chains == p.chains
    requires forall i: nat :: i < |p.m| && i != b ==> p'.m[i] == p.m[i]
    ensures Undisturbed(p, p', NULL)
  {
    hide Linked, Chained, OwnedAt;
  }

  lemma MeansWriteTaken(n: NodeId, p: Pool, b: nat, blk: Block)
    requires Wf(p) && b < |p.m| && p.owner[b] == Taken
    ensures ModelOf(n, WriteTaken(p, b, blk)) == ModelOf(n, p)
  {
    var p' := WriteTaken(p, b, blk);
    TakenUndisturbed(p, p', b);
    hide Wf, Undisturbed;
    QueueUndisturbed(p, p', NULL);
    SessionsUndisturbed(p, p');
  }

  /** Inserting in front of the first frame the new one must leave before is Insert. */
  lemma MeansQueueInsert(n: NodeId, p: Pool, b: nat, k: nat)
    requires Wf(p) && b < |p.m| && k <= |p.queue| && p.owner[b] == Taken && p.m[b].TxItem?
    requires k > 0 ==> p.queue[k - 1] < |p.m|
    requires forall i :: 0 <= i < k ==> !Precedes(p.m[b].frame.id, FrameAt(p.m, p.queue[i]).id)
    requires k < |p.queue| ==> Precedes(p.m[b].frame.id, FrameAt(p.m, p.queue[k]).id)
    ensures ModelOf(n, QueueInsert(p, b, k)) ==
            ModelOf(n, p).(queue := Insert(Frames(p.m, p.queue), p.m[b].frame))
  {
    var p', f, frames := QueueInsert(p, b, k), p.m[b].frame, Frames(p.m, p.queue);
    InsertUndisturbed(p, b, k);
    hide Wf, Undisturbed, Precedes, SessionAt, FrameAt;
    QueueUndisturbed(p, p', NULL);
    SessionsUndisturbed(p, p');
    FramesAt(p.m, p.queue);
    InsertAt(frames, f, k);
    FramesInserted(p'.m, p.queue, b, k);
  }

  lemma FramesInserted(m: seq<Block>, queue: seq<nat>, b: nat, k: nat)
    requires k <= |queue|
    ensures |Frames(m, queue)| == |queue|
    ensures Frames(m, queue[..k] + [b] + queue[k..]) == Frames(m, queue)[..k] + [FrameAt(m, b)] + Frames(m, queue)[k..]
  {
    hide FrameAt;
    FramesAt(m, queue);
    FramesAt(m, queue[..k]);
    assert queue == queue[..k] + queue[k..];
    FramesConcat(m, queue[..k], queue[k..]);
    assert queue[..k] + [b] + queue[k..] == queue[..k] + ([b] + queue[k..]);
    FramesConcat(m, queue[..k], [b] + queue[k..]);
    assert ([b] + queue[k..])[1..] == queue[k..];
    assert Frames(m, [b] + queue[k..]) == [FrameAt(m, b)] + Frames(m, queue[k..]);
  }

  lemma InsertUndisturbed(p: Pool, b: nat, k: nat)
    requires Wf(p) && b < |p.m| && k <= |p.queue| && p.owner[b] == Taken && p.m[b].TxItem?
    requires k > 0 ==> p.queue[k - 1] < |p.m|
    ensures Undisturbed(p, QueueInsert(p, b, k), NULL)
    ensures FrameAt(QueueInsert(p, b, k).m, b) == p.m[b].frame
  {
    hide Linked, Chained;
    if k > 0 {
      assert p.queue[k - 1] in p.queue;
      assert OwnedAt(p, p.queue[k - 1]);
    }
  }

  lemma MeansQueuePop(n: NodeId, p: Pool)
    requires Wf(p) && p.queue != []
    ensures ModelOf(n, QueuePop(p)) == ModelOf(n, p).(queue := ModelOf(n, p).queue[1..])
    ensures ModelOf(n, p).queue != [] && ModelOf(n, p).queue[0] == FrameAt(p.m, p.queue[0])
  {
  }

  lemma MeansStatePrepend(n: NodeId, p: Pool, b: nat)
    requires Wf(p) && b < |p.m| && p.owner[b] == Taken && p.m[b].RxState?
    ensures ModelOf(n, StatePrepend(p, b)) ==
            ModelOf(n, p).(sessions := [SessionOf(p.m[b].rx, [], 0)] + ModelOf(n, p).sessions)
  {
    var p' := StatePrepend(p, b);
    TakenUndisturbed(p, p'.(chains := p.chains), b);
    hide Undisturbed, Linked, Chained, Fits;
    QueueUndisturbed(p, p'.(chains := p.chains), NULL);
    SessionsUndisturbed(p, p'.(chains := p.chains));
    forall r | r in p.states ensures SessionAt(p'.m, p'.chains, r) == SessionAt(p'.m, p.chains, r) {
      LinkedInRange(p.m, p.rxStates, p.states);
      assert OwnedAt(p, r);
    }
    SessionsFrame(p'.m, p'.m, p.chains, p'.chains, p.states);
    assert p'.states[1..] == p.states;
  }

  lemma {:induction false} SessionsConcat(m: seq<Block>, chains: map<nat, seq<nat>>, a: seq<nat>, b: seq<nat>)
    ensures Sessions(m, chains, a + b) == Sessions(m, chains, a) + Sessions(m, chains, b)
    decreases a
  {
    hide SessionAt;
    if a == [] {
      assert a + b == b;
    } else {
      assert (a + b)[1..] == a[1..] + b;
      SessionsConcat(m, chains, a[1..], b);
    }
  }

  lemma MeansStateRemove(n: NodeId, p: Pool, k: nat)
    requires Wf(p) && k < |p.states| && p.states[k] < |p.m|
    requires k > 0 ==> p.states[k - 1] < |p.m|
    ensures |ModelOf(n, p).sessions| == |p.states|
    ensures ModelOf(n, StateRemove(p, k)) ==
            ModelOf(n, p).(sessions := ModelOf(n, p).sessions[..k] + ModelOf(n, p).sessions[k + 1..])
  {
    var p', b := StateRemove(p, k), p.states[k];
    var a, c := p.states[..k], p.states[k + 1..];
    RemoveUndisturbed(p, k);
    LinkedNoDuplicates(p.m, p.rxStates, p.states);
    SessionsAt(p.m, p.chains, p.states);
    hide Undisturbed, Linked, Chained, Fits, OwnedAt, SessionAt;
    QueueUndisturbed(p, p', b);
    forall r | r in a + c ensures SessionAt(p'.m, p'.chains, r) == SessionAt(p.m, p.chains, r) {
      RemoveMembership(p.states, k, r);
      SessionUndisturbed(p, p', b, r);
    }
    SessionsFrame(p.m, p'.m, p.chains, p'.chains, a + c);
    SessionsRemoved(p.m, p.chains, p.states, k);
  }

  lemma SessionsRemoved(m: seq<Block>, chains: map<nat, seq<nat>>, states: seq<nat>, k: nat)
    requires k < |states|
    ensures |Sessions(m, chains, states)| == |states|
    ensures Sessions(m, chains, states[..k] + states[k + 1..]) ==
            Sessions(m, chains, states)[..k] + Sessions(m, chains, states)[k + 1..]
  {
    hide SessionAt, Sessions;
    var a, x, c := states[..k], states[k], states[k + 1..];
    SessionsAt(m, chains, states);
    SessionsAt(m, chains, a);
    assert states == a + ([x] + c);
    SessionsCons(m, chains, x, c);
    SessionsConcat(m, chains, a, [x] + c);
    SessionsConcat(m, chains, a, c);
    CutOut(Sessions(m, chains, a), SessionAt(m, chains, x), Sessions(m, chains, c));
  }

  lemma SessionsCons(m: seq<Block>, chains: map<nat, seq<nat>>, x: nat, c: seq<nat>)
    ensures Sessions(m, chains, [x] + c) == [SessionAt(m, chains, x)] + Sessions(m, chains, c)
  {
    hide SessionAt;
    assert ([x] + c)[1..] == c;
  }

  lemma CutOut(a: seq<Session>, x: Session, c: seq<Session>)
    ensures (a + ([x] + c))[..|a|] == a && (a + ([x] + c))[|a| + 1..] == c
  {
  }

  lemma RemoveUndisturbed(p: Pool, k: nat)
    requires Wf(p) && k < |p.states| && p.states[k] < |p.m|
    requires k > 0 ==> p.states[k - 1] < |p.m|
    ensures Undisturbed(p, StateRemove(p, k), p.states[k])
  {
    hide Linked, Chained;
    if k > 0 {
      assert p.states[k - 1] in p.states;
      assert OwnedAt(p, p.states[k - 1]);
    }
  }

  /** A step that touches only session k. */
  lemma MeansOneSession(n: NodeId, p: Pool, p': Pool, k: nat)
    requires Wf(p) && k < |p.states| && Undisturbed(p, p', p.states[k])
    requires p'.states == p.states && p'.queue == p.queue
    ensures |ModelOf(n, p).sessions| == |p.states|
    ensures ModelOf(n, p') == WithSession(ModelOf(n, p), k, SessionAt(p'.m, p'.chains, p.states[k])).(
                                free := |p'.free|, held := |p'.held|)
  {
    hide Wf, Undisturbed, SessionAt;
    QueueUndisturbed(p, p', p.states[k]);
    OneSessionDisturbed(p, p', k);
  }

  lemma MeansWriteState(n: NodeId, p: Pool, k: nat, rx: RxFields)
    requires Wf(p) && k < |p.states| && p.states[k] < |p.m| && p.m[p.states[k]].RxState?
    ensures |ModelOf(n, p).sessions| == |p.states|
    ensures var chain := ChainOf(p.chains, p.states[k]);
      ModelOf(n, WriteState(p, p.states[k], rx)) ==
      WithSession(ModelOf(n, p), k, SessionOf(rx, Gather(p.m, chain), |chain|))
  {
    var r, p' := p.states[k], WriteState(p, p.states[k], rx);
    assert r in p.states;
    assert OwnedAt(p, r);
    assert Undisturbed(p, p', r) by { hide Linked, Chained; }
    hide Undisturbed, SessionOf, Chained, Linked, OwnedAt;
    MeansOneSession(n, p, p', k);
    forall b | b in ChainOf(p.chains, r) ensures DataAt(p'.m, b) == DataAt(p.m, b) {
      ChainOwned(p, r, b);
    }
    GatherFrame(p.m, p'.m, ChainOf(p.chains, r));
  }

  lemma MeansChainAppend(n: NodeId, p: Pool, k: nat, b: nat)
    requires Wf(p) && k < |p.states| && b < |p.m| && p.owner[b] == Taken && p.m[b].Chunk?
    requires p.states[k] in p.chains && p.states[k] < |p.m| && p.m[p.states[k]].RxState?
    requires p.chains[p.states[k]] != [] ==> p.chains[p.states[k]][|p.chains[p.states[k]]| - 1] < |p.m|
    ensures |ModelOf(n, p).sessions| == |p.states|
    ensures var chain := p.chains[p.states[k]];
      ModelOf(n, ChainAppend(p, p.states[k], b)) ==
      WithSession(ModelOf(n, p), k, SessionOf(p.m[p.states[k]].rx, Gather(p.m, chain) + DataAt(p.m, b), |chain| + 1))
  {
    hide SessionOf, Linked, Fits, Gather, Chained;
    var r, p' := p.states[k], ChainAppend(p, p.states[k], b);
    AppendUndisturbed(p, r, b);
    MeansOneSession(n, p, p', k);
    AppendGathers(p, r, b);
  }

  lemma AppendGathers(p: Pool, r: nat, b: nat)
    requires Wf(p) && r in p.chains && r < |p.m| && p.m[r].RxState? && b < |p.m| && p.owner[b] == Taken && p.m[b].Chunk?
    requires p.chains[r] != [] ==> p.chains[r][|p.chains[r]| - 1] < |p.m|
    ensures Gather(ChainAppend(p, r, b).m, p.chains[r] + [b]) == Gather(p.m, p.chains[r]) + DataAt(p.m, b)
  {
    var p', chain := ChainAppend(p, r, b), p.chains[r];
    AppendUndisturbed(p, r, b);
    hide Undisturbed, Linked, Chained, Fits, OwnedAt;
    forall c | c in chain ensures DataAt(p'.m, c) == DataAt(p.m, c) {
      ChainOwned(p, r, c);
    }
    GatherFrame(p.m, p'.m, chain);
    GatherConcat(p'.m, chain, [b]);
    assert [b][1..] == [] && Gather(p'.m, [b]) == DataAt(p'.m, b);
  }

  lemma AppendUndisturbed(p: Pool, r: nat, b: nat)
    requires Wf(p) && r in p.chains && r < |p.m| && p.m[r].RxState? && b < |p.m| && p.owner[b] == Taken && p.m[b].Chunk?
    requires p.chains[r] != [] ==> p.chains[r][|p.chains[r]| - 1] < |p.m|
    ensures var p' := ChainAppend(p, r, b);
      Undisturbed(p, p', r) && p'.m[r].RxState? && p'.m[r].rx == p.m[r].rx && p'.m[b] == p.m[b]
    ensures forall c :: c in p.chains[r] && c < |p.m| ==> DataAt(ChainAppend(p, r, b).m, c) == DataAt(p.m, c)
  {
    hide Linked;
    assert OwnedAt(p, r) && OwnedAt(p, b);
    if p.chains[r] != [] {
      var last := p.chains[r][|p.chains[r]| - 1];
      assert last in p.chains[r];
      assert OwnedAt(p, last);
    }
  }

  lemma MeansChainPop(n: NodeId, p: Pool, k: nat)
    requires Wf(p) && k < |p.states|
    requires p.states[k] in p.chains && p.states[k] < |p.m| && p.m[p.states[k]].RxState?
    requires p.chains[p.states[k]] != [] && p.chains[p.states[k]][0] < |p.m|
    ensures |ModelOf(n, p).sessions| == |p.states|
    ensures var chain := p.chains[p.states[k]];
      ModelOf(n, ChainPop(p, p.states[k])) ==
      WithSession(ModelOf(n, p), k, SessionOf(p.m[p.states[k]].rx, Gather(p.m, chain[1..]), |chain| - 1))
  {
    hide SessionOf, Linked, Fits, Gather, Chained;
    var r, p' := p.states[k], ChainPop(p, p.states[k]);
    PopUndisturbed(p, r);
    MeansOneSession(n, p, p', k);
    PopGathers(p, r);
  }

  lemma PopUndisturbed(p: Pool, r: nat)
    requires Wf(p) && r in p.chains && r < |p.m| && p.m[r].RxState? && p.chains[r] != [] && p.chains[r][0] < |p.m|
    ensures Undisturbed(p, ChainPop(p, r), r)
  {
    hide Linked;
    assert OwnedAt(p, r);
  }

  lemma PopGathers(p: Pool, r: nat)
    requires Wf(p) && r in p.chains && r < |p.m| && p.m[r].RxState? && p.chains[r] != [] && p.chains[r][0] < |p.m|
    ensures Gather(ChainPop(p, r).m, p.chains[r][1..]) == Gather(p.m, p.chains[r][1..])
  {
    hide Linked;
    assert OwnedAt(p, r);
    var p', chain := ChainPop(p, r), p.chains[r];
    forall c | c in chain[1..] ensures DataAt(p'.m, c) == DataAt(p.m, c) {
      assert c in chain;
      ChainOwned(p, r, c);
    }
    GatherFrame(p.m, p'.m, chain[1..]);
  }

  lemma MeansWriteChunk(n: NodeId, p: Pool, k: nat, b: nat, data: seq<u8>)
    requires Wf(p) && k < |p.states| && b < |p.m| && p.m[b].Chunk? && p.owner[b] == InChain(p.states[k])
    ensures |ModelOf(n, p).sessions| == |p.states|
    ensures ModelOf(n, WriteChunk(p, b, data)) ==
            WithSession(ModelOf(n, p), k, SessionAt(WriteChunk(p, b, data).m, p.chains, p.states[k]))
  {
    assert Undisturbed(p, WriteChunk(p, b, data), p.states[k]) by { hide Linked, Chained; }
    hide Wf, Undisturbed, SessionAt;
    MeansOneSession(n, p, WriteChunk(p, b, data), k);
  }

  lemma MeansChainToHeld(n: NodeId, p: Pool, k: nat)
    requires Wf(p) && k < |p.states| && p.held == []
    requires p.states[k] in p.chains && p.states[k] < |p.m| && p.m[p.states[k]].RxState?
    ensures |ModelOf(n, p).sessions| == |p.states|
    ensures ModelOf(n, ChainToHeld(p, p.states[k])) ==
            WithSession(ModelOf(n, p), k, SessionOf(p.m[p.states[k]].rx, [], 0)).(held := |p.chains[p.states[k]]|)
  {
    var r, p' := p.states[k], ChainToHeld(p, p.states[k]);
    assert r in p.states;
    assert OwnedAt(p, r);
    assert Undisturbed(p, p', r) by { hide Linked; }
    hide Undisturbed, SessionOf, Linked;
    MeansOneSession(n, p, p', k);
    assert Gather(p'.m, []) == [];
  }

  lemma MeansHeldPop(n: NodeId, p: Pool)
    requires Wf(p) && p.held != []
    ensures ModelOf(n, HeldPop(p)) == ModelOf(n, p).(held := |p.held| - 1)
  {
  }
}
