/** The block pool of a Canard instance as a value: which block belongs to which list, and the
    elementary steps by which blocks move between them. Every step keeps the pool well formed, so
    the lists stay disjoint, acyclic and together hold every block of the arena. */
module CanardPool {
  import opened Bits
  import opened CanardFrame
  import opened CanardLists

  /** The one list a block belongs to; Taken blocks are in the hands of a running operation. */
  datatype Owner = InFree | InQueue | InStates | InChain(state: nat) | InCallback | Taken

  datatype Pool = Pool(
    m: seq<Block>, freeList: int, txQueue: int, rxStates: int, heldHead: int,
    free: seq<nat>, queue: seq<nat>, states: seq<nat>, chains: map<nat, seq<nat>>, held: seq<nat>,
    owner: seq<Owner>)

  ghost predicate Chained(p: Pool) {
    && (forall r :: r in p.chains <==> r in p.states)
    && (forall r :: r in p.chains ==> r < |p.m| && p.m[r].RxState? && Linked(p.m, p.m[r].buffer, p.chains[r]))
  }

  ghost predicate OwnedAt(p: Pool, b: nat)
    requires b < |p.m| == |p.owner|
  {
    && (b in p.free <==> p.owner[b] == InFree)
    && (b in p.queue <==> p.owner[b] == InQueue)
    && (b in p.states <==> p.owner[b] == InStates)
    && (b in p.held <==> p.owner[b] == InCallback)
    && (forall r :: r in p.chains ==> (b in p.chains[r] <==> p.owner[b] == InChain(r)))
    && (p.owner[b].InChain? ==> p.owner[b].state in p.chains)
  }

  predicate Fits(o: Owner, b: Block) {
    match o
    case InFree => true
    case InQueue => b.TxItem?
    case InStates => b.RxState? && |b.rx.head| == HEAD_SIZE
    case InChain(_) => b.Chunk? && |b.data| == BLOCK_SIZE
    case InCallback => b.Chunk? && |b.data| == BLOCK_SIZE
    case Taken => true
  }

  ghost predicate Wf(p: Pool) {
    && |p.owner| == |p.m|
    && Linked(p.m, p.freeList, p.free) && Linked(p.m, p.txQueue, p.queue)
    && Linked(p.m, p.rxStates, p.states) && Linked(p.m, p.heldHead, p.held)
    && Chained(p)
    && (forall b: nat :: b < |p.m| ==> OwnedAt(p, b))
    && (forall b: nat :: b < |p.m| ==> Fits(p.owner[b], p.m[b]))
  }

  /** Lists whose blocks keep their links are still lists after a write. */
  lemma ListsFrame(p: Pool, m': seq<Block>, changed: set<nat>)
    requires Wf(p) && |m'| == |p.m|
    requires forall b :: 0 <= b < |p.m| && b !in changed ==> m'[b].next == p.m[b].next
    ensures (forall b :: b in p.free ==> b !in changed) ==> Linked(m', p.freeList, p.free)
    ensures (forall b :: b in p.queue ==> b !in changed) ==> Linked(m', p.txQueue, p.queue)
    ensures (forall b :: b in p.states ==> b !in changed) ==> Linked(m', p.rxStates, p.states)
    ensures (forall b :: b in p.held ==> b !in changed) ==> Linked(m', p.heldHead, p.held)
    ensures forall r :: r in p.chains && (forall b :: b in p.chains[r] ==> b !in changed) ==>
      Linked(m', p.m[r].buffer, p.chains[r])
  {
    if forall b :: b in p.free ==> b !in changed { SegmentFrame(p.m, m', p.freeList, p.free, NULL); }
    if forall b :: b in p.queue ==> b !in changed { SegmentFrame(p.m, m', p.txQueue, p.queue, NULL); }
    if forall b :: b in p.states ==> b !in changed { SegmentFrame(p.m, m', p.rxStates, p.states, NULL); }
    if forall b :: b in p.held ==> b !in changed { SegmentFrame(p.m, m', p.heldHead, p.held, NULL); }
    forall r | r in p.chains && (forall b :: b in p.chains[r] ==> b !in changed)
      ensures Linked(m', p.m[r].buffer, p.chains[r])
    {
      SegmentFrame(p.m, m', p.m[r].buffer, p.chains[r], NULL);
    }
  }

  lemma InsertMembership(list: seq<nat>, k: nat, b: nat, i: nat)
    requires k <= |list|
    ensures i in list[..k] + [b] + list[k..] <==> i in list || i == b
  {
    assert list == list[..k] + list[k..];
  }

  lemma RemoveMembership(list: seq<nat>, k: nat, i: nat)
    requires k < |list| && NoDuplicates(list)
    ensures i in list[..k] + list[k + 1..] <==> i in list && i != list[k]
  {
    if i in list && i != list[k] {
      var j :| 0 <= j < |list| && list[j] == i;
      assert j < k ==> list[..k][j] == i;
      assert j > k ==> list[k + 1..][j - k - 1] == i;
    }
  }

  // ---------- Taking a block from the free list and giving it back ----------

  ghost function TakeFree(p: Pool): Pool
    requires Wf(p) && p.free != []
  {
    var b := p.free[0];
    p.(freeList := p.m[b].next, free := p.free[1..], owner := p.owner[b := Taken])
  }

  lemma TakeFreeWf(p: Pool)
    requires Wf(p) && p.free != []
    ensures Wf(TakeFree(p))
  {
    LinkedNoDuplicates(p.m, p.freeList, p.free);
    var b, p' := p.free[0], TakeFree(p);
    assert p.free == [b] + p.free[1..];
    forall i: nat | i < |p.m| ensures OwnedAt(p', i) {
      assert OwnedAt(p, i) && OwnedAt(p, b);
    }
  }

  ghost function PutFree(p: Pool, b: nat): Pool
    requires Wf(p) && b < |p.m|
  {
    p.(m := p.m[b := Free(p.freeList)], freeList := b, free := [b] + p.free, owner := p.owner[b := InFree])
  }

  lemma PutFreeWf(p: Pool, b: nat)
    requires Wf(p) && b < |p.m| && p.owner[b] == Taken
    ensures Wf(PutFree(p, b))
  {
    var p' := PutFree(p, b);
    assert OwnedAt(p, b);
    ListsFrame(p, p'.m, {b});
    assert p'.free[1..] == p.free;
    forall i: nat | i < |p.m| ensures OwnedAt(p', i) {
      assert OwnedAt(p, i);
    }
  }

  /** Writing a block that no list holds. */
  ghost function WriteTaken(p: Pool, b: nat, blk: Block): Pool
    requires Wf(p) && b < |p.m|
  {
    p.(m := p.m[b := blk])
  }

  lemma WriteTakenWf(p: Pool, b: nat, blk: Block)
    requires Wf(p) && b < |p.m| && p.owner[b] == Taken
    ensures Wf(WriteTaken(p, b, blk))
  {
    var p' := WriteTaken(p, b, blk);
    assert OwnedAt(p, b);
    ListsFrame(p, p'.m, {b});
    forall i: nat | i < |p.m| ensures OwnedAt(p', i) {
      assert OwnedAt(p, i);
    }
  }

  // ---------- The transmit queue ----------

  /** Linking a taken block in front of position k of the transmit queue. */
  ghost function QueueInsert(p: Pool, b: nat, k: nat): Pool
    requires Wf(p) && b < |p.m| && k <= |p.queue|
    requires k > 0 ==> p.queue[k - 1] < |p.m|
  {
    var m1 := p.m[b := SetNext(p.m[b], First(p.queue[k..], NULL))];
    var m2 := if k == 0 then m1 else m1[p.queue[k - 1] := SetNext(m1[p.queue[k - 1]], b)];
    p.(m := m2, txQueue := if k == 0 then b else p.txQueue,
       queue := p.queue[..k] + [b] + p.queue[k..], owner := p.owner[b := InQueue])
  }

  lemma QueueInsertLinks(p: Pool, b: nat, k: nat)
    requires Wf(p) && b < |p.m| && k <= |p.queue| && p.owner[b] == Taken && p.m[b].TxItem?
    requires k > 0 ==> p.queue[k - 1] < |p.m|
    ensures var p' := QueueInsert(p, b, k);
      Linked(p'.m, p'.freeList, p'.free) && Linked(p'.m, p'.txQueue, p'.queue) &&
      Linked(p'.m, p'.rxStates, p'.states) && Linked(p'.m, p'.heldHead, p'.held) && Chained(p')
  {
    hide Fits, NoDuplicates, Linked;
    var p' := QueueInsert(p, b, k);
    assert OwnedAt(p, b);
    assert p.queue == p.queue[..k] + p.queue[k..];
    if k == 0 {
      ListsFrame(p, p'.m, {b});
      LinkedHead(p.m, p.txQueue, p.queue);
      LinkedPush(p'.m, b, p.queue);
      assert p'.queue == [b] + p.queue && p.queue[0..] == p.queue;
    } else {
      assert p.queue[k - 1] in p.queue;
      assert OwnedAt(p, p.queue[k - 1]);
      ListsFrame(p, p'.m, {b, p.queue[k - 1]});
      LinkedInsert(p.m, p'.m, p.txQueue, p.queue[..k], b, p.queue[k..]);
    }
    QueueInsertChains(p, b, k);
  }

  lemma QueueInsertChains(p: Pool, b: nat, k: nat)
    requires Wf(p) && b < |p.m| && k <= |p.queue| && p.owner[b] == Taken && p.m[b].TxItem?
    requires k > 0 ==> p.queue[k - 1] < |p.m|
    ensures Chained(QueueInsert(p, b, k))
  {
    hide Fits, NoDuplicates, Linked;
    var p' := QueueInsert(p, b, k);
    var changed := if k == 0 then {b} else {b, p.queue[k - 1]};
    if k > 0 { assert p.queue[k - 1] in p.queue; }
    ListsFrame(p, p'.m, changed);
    forall r | r in p.chains ensures p'.m[r] == p.m[r] && Linked(p'.m, p'.m[r].buffer, p'.chains[r]) {
      LinkedInRange(p.m, p.m[r].buffer, p.chains[r]);
      assert OwnedAt(p, r);
      forall e | e in p.chains[r] ensures e !in changed {
        assert OwnedAt(p, e);
      }
    }
  }

  lemma QueueInsertWf(p: Pool, b: nat, k: nat)
    requires Wf(p) && b < |p.m| && k <= |p.queue| && p.owner[b] == Taken && p.m[b].TxItem?
    requires k > 0 ==> p.queue[k - 1] < |p.m|
    ensures Wf(QueueInsert(p, b, k))
  {
    hide Linked;
    var p' := QueueInsert(p, b, k);
    QueueInsertLinks(p, b, k);
    forall i: nat | i < |p.m| ensures OwnedAt(p', i) {
      assert OwnedAt(p, i);
      InsertMembership(p.queue, k, b, i);
    }
  }

  /** Unlinking the head of the transmit queue. */
  ghost function QueuePop(p: Pool): Pool
    requires Wf(p) && p.queue != []
  {
    var b := p.queue[0];
    p.(txQueue := p.m[b].next, queue := p.queue[1..], owner := p.owner[b := Taken])
  }

  lemma QueuePopWf(p: Pool)
    requires Wf(p) && p.queue != []
    ensures Wf(QueuePop(p))
  {
    LinkedNoDuplicates(p.m, p.txQueue, p.queue);
    var b, p' := p.queue[0], QueuePop(p);
    assert p.queue == [b] + p.queue[1..];
    forall i: nat | i < |p.m| ensures OwnedAt(p', i) {
      assert OwnedAt(p, i) && OwnedAt(p, b);
    }
  }

  // ---------- Reception sessions ----------

  /** Putting a taken block, already written as an empty session, at the front of the sessions. */
  ghost function StatePrepend(p: Pool, b: nat): Pool
    requires Wf(p) && b < |p.m|
  {
    p.(m := p.m[b := SetNext(p.m[b], p.rxStates)], rxStates := b, states := [b] + p.states,
       chains := p.chains[b := []], owner := p.owner[b := InStates])
  }

  lemma StatePrependWf(p: Pool, b: nat)
    requires Wf(p) && b < |p.m| && p.owner[b] == Taken
    requires p.m[b].RxState? && p.m[b].buffer == NULL && |p.m[b].rx.head| == HEAD_SIZE
    ensures Wf(StatePrepend(p, b))
  {
    hide NoDuplicates, Linked;
    var p' := StatePrepend(p, b);
    assert OwnedAt(p, b);
    ListsFrame(p, p'.m, {b});
    LinkedPush(p'.m, b, p.states);
    LinkedNone(p'.m);
    PrependOwned(p, b);
  }

  lemma PrependOwned(p: Pool, b: nat)
    requires Wf(p) && b < |p.m| && p.owner[b] == Taken
    ensures forall i: nat :: i < |p.m| ==> OwnedAt(StatePrepend(p, b), i)
  {
    hide Linked, Fits;
    forall i: nat | i < |p.m| ensures OwnedAt(StatePrepend(p, b), i) {
      assert OwnedAt(p, i) && OwnedAt(p, b);
    }
  }

  /** Unlinking the session at position k, whose chain is already released. */
  ghost function StateRemove(p: Pool, k: nat): Pool
    requires Wf(p) && k < |p.states| && p.states[k] < |p.m|
    requires k > 0 ==> p.states[k - 1] < |p.m|
  {
    var b := p.states[k];
    p.(m := if k == 0 then p.m else p.m[p.states[k - 1] := SetNext(p.m[p.states[k - 1]], p.m[b].next)],
       rxStates := if k == 0 then p.m[b].next else p.rxStates,
       states := p.states[..k] + p.states[k + 1..], chains := p.chains - {b}, owner := p.owner[b := Taken])
  }

  lemma StateRemoveLinks(p: Pool, k: nat)
    requires Wf(p) && k < |p.states| && p.states[k] < |p.m|
    requires k > 0 ==> p.states[k - 1] < |p.m|
    requires p.states[k] in p.chains && p.chains[p.states[k]] == []
    ensures NoDuplicates(p.states)
    ensures var p' := StateRemove(p, k);
      Linked(p'.m, p'.freeList, p'.free) && Linked(p'.m, p'.txQueue, p'.queue) &&
      Linked(p'.m, p'.rxStates, p'.states) && Linked(p'.m, p'.heldHead, p'.held)
  {
    hide Fits, NoDuplicates, Chained;
    var b, p' := p.states[k], StateRemove(p, k);
    var a, c := p.states[..k], p.states[k + 1..];
    LinkedNoDuplicates(p.m, p.rxStates, p.states);
    if k == 0 {
      assert p'.states == p.states[1..];
    } else {
      assert p.states == a + [b] + c;
      assert p.states[k - 1] in p.states;
      assert OwnedAt(p, p.states[k - 1]);
      ListsFrame(p, p'.m, {p.states[k - 1]});
      LinkedRemove(p.m, p'.m, p.rxStates, a, b, c);
    }
  }

  lemma StateRemoveChains(p: Pool, k: nat)
    requires Wf(p) && k < |p.states| && p.states[k] < |p.m| && NoDuplicates(p.states)
    requires k > 0 ==> p.states[k - 1] < |p.m|
    requires p.states[k] in p.chains && p.chains[p.states[k]] == []
    ensures Chained(StateRemove(p, k))
  {
    hide Fits, NoDuplicates, Linked;
    var p' := StateRemove(p, k);
    if k > 0 {
      assert p.states[k - 1] in p.states;
      assert OwnedAt(p, p.states[k - 1]);
      ListsFrame(p, p'.m, {p.states[k - 1]});
    } else {
      ListsFrame(p, p'.m, {});
    }
    forall r ensures r in p'.states <==> r in p.states && r != p.states[k] {
      RemoveMembership(p.states, k, r);
    }
    forall r | r in p'.chains ensures Linked(p'.m, p'.m[r].buffer, p'.chains[r]) {
      LinkedInRange(p.m, p.m[r].buffer, p.chains[r]);
      forall e | e in p.chains[r] ensures k == 0 || e != p.states[k - 1] {
        assert OwnedAt(p, e);
      }
    }
  }

  lemma StateRemoveWf(p: Pool, k: nat)
    requires Wf(p) && k < |p.states| && p.states[k] < |p.m|
    requires k > 0 ==> p.states[k - 1] < |p.m|
    requires p.states[k] in p.chains && p.chains[p.states[k]] == []
    ensures Wf(StateRemove(p, k))
  {
    hide Linked, NoDuplicates, Chained;
    var b, p' := p.states[k], StateRemove(p, k);
    StateRemoveLinks(p, k);
    StateRemoveChains(p, k);
    forall i: nat | i < |p.m| ensures OwnedAt(p', i) {
      assert OwnedAt(p, i) && OwnedAt(p, b);
      RemoveMembership(p.states, k, i);
    }
  }

  /** Rewriting the scalar fields of a session. */
  ghost function WriteState(p: Pool, r: nat, rx: RxFields): Pool
    requires Wf(p) && r < |p.m| && p.m[r].RxState?
  {
    p.(m := p.m[r := p.m[r].(rx := rx)])
  }

  lemma WriteStateWf(p: Pool, r: nat, rx: RxFields)
    requires Wf(p) && r in p.chains && r < |p.m| && p.m[r].RxState? && |rx.head| == HEAD_SIZE
    ensures Wf(WriteState(p, r, rx))
  {
    var p' := WriteState(p, r, rx);
    assert OwnedAt(p, r);
    ListsFrame(p, p'.m, {});
    forall i: nat | i < |p.m| ensures OwnedAt(p', i) {
      assert OwnedAt(p, i);
    }
  }

  // ---------- Block chains ----------

  /** Appending a taken chunk to the chain of session r. */
  ghost function ChainAppend(p: Pool, r: nat, b: nat): Pool
    requires Wf(p) && r in p.chains && r < |p.m| && p.m[r].RxState? && b < |p.m|
    requires p.chains[r] != [] ==> p.chains[r][|p.chains[r]| - 1] < |p.m|
  {
    var chain := p.chains[r];
    p.(m := if chain == [] then p.m[r := p.m[r].(buffer := b)]
            else var last := chain[|chain| - 1]; p.m[last := SetNext(p.m[last], b)],
       chains := p.chains[r := chain + [b]], owner := p.owner[b := InChain(r)])
  }

  lemma ChainAppendLinks(p: Pool, r: nat, b: nat)
    requires Wf(p) && r in p.chains && r < |p.m| && p.m[r].RxState? && b < |p.m|
    requires p.chains[r] != [] ==> p.chains[r][|p.chains[r]| - 1] < |p.m|
    requires p.owner[b] == Taken && p.m[b].Chunk? && p.m[b].next == NULL
    ensures var p' := ChainAppend(p, r, b);
      Linked(p'.m, p'.freeList, p'.free) && Linked(p'.m, p'.txQueue, p'.queue) &&
      Linked(p'.m, p'.rxStates, p'.states) && Linked(p'.m, p'.heldHead, p'.held) &&
      Linked(p'.m, p'.m[r].buffer, p'.chains[r])
    ensures forall q :: q in p.chains && q != r ==>
      Linked(ChainAppend(p, r, b).m, p.m[q].buffer, p.chains[q])
  {
    hide Fits, NoDuplicates, Linked;
    var p', chain := ChainAppend(p, r, b), p.chains[r];
    assert OwnedAt(p, r) && OwnedAt(p, b);
    if chain == [] {
      ListsFrame(p, p'.m, {});
      LinkedOne(p'.m, b);
      assert chain + [b] == [b];
    } else {
      var last := chain[|chain| - 1];
      assert last in chain;
      assert OwnedAt(p, last);
      ListsFrame(p, p'.m, {last});
      assert chain + [] == chain && chain + [b] + [] == chain + [b];
      LinkedInsert(p.m, p'.m, p.m[r].buffer, chain, b, []);
    }
    forall q | q in p.chains && q != r ensures Linked(p'.m, p.m[q].buffer, p.chains[q]) {
      LinkedInRange(p.m, p.m[q].buffer, p.chains[q]);
      forall e | e in p.chains[q] ensures chain == [] || e != chain[|chain| - 1] {
        assert OwnedAt(p, e);
      }
    }
  }

  lemma ChainAppendWf(p: Pool, r: nat, b: nat)
    requires Wf(p) && r in p.chains && r < |p.m| && p.m[r].RxState? && b < |p.m|
    requires p.chains[r] != [] ==> p.chains[r][|p.chains[r]| - 1] < |p.m|
    requires p.owner[b] == Taken && p.m[b].Chunk? && |p.m[b].data| == BLOCK_SIZE && p.m[b].next == NULL
    ensures Wf(ChainAppend(p, r, b))
  {
    hide Linked;
    var p', chain := ChainAppend(p, r, b), p.chains[r];
    ChainAppendLinks(p, r, b);
    assert OwnedAt(p, r) && OwnedAt(p, b);
    if chain != [] {
      assert chain[|chain| - 1] in chain;
      assert OwnedAt(p, chain[|chain| - 1]);
    }
    forall q | q in p'.chains ensures p'.m[q].RxState? && (q != r ==> p'.m[q].buffer == p.m[q].buffer) {
      assert OwnedAt(p, q);
    }
    forall i: nat | i < |p.m| ensures OwnedAt(p', i) {
      assert OwnedAt(p, i);
    }
  }

  /** Unlinking the first chunk of session r. */
  ghost function ChainPop(p: Pool, r: nat): Pool
    requires Wf(p) && r in p.chains && p.chains[r] != [] && r < |p.m| && p.m[r].RxState? && p.chains[r][0] < |p.m|
  {
    var b := p.chains[r][0];
    p.(m := p.m[r := p.m[r].(buffer := p.m[b].next)], chains := p.chains[r := p.chains[r][1..]],
       owner := p.owner[b := Taken])
  }

  lemma ChainPopOwned(p: Pool, r: nat)
    requires Wf(p) && r in p.chains && p.chains[r] != [] && r < |p.m| && p.m[r].RxState? && p.chains[r][0] < |p.m|
    requires NoDuplicates(p.chains[r])
    ensures forall i: nat :: i < |p.m| ==> OwnedAt(ChainPop(p, r), i)
  {
    hide Linked, Fits;
    var chain := p.chains[r];
    assert chain == [chain[0]] + chain[1..];
    forall i: nat | i < |p.m| ensures OwnedAt(ChainPop(p, r), i) {
      assert OwnedAt(p, i) && OwnedAt(p, chain[0]);
    }
  }

  lemma ChainPopLinks(p: Pool, r: nat)
    requires Wf(p) && r in p.chains && p.chains[r] != [] && r < |p.m| && p.m[r].RxState? && p.chains[r][0] < |p.m|
    ensures var p' := ChainPop(p, r);
      Linked(p'.m, p'.freeList, p'.free) && Linked(p'.m, p'.txQueue, p'.queue) &&
      Linked(p'.m, p'.rxStates, p'.states) && Linked(p'.m, p'.heldHead, p'.held) && Chained(p')
  {
    hide OwnedAt, Fits;
    var chain, b, p' := p.chains[r], p.chains[r][0], ChainPop(p, r);
    ListsFrame(p, p'.m, {});
    SegmentFrame(p.m, p'.m, p.m[b].next, chain[1..], NULL);
  }

  lemma ChainPopWf(p: Pool, r: nat)
    requires Wf(p) && r in p.chains && p.chains[r] != [] && r < |p.m| && p.m[r].RxState? && p.chains[r][0] < |p.m|
    ensures Wf(ChainPop(p, r))
  {
    LinkedNoDuplicates(p.m, p.m[r].buffer, p.chains[r]);
    ChainPopLinks(p, r);
    ChainPopOwned(p, r);
    hide NoDuplicates, Linked, Chained;
    assert OwnedAt(p, r);
  }

  /** Rewriting the bytes of a chunk. */
  ghost function WriteChunk(p: Pool, b: nat, data: seq<u8>): Pool
    requires Wf(p) && b < |p.m| && p.m[b].Chunk?
  {
    p.(m := p.m[b := p.m[b].(data := data)])
  }

  lemma WriteChunkWf(p: Pool, b: nat, data: seq<u8>)
    requires Wf(p) && b < |p.m| && p.m[b].Chunk? && p.owner[b].InChain? && |data| == BLOCK_SIZE
    ensures Wf(WriteChunk(p, b, data))
  {
    var p' := WriteChunk(p, b, data);
    assert OwnedAt(p, b);
    ListsFrame(p, p'.m, {});
    forall i: nat | i < |p.m| ensures OwnedAt(p', i) {
      assert OwnedAt(p, i);
    }
    forall r | r in p'.chains ensures p'.m[r].RxState? {
      assert OwnedAt(p, r);
    }
  }

  /** Handing the whole chain of session r to the application. */
  ghost function ChainToHeld(p: Pool, r: nat): Pool
    requires Wf(p) && r in p.chains && r < |p.m| && p.m[r].RxState?
  {
    p.(m := p.m[r := p.m[r].(buffer := NULL)], heldHead := p.m[r].buffer, held := p.chains[r],
       chains := p.chains[r := []],
       owner := seq(|p.owner|, i requires 0 <= i < |p.owner| =>
                  if p.owner[i] == InChain(r) then InCallback else p.owner[i]))
  }

  lemma ChainToHeldWf(p: Pool, r: nat)
    requires Wf(p) && r in p.chains && r < |p.m| && p.m[r].RxState? && p.held == []
    ensures Wf(ChainToHeld(p, r))
  {
    var p' := ChainToHeld(p, r);
    assert OwnedAt(p, r);
    ListsFrame(p, p'.m, {});
    forall i: nat | i < |p.m| ensures OwnedAt(p', i) {
      assert OwnedAt(p, i);
    }
  }

  /** Unlinking the first block the application holds. */
  ghost function HeldPop(p: Pool): Pool
    requires Wf(p) && p.held != []
  {
    var b := p.held[0];
    p.(heldHead := p.m[b].next, held := p.held[1..], owner := p.owner[b := Taken])
  }

  lemma HeldPopWf(p: Pool)
    requires Wf(p) && p.held != []
    ensures Wf(HeldPop(p))
  {
    LinkedNoDuplicates(p.m, p.heldHead, p.held);
    var b, p' := p.held[0], HeldPop(p);
    assert p.held == [b] + p.held[1..];
    forall i: nat | i < |p.m| ensures OwnedAt(p', i) {
      assert OwnedAt(p, i) && OwnedAt(p, b);
    }
  }
}
