/** What a well-formed pool says about single blocks, sessions and chains. */
module CanardPoolFacts {
  import opened Bits
  import opened TransferCrc
  import opened CanardFrame
  import opened CanardLists
  import opened CanardPool
  import opened CanardTransport
  import opened CanardModel
  import opened CanardStorage

  function Blank(descriptor: nat): RxFields {
    RxFields(descriptor, 0, CLEAR, 0, 0, false, CLEAR, 0, [0, 0, 0, 0, 0])
  }

  lemma BlankMeaning(descriptor: nat)
    ensures SessionOf(Blank(descriptor), [], 0) == Fresh(descriptor)
  {
  }

  ghost predicate NoneTaken(owner: seq<Owner>) {
    forall b :: 0 <= b < |owner| ==> owner[b] != Taken
  }

  ghost function Upward(i: nat, n: nat): (list: seq<nat>)
    requires i <= n
    ensures |list| == n - i
    decreases n - i
  {
    if i == n then [] else [i] + Upward(i + 1, n)
  }

  lemma {:induction false} UpwardMember(i: nat, n: nat, b: nat)
    requires i <= n
    ensures b in Upward(i, n) <==> i <= b < n
    decreases n - i
  {
    if i < n {
      var rest := Upward(i + 1, n);
      UpwardMember(i + 1, n, b);
      assert Upward(i, n) == [i] + rest;
      assert b in [i] + rest <==> b == i || b in rest;
    } else {
      assert Upward(i, n) == [];
    }
  }

  lemma QueuedItem(p: Pool, k: nat)
    requires Wf(p) && k <= |p.queue|
    ensures k < |p.queue| ==> p.queue[k] < |p.m| && p.m[p.queue[k]].TxItem?
    ensures forall b: nat :: b < |p.m| && p.owner[b] == Taken ==> b !in p.queue
  {
    if k < |p.queue| {
      LinkedNext(p.m, p.txQueue, p.queue, k);
      assert p.queue[k] in p.queue;
      assert OwnedAt(p, p.queue[k]);
    }
    forall b: nat | b < |p.m| && p.owner[b] == Taken ensures b !in p.queue {
      assert OwnedAt(p, b);
    }
  }

  /** The k-th session block. */
  lemma StateAt(p: Pool, k: nat)
    requires Wf(p) && k <= |p.states|
    ensures k < |p.states| ==> p.states[k] < |p.m| && p.m[p.states[k]].RxState? && p.states[k] in p.chains
    ensures k < |p.states| ==> |p.m[p.states[k]].rx.head| == HEAD_SIZE && p.owner[p.states[k]] == InStates
  {
    if k < |p.states| {
      LinkedNext(p.m, p.rxStates, p.states, k);
      assert p.states[k] in p.states;
      assert OwnedAt(p, p.states[k]);
    }
  }

  lemma NoStates(p: Pool)
    requires Wf(p) && p.rxStates == NULL
    ensures p.states == [] && Sessions(p.m, p.chains, p.states) == []
  {
    LinkedHead(p.m, p.rxStates, p.states);
  }

  /** Block r is session k. */
  ghost predicate StateHere(p: Pool, k: nat, r: nat) {
    k < |p.states| && p.states[k] == r && r < |p.m| && p.m[r].RxState? && r in p.chains && |p.m[r].rx.head| == HEAD_SIZE
  }

  lemma SessionHere(n: NodeId, p: Pool, k: nat, r: nat)
    requires Wf(p) && k < |p.states| && p.states[k] == r
    ensures StateHere(p, k, r)
    ensures |ModelOf(n, p).sessions| == |p.states|
    ensures ModelOf(n, p).sessions[k] == SessionOf(p.m[r].rx, Bytes(p, r), |p.chains[r]|)
  {
    StateAt(p, k);
    SessionsAt(p.m, p.chains, p.states);
  }

  predicate IsLast(chain: seq<nat>, last: int) {
    last == if chain == [] then NULL else chain[|chain| - 1]
  }

  lemma LastInRange(p: Pool, r: nat, last: int)
    requires Wf(p) && r in p.chains && r < |p.m| && p.m[r].RxState? && IsLast(p.chains[r], last)
    ensures p.chains[r] != [] ==> 0 <= last < |p.m| == |p.owner| && last in p.chains[r] && p.owner[last] == InChain(r)
    ensures p.chains[r] != [] ==> last != r && p.m[last].Chunk? && |p.m[last].data| == BLOCK_SIZE
  {
    if p.chains[r] != [] {
      assert last in ChainOf(p.chains, r);
      ChainOwned(p, r, last);
      assert OwnedAt(p, r);
    }
  }

  /** Bytes of a chain do not depend on blocks in no list. */
  lemma TakenGathers(p: Pool, p': Pool, r: nat)
    requires Wf(p) && r in p.chains && |p'.m| == |p.m| && p.free != []
    requires forall b: nat :: b < |p.m| && b != p.free[0] ==> p'.m[b] == p.m[b]
    ensures Gather(p'.m, p.chains[r]) == Gather(p.m, p.chains[r])
  {
    hide Chained, Fits, Linked;
    LinkedInRange(p.m, p.freeList, p.free);
    assert p.free[0] in p.free;
    assert OwnedAt(p, p.free[0]);
    forall b | b in p.chains[r] ensures DataAt(p'.m, b) == DataAt(p.m, b) {
      assert b in ChainOf(p.chains, r);
      ChainOwned(p, r, b);
    }
    GatherFrame(p.m, p'.m, p.chains[r]);
  }

  lemma ChainLinked(p: Pool, r: nat)
    requires Wf(p) && r in p.chains
    ensures r < |p.m| && p.m[r].RxState? && Linked(p.m, p.m[r].buffer, p.chains[r])
  {
  }

  lemma {:induction false} GatherLength(m: seq<Block>, chain: seq<nat>)
    requires forall b :: b in chain ==> |DataAt(m, b)| == BLOCK_SIZE
    ensures |Gather(m, chain)| == BLOCK_SIZE * |chain|
    decreases chain
  {
    if chain != [] {
      assert chain[0] in chain;
      GatherLength(m, chain[1..]);
    }
  }

  lemma ChainLength(p: Pool, r: nat)
    requires Wf(p) && r in p.chains
    ensures |Gather(p.m, p.chains[r])| == BLOCK_SIZE * |p.chains[r]|
  {
    hide Chained, Linked;
    forall b | b in p.chains[r] ensures |DataAt(p.m, b)| == BLOCK_SIZE {
      assert b in ChainOf(p.chains, r);
      ChainOwned(p, r, b);
    }
    GatherLength(p.m, p.chains[r]);
  }

  /** Overwriting bytes of the last chunk overwrites them in the chain's bytes. */
  lemma FilledBytes(p: Pool, r: nat, block: nat, index: nat, piece: seq<u8>)
    requires Wf(p) && r in p.chains && r < |p.m| && p.m[r].RxState? && p.chains[r] != [] && IsLast(p.chains[r], block)
    requires block < |p.m| && p.m[block].Chunk? && |p.m[block].data| == BLOCK_SIZE && index + |piece| <= BLOCK_SIZE
    ensures |Bytes(p, r)| == BLOCK_SIZE * |p.chains[r]|
    ensures Bytes(WriteChunk(p, block, Splice(p.m[block].data, index, piece)), r) ==
            Splice(Bytes(p, r), BLOCK_SIZE * (|p.chains[r]| - 1) + index, piece)
  {
    hide Chained, Linked, Fits, OwnedAt;
    var chain := p.chains[r];
    var init := chain[..|chain| - 1];
    var m' := p.m[block := Chunk(p.m[block].next, Splice(p.m[block].data, index, piece))];
    ChainLength(p, r);
    assert chain == init + [block];
    LinkedNoDuplicates(p.m, p.m[r].buffer, chain) by { ChainLinked(p, r); }
    assert block !in init;
    GatherConcat(p.m, init, [block]);
    GatherConcat(m', init, [block]);
    GatherFrame(p.m, m', init);
    GatherOne(p.m, block);
    GatherOne(m', block);
    assert |Gather(p.m, init)| == BLOCK_SIZE * (|chain| - 1);
    SpliceLast(Gather(p.m, init), p.m[block].data, index, piece);
  }

  lemma GatherOne(m: seq<Block>, b: nat)
    ensures Gather(m, [b]) == DataAt(m, b)
  {
    assert [b][1..] == [];
  }

  lemma HeadBytes(p: Pool, k: nat, r: nat, rx: RxFields)
    requires Wf(p) && StateHere(p, k, r)
    ensures Bytes(WriteState(p, r, rx), r) == Bytes(p, r)
  {
    hide Chained, Linked, Fits;
    forall b | b in p.chains[r] ensures b != r && b < |p.m| {
      assert b in ChainOf(p.chains, r);
      ChainOwned(p, r, b);
      StateAt(p, k);
    }
    GatherFrame(p.m, WriteState(p, r, rx).m, p.chains[r]);
  }

  lemma GatherNone(m: seq<Block>)
    ensures Gather(m, []) == []
  {
  }

  lemma ChainBuffer(p: Pool, r: nat)
    requires Wf(p) && r in p.chains && r < |p.m| && p.m[r].RxState?
    ensures p.m[r].buffer == NULL <==> p.chains[r] == []
  {
    LinkedHead(p.m, p.m[r].buffer, p.chains[r]);
  }

  ghost function Bytes(p: Pool, r: nat): seq<u8> { Gather(p.m, ChainOf(p.chains, r)) }

  lemma ChainHead(p: Pool, r: nat)
    requires Wf(p) && r in p.chains && r < |p.m| && p.m[r].RxState? && p.chains[r] != []
    ensures p.m[r].buffer == p.chains[r][0] < |p.m| == |p.owner| && p.owner[p.chains[r][0]] == InChain(r)
    ensures p.chains[r][0] != r
  {
    LinkedHead(p.m, p.m[r].buffer, p.chains[r]);
    assert p.chains[r][0] in ChainOf(p.chains, r);
    ChainOwned(p, r, p.chains[r][0]);
    assert OwnedAt(p, r);
  }

  /** While a block is in hand the free list does not hold the whole arena. */
  lemma UsagePositive(p: Pool, b: nat)
    requires Wf(p) && b < |p.m| && p.owner[b] == Taken
    ensures |p.free| < |p.m|
  {
    LinkedNoDuplicates(p.m, p.freeList, p.free);
    LinkedInRange(p.m, p.freeList, p.free);
    assert OwnedAt(p, b);
    Pigeonhole(p.free, b, |p.m|);
  }

  lemma Pigeonhole(list: seq<nat>, missing: nat, n: nat)
    requires NoDuplicates(list) && missing < n && missing !in list && forall b :: b in list ==> b < n
    ensures |list| < n
  {
    Distinct(list);
    assert Members(list) <= Below(n) - {missing};
    SubsetSize(Members(list), Below(n) - {missing});
  }

  /** The first n arena indices. */
  ghost function Below(n: nat): (s: set<nat>)
    ensures |s| == n && forall b: nat :: b in s <==> b < n
  {
    if n == 0 then {} else Below(n - 1) + {n - 1}
  }

  ghost function Members(list: seq<nat>): (s: set<nat>)
    ensures forall b :: b in s <==> b in list
  {
    if list == [] then {} else {list[0]} + Members(list[1..])
  }

  lemma {:induction false} Distinct(list: seq<nat>)
    requires NoDuplicates(list)
    ensures |Members(list)| == |list|
  {
    if list != [] {
      Distinct(list[1..]);
      assert list[0] !in list[1..];
    }
  }

  lemma {:induction false} SubsetSize(a: set<nat>, b: set<nat>)
    requires a <= b
    ensures |a| <= |b|
  {
    if a != {} {
      var x :| x in a;
      SubsetSize(a - {x}, b - {x});
      assert |a - {x}| == |a| - 1 && |b - {x}| == |b| - 1;
    }
  }

  /** Only session k, the free list and the blocks lent to the application changed. */
  ghost predicate Touched(n: NodeId, p0: Pool, p: Pool, k: nat, r: nat) {
    && StateHere(p0, k, r) && StateHere(p, k, r) && p.states == p0.states
    && p.m[r].rx.descriptor == p0.m[r].rx.descriptor
    && |ModelOf(n, p0).sessions| == |p.states|
    && ModelOf(n, p) == WithSession(ModelOf(n, p0), k, SessionAt(p.m, p.chains, r)).(free := |p.free|, held := |p.held|)
  }

  lemma TouchedTwice(n: NodeId, p0: Pool, p1: Pool, p2: Pool, k: nat, r: nat)
    requires Touched(n, p0, p1, k, r) && Touched(n, p1, p2, k, r)
    ensures Touched(n, p0, p2, k, r)
  {
    hide SessionAt, Sessions, Frames;
  }

  lemma TouchedNothing(n: NodeId, p: Pool, k: nat, r: nat)
    requires Wf(p) && StateHere(p, k, r)
    ensures Touched(n, p, p, k, r)
  {
    hide Wf, SessionAt, Frames;
    SessionsAt(p.m, p.chains, p.states);
  }

  lemma LendHead(p: Pool)
    requires Wf(p)
    ensures p.heldHead == NULL <==> p.held == []
    ensures p.held != [] ==> p.heldHead == p.held[0] < |p.m| == |p.owner|
  {
    LinkedHead(p.m, p.heldHead, p.held);
    LinkedInRange(p.m, p.heldHead, p.held);
  }

  /** Freeing the lent blocks leaves the sessions alone. */
  lemma ReleaseTouches(n: NodeId, p: Pool, p': Pool, k: nat, r: nat)
    requires Wf(p) && Wf(p') && StateHere(p, k, r) && p'.states == p.states
    requires ModelOf(n, p') == ModelOf(n, p).(free := |p'.free|, held := |p'.held|)
    ensures Touched(n, p, p', k, r) && SessionAt(p'.m, p'.chains, r) == SessionAt(p.m, p.chains, r)
  {
    hide Wf, Gather, Prefix, Sessions, Frames;
    SessionHere(n, p, k, r);
    SessionHere(n, p', k, r);
  }

  lemma LendNothing(p: Pool)
    requires Wf(p) && p.held == []
    ensures p.heldHead == NULL && Gather(p.m, p.held) == []
  {
    LinkedHead(p.m, p.heldHead, p.held);
  }

  /** The session blocks around position k. */
  lemma StateNeighbours(p: Pool, k: nat)
    requires Wf(p) && k <= |p.states|
    ensures p.rxStates == First(p.states, NULL)
    ensures k < |p.states| ==> p.states[k] < |p.m| && p.m[p.states[k]].next == First(p.states[k + 1..], NULL)
    ensures k < |p.states| ==> (p.states[k] == p.rxStates) == (k == 0)
    ensures 0 < k < |p.states| ==> p.states[k - 1] < |p.m|
    ensures |Sessions(p.m, p.chains, p.states)| == |p.states|
  {
    hide Chained, OwnedAt, Fits;
    LinkedHead(p.m, p.rxStates, p.states);
    LinkedInRange(p.m, p.rxStates, p.states);
    LinkedNoDuplicates(p.m, p.rxStates, p.states);
    SessionsAt(p.m, p.chains, p.states);
    if k < |p.states| {
      LinkedNext(p.m, p.rxStates, p.states, k);
      assert k > 0 ==> p.states[k - 1] in p.states;
    }
  }

  lemma ShortCrc(signature: u64, payload: seq<u8>)
    requires |payload| <= 7
    ensures TransferCrcOf(signature, payload) == INITIAL
  {
  }
}
