/** An update that meets no obstacle goes through: whatever the image and its size, it is distributed, verified and
    selected (components/airlink_mesh/airlink_mesh.c). The safety theorems say what never goes wrong; here the same
    steps are shown to get somewhere. */
module MeshOtaProgress {
  import opened Bits
  import opened OtaStream
  import opened MeshOtaNode
  import opened MeshOtaFleet
  import opened MeshOtaSafety

  // ---------- One chunk at a node ----------

  /** A chunk of the running session that belongs to the current window, or to the next one when the current one is
      written, is acknowledged under its window. Unless writing fails, its bit is set, and if it was missing its bytes
      are in its slot; all other slots of the window are as they were. */
  lemma ChunkAnswered(n: Node, m: ChunkMessage, oks: Bitmap)
    requires n.air.active && |n.air.slots| == WINDOW && m.session == n.air.session
    requires 0 < |m.data| <= CHUNK && m.index < n.air.total
    requires var base := (m.index / WINDOW) * WINDOW;
      base == n.air.base || (n.air.written && base == n.air.base + WINDOW)
    ensures
      var r := OnChunk(n, m, oks);
      var base, slot := (m.index / WINDOW) * WINDOW, m.index % WINDOW;
      r.ack.Some? && r.ack.value.session == m.session &&
      (r.ack.value.state != Error ==>
         var had := base == n.air.base && n.air.bitmap[slot];
         && r.ack.value.state == Receiving && r.ack.value.base == base && r.ack.value.bitmap[slot]
         && r.node.air.active && r.node.air.base == base && r.node.air.bitmap == r.ack.value.bitmap
         && |r.node.air.slots| == WINDOW
         && (!had ==> r.node.air.slots[slot] == m.data)
         && (base == n.air.base ==> forall k :: 0 <= k < WINDOW && k != slot ==>
               r.node.air.slots[k] == n.air.slots[k] && r.node.air.bitmap[k] == n.air.bitmap[k])
         && (base != n.air.base ==> forall k :: 0 <= k < WINDOW && k != slot ==> !r.node.air.bitmap[k]))
  {
    hide WriteAll, Reset, Expected, WindowCount;
  }

  /** Any other chunk of the session changes nothing, and the node tells which window it is at. */
  lemma ChunkOutOfTurn(n: Node, m: ChunkMessage, oks: Bitmap)
    requires n.air.active && |n.air.slots| == WINDOW && m.session == n.air.session
    requires 0 < |m.data| <= CHUNK && m.index < n.air.total
    requires var base := (m.index / WINDOW) * WINDOW;
      base != n.air.base && !(n.air.written && base == n.air.base + WINDOW)
    ensures OnChunk(n, m, oks) == Reply(n, Some(Ack(n.air.session, n.air.base, n.air.bitmap, Receiving)))
  {
  }

  // ---------- Writing windows ----------

  function AllSet(): Bitmap { seq(WINDOW, _ => true) }

  // ---------- An image at a node ----------

  function Total(data: seq<u8>): nat { Chunks(|data|) }

  function Count(data: seq<u8>, base: nat): nat { WindowCount(base, Total(data)) }

  /** Bytes up to the end of the window. */
  function WindowEndAt(data: seq<u8>, base: nat): nat { Least((base + WINDOW) * CHUNK, |data|) }

  function FirstBits(k: nat): Bitmap { seq(WINDOW, i => i < k) }

  function FirstSlots(data: seq<u8>, base: nat, k: nat): seq<seq<u8>> {
    seq(WINDOW, i requires 0 <= i < WINDOW => if i < k then Piece(data, base + i) else [])
  }

  /** A node that was told of the image. */
  function Begun(s: Session, data: seq<u8>): Node {
    Node(Air(true, s, |data|, Total(data), 0, Nothing(), NoSlots(), false), Active(|data|, Digest(data), []))
  }

  /** A node with the first k chunks of the window. */
  function Midway(s: Session, data: seq<u8>, base: nat, k: nat): Node {
    var whole := k == Count(data, base);
    Node(Air(true, s, |data|, Total(data), base, FirstBits(k), FirstSlots(data, base, k), whole),
         Active(|data|, Digest(data), data[..if whole then WindowEndAt(data, base) else Least(base * CHUNK, |data|)]))
  }

  /** The node when the window begins. */
  function Before(s: Session, data: seq<u8>, base: nat): Node {
    if base < WINDOW then Begun(s, data) else Midway(s, data, base - WINDOW, WINDOW)
  }

  predicate WindowAt(data: seq<u8>, base: nat) { base % WINDOW == 0 && base < Total(data) }

  lemma CountBounds(data: seq<u8>, base: nat)
    requires WindowAt(data, base)
    ensures 0 < Count(data, base) <= WINDOW
    ensures forall k: nat :: k <= Count(data, base) ==> (FirstBits(k) == Expected(base, Total(data)) <==> k == Count(data, base))
  {
    forall k: nat | k <= Count(data, base)
      ensures FirstBits(k) == Expected(base, Total(data)) <==> k == Count(data, base)
    {
      ExpectedBits(base, Total(data));
      if k < Count(data, base) {
        assert !FirstBits(k)[k] && Expected(base, Total(data))[k];
      } else {
        assert FirstBits(k) == Expected(base, Total(data));
      }
    }
  }

  lemma PieceFits(data: seq<u8>, base: nat, k: nat)
    requires WindowAt(data, base) && k < Count(data, base)
    ensures IsChunk(data, |data|, base + k, Piece(data, base + k)) && 0 < |Piece(data, base + k)| <= CHUNK
    ensures base + k < Total(data) && ((base + k) / WINDOW) * WINDOW == base
  {
    PieceSize(data, |data|, base + k);
    InWindow(base, k);
  }

  lemma InWindow(base: nat, k: nat)
    requires base % WINDOW == 0 && k < WINDOW
    ensures ((base + k) / WINDOW) * WINDOW == base
  {
  }

  /** The bytes of a whole window follow those written before. */
  lemma WindowJoins(data: seq<u8>, base: nat)
    requires WindowAt(data, base)
    ensures
      var pieces := FirstSlots(data, base, Count(data, base))[..Count(data, base)];
      base * CHUNK <= WindowEndAt(data, base) <= |data| &&
      Joined(pieces) == data[base * CHUNK..WindowEndAt(data, base)] && (forall k :: 0 <= k < |pieces| ==> pieces[k] != [])
  {
    hide Piece, Fixed, Joined;
    CountBounds(data, base);
    var pieces := FirstSlots(data, base, Count(data, base))[..Count(data, base)];
    forall k | 0 <= k < |pieces| ensures IsChunk(data, |data|, base + k, pieces[k]) && pieces[k] != [] {
      PieceFits(data, base, k);
    }
    PiecesJoin(data, |data|, base, pieces);
    WindowEnd(base, |data|);
  }

  /** What turning to the window, if that is due, makes of the node. */
  function Turning(s: Session, data: seq<u8>, base: nat, k: nat): Air {
    Air(true, s, |data|, Total(data), base, FirstBits(k), FirstSlots(data, base, k), false)
  }

  lemma TurnedTo(s: Session, data: seq<u8>, base: nat)
    requires WindowAt(data, base)
    ensures Turned(Before(s, data, base).air, base) == Turning(s, data, base, 0)
    ensures Before(s, data, base).stream == Active(|data|, Digest(data), data[..Least(base * CHUNK, |data|)])
    ensures var a := Before(s, data, base).air; base == a.base || (a.written && base == a.base + WINDOW)
  {
    assert FirstBits(0) == Nothing() && FirstSlots(data, base, 0) == NoSlots();
    if base >= WINDOW {
      assert Count(data, base - WINDOW) == WINDOW;
    }
  }

  lemma StoredNext(s: Session, data: seq<u8>, base: nat, k: nat)
    requires k < WINDOW
    ensures Stored(Turning(s, data, base, k), k, Piece(data, base + k)) == Turning(s, data, base, k + 1)
  {
    assert FirstBits(k)[k := true] == FirstBits(k + 1);
    assert FirstSlots(data, base, k)[k := Piece(data, base + k)] == FirstSlots(data, base, k + 1);
  }

  lemma SettledNext(s: Session, data: seq<u8>, base: nat, k: nat)
    requires WindowAt(data, base) && 0 < k <= Count(data, base)
    ensures
      var stream := Active(|data|, Digest(data), data[..Least(base * CHUNK, |data|)]);
      Settled(Turning(s, data, base, k), stream, AllSet()) ==
      Reply(Midway(s, data, base, k), Some(Ack(s, base, FirstBits(k), Receiving)))
  {
    hide WriteAll, Expected, WindowCount, Piece;
    CountBounds(data, base);
    if k == Count(data, base) {
      var stream := Active(|data|, Digest(data), data[..Least(base * CHUNK, |data|)]);
      var pieces := FirstSlots(data, base, k)[..k];
      WindowJoins(data, base);
      WriteAllSucceeds(stream, pieces, AllSet()[..k]);
      assert data[..base * CHUNK] + data[base * CHUNK..WindowEndAt(data, base)] == data[..WindowEndAt(data, base)];
    }
  }

  /** The node takes the next chunk of the window. */
  lemma NodeTakes(s: Session, data: seq<u8>, base: nat, k: nat)
    requires WindowAt(data, base) && k < Count(data, base)
    ensures
      var n := if k == 0 then Before(s, data, base) else Midway(s, data, base, k);
      OnChunk(n, ChunkMessage(s, base + k, Piece(data, base + k)), AllSet()) ==
      Reply(Midway(s, data, base, k + 1), Some(Ack(s, base, FirstBits(k + 1), Receiving)))
  {
    hide Settled, Stored, Piece, WriteAll;
    CountBounds(data, base);
    PieceFits(data, base, k);
    StoredNext(s, data, base, k);
    SettledNext(s, data, base, k + 1);
    if k == 0 {
      TurnedTo(s, data, base);
    }
  }

  // ---------- The fleet of one node ----------

  /** Everything a node depends on goes well. */
  function Smooth(): Fortune { Fortune(true, true, AllSet()) }

  function Announcement(s: Session, data: seq<u8>): BeginMessage {
    BeginMessage(s, |data|, Digest(data), CHUNK, WINDOW)
  }

  function RootAt(phase: Phase, s: Session, data: seq<u8>, received: nat, base: nat, slots: seq<seq<u8>>): Root {
    Root(phase, s, |data|, received, base, slots, {0})
  }

  /** The only node is n, and these packets are under way. */
  predicate Alone(f: Fleet, n: Node, s: Session, net: multiset<Packet>) {
    && |f.members| == 1 == |f.table| && f.members[0].node == n && |n.air.slots| == WINDOW && f.net == net
    && s in f.log && (n.air.active ==> f.members[0].origin == s)
  }

  lemma OneCopy(body: Body)
    ensures Copies(1, {0}, body) == multiset{Down(0, body)}
  {
    assert Copies(0, {0}, body) == multiset{};
  }

  lemma {:induction false} RunConcat(f: Fleet, a: seq<Event>, b: seq<Event>)
    ensures Run(f, a + b) == Run(Run(f, a), b)
    decreases a
  {
    hide Step;
    if a == [] {
      assert a + b == b;
    } else {
      assert (a + b)[1..] == a[1..] + b;
      RunConcat(Step(f, a[0]), a[1..], b);
    }
  }

  lemma RunOne(f: Fleet, e: Event)
    ensures Run(f, [e]) == Step(f, e)
  {
    hide Step;
    assert [e][1..] == [];
  }

  /** The run goes on with one more event. */
  lemma RunMore(f: Fleet, es: seq<Event>, e: Event)
    ensures Run(f, es + [e]) == Step(Run(f, es), e)
  {
    hide Step, Run;
    RunConcat(f, es, [e]);
    RunOne(Run(f, es), e);
  }

  /** A packet reaches the node, which answers, and the answer reaches the root. */
  lemma Exchange(f: Fleet, n: Node, s: Session, body: Body, n': Node, ack: Ack)
    requires Alone(f, n, s, multiset{Down(0, body)}) && Handled(n, body, Smooth()) == Reply(n', Some(ack))
    requires |n'.air.slots| == WINDOW && ack.session == s == f.root.session && f.root.phase != Off
    requires n'.air.active ==> n.air.active || (body.BeginBody? && ack.state == Ready)
    requires body.BeginBody? ==> body.begin.session == s
    ensures
      var f' := Run(f, [Arrive(Down(0, body), Smooth()), Arrive(Up(0, ack), Smooth())]);
      Alone(f', n', s, multiset{}) && f'.root == f.root && f'.log == f.log &&
      f'.table == [Entry(ack.base, ack.bitmap, ack.state)] &&
      (ack.state == Activating ==> f.members[0].origin in f'.members[0].booted) &&
      (var held := f.members[0].held;
       f'.members[0].held == if ack.state == Verified && n'.stream.Staged? then held[s := n'.stream.image] else held)
  {
    hide Handled;
    var e1, e2 := Arrive(Down(0, body), Smooth()), Arrive(Up(0, ack), Smooth());
    var f1 := Step(f, e1);
    assert multiset{Down(0, body)} - multiset{Down(0, body)} + multiset{Up(0, ack)} == multiset{Up(0, ack)};
    assert f1.root == f.root && f1.log == f.log && f1.net == multiset{Up(0, ack)} && |f1.table| == 1;
    assert [e1] + [e2] == [e1, e2];
    RunOne(f, e1);
    RunMore(f, [e1], e2);
    assert multiset{Up(0, ack)} - multiset{Up(0, ack)} == multiset{};
  }

  lemma Announces(s: Session, data: seq<u8>)
    requires data != []
    ensures var f := Step(Start(1), Announce(s, |data|, Digest(data), {0}));
      Alone(f, Node(Cleared(), Idle), s, multiset{Down(0, BeginBody(Announcement(s, data)))}) &&
      f.root == RootAt(Beginning, s, data, 0, 0, NoSlots())
  {
    OneCopy(BeginBody(Announcement(s, data)));
  }

  lemma Accepts(f: Fleet, n: Node, s: Session, data: seq<u8>)
    requires Alone(f, n, s, multiset{}) && f.root == RootAt(Beginning, s, data, 0, 0, NoSlots()) && f.table[0].state == Ready
    ensures var f' := Step(f, Accepted);
      Alone(f', n, s, multiset{}) && f'.root == RootAt(Filling, s, data, 0, 0, NoSlots())
  {
  }

  /** The root has fed itself the first k chunks of the window. */
  function Feeding(s: Session, data: seq<u8>, base: nat, k: nat): Root {
    var whole := k == Count(data, base);
    RootAt(if whole then Flushing else Filling, s, data, Least((base + k) * CHUNK, |data|), base, FirstSlots(data, base, k))
  }

  lemma Feeds(f: Fleet, n: Node, s: Session, data: seq<u8>, base: nat, k: nat)
    requires WindowAt(data, base) && k < Count(data, base)
    requires Alone(f, n, s, multiset{}) && f.root == Feeding(s, data, base, k)
    ensures var f' := Step(f, Feed(Piece(data, base + k)));
      Alone(f', n, s, multiset{}) && f'.root == Feeding(s, data, base, k + 1)
  {
    PieceFits(data, base, k);
    FedNext(s, data, base, k);
    hide Fed, Piece, Feeding, RootAt;
    FeedingFields(s, data, base, k);
  }

  lemma FeedingFields(s: Session, data: seq<u8>, base: nat, k: nat)
    ensures var r := Feeding(s, data, base, k);
      r.session == s && (k < Count(data, base) ==> r.phase == Filling) && r.targets == {0}
  {
  }

  lemma FedNext(s: Session, data: seq<u8>, base: nat, k: nat)
    requires WindowAt(data, base) && k < Count(data, base)
    ensures Fed(Feeding(s, data, base, k), Piece(data, base + k)) == Some(Feeding(s, data, base, k + 1))
  {
    PieceFits(data, base, k);
    PieceSize(data, |data|, base + k);
    assert FirstSlots(data, base, k)[k := Piece(data, base + k)] == FirstSlots(data, base, k + 1);
    assert (base + k) * CHUNK < |data| && ((base + k) * CHUNK) / CHUNK == base + k;
  }

  /** The root gives itself all chunks of the window. */
  lemma {:induction false} FeedsWindow(f: Fleet, n: Node, s: Session, data: seq<u8>, base: nat, k: nat) returns (es: seq<Event>)
    requires WindowAt(data, base) && k <= Count(data, base)
    requires Alone(f, n, s, multiset{}) && f.root == Feeding(s, data, base, k)
    ensures var f' := Run(f, es);
      Alone(f', n, s, multiset{}) && f'.root == Feeding(s, data, base, Count(data, base))
    decreases Count(data, base) - k
  {
    hide Step, Alone, Feeding;
    if k == Count(data, base) {
      es := [];
    } else {
      var e := Feed(Piece(data, base + k));
      Feeds(f, n, s, data, base, k);
      var more := FeedsWindow(Step(f, e), n, s, data, base, k + 1);
      es := [e] + more;
      RunConcat(f, [e], more);
      RunOne(f, e);
    }
  }

  lemma Sends(f: Fleet, n: Node, s: Session, data: seq<u8>, base: nat, k: nat)
    requires WindowAt(data, base) && k < Count(data, base)
    requires Alone(f, n, s, multiset{}) && f.root == Feeding(s, data, base, Count(data, base))
    ensures var f' := Step(f, Distribute(0, k));
      Alone(f', n, s, multiset{Down(0, ChunkBody(ChunkMessage(s, base + k, Piece(data, base + k))))}) && f'.root == f.root
  {
    hide Piece;
    CountBounds(data, base);
    var p := Down(0, ChunkBody(ChunkMessage(s, base + k, Piece(data, base + k))));
    assert multiset{} + multiset{p} == multiset{p};
  }

  /** The root sends the node the remaining chunks of the window, one by one. */
  lemma {:induction false} SendsWindow(f: Fleet, s: Session, data: seq<u8>, base: nat, k: nat) returns (es: seq<Event>)
    requires WindowAt(data, base) && k <= Count(data, base)
    requires Alone(f, if k == 0 then Before(s, data, base) else Midway(s, data, base, k), s, multiset{})
    requires f.root == Feeding(s, data, base, Count(data, base))
    requires k > 0 ==> f.table == [Entry(base, FirstBits(k), Receiving)]
    ensures var f' := Run(f, es);
      Alone(f', Midway(s, data, base, Count(data, base)), s, multiset{}) && f'.root == f.root &&
      f'.table == [Entry(base, FirstBits(Count(data, base)), Receiving)]
    decreases Count(data, base) - k
  {
    hide Step, Alone, Feeding, Before, Midway, OnChunk, Piece, FirstBits;
    CountBounds(data, base);
    if k == Count(data, base) {
      es := [];
    } else {
      var n := if k == 0 then Before(s, data, base) else Midway(s, data, base, k);
      var n', ack := Midway(s, data, base, k + 1), Ack(s, base, FirstBits(k + 1), Receiving);
      var body := ChunkBody(ChunkMessage(s, base + k, Piece(data, base + k)));
      Sends(f, n, s, data, base, k);
      var f1 := Step(f, Distribute(0, k));
      NodeTakes(s, data, base, k);
      NodeShape(s, data, base, k);
      FeedingRunning(s, data, base);
      var pair := [Arrive(Down(0, body), Smooth()), Arrive(Up(0, ack), Smooth())];
      Exchange(f1, n, s, body, n', ack);
      var more := SendsWindow(Run(f1, pair), s, data, base, k + 1);
      es := [Distribute(0, k)] + (pair + more);
      RunConcat(f, [Distribute(0, k)], pair + more);
      RunOne(f, Distribute(0, k));
      RunConcat(f1, pair, more);
    }
  }

  lemma NodeShape(s: Session, data: seq<u8>, base: nat, k: nat)
    ensures Before(s, data, base).air.active && |Before(s, data, base).air.slots| == WINDOW
    ensures Midway(s, data, base, k).air.active && |Midway(s, data, base, k).air.slots| == WINDOW
    ensures Midway(s, data, base, k + 1).air.active && |Midway(s, data, base, k + 1).air.slots| == WINDOW
  {
  }

  lemma FeedingRunning(s: Session, data: seq<u8>, base: nat)
    requires WindowAt(data, base)
    ensures var r := Feeding(s, data, base, Count(data, base)); r.session == s && r.phase == Flushing
  {
  }

  lemma Advances(f: Fleet, n: Node, s: Session, data: seq<u8>, base: nat)
    requires WindowAt(data, base) && Alone(f, n, s, multiset{}) && f.root == Feeding(s, data, base, Count(data, base))
    requires f.table == [Entry(base, FirstBits(Count(data, base)), Receiving)]
    ensures var f' := Step(f, Advance);
      Alone(f', n, s, multiset{}) &&
      f'.root == RootAt(Filling, s, data, WindowEndAt(data, base), base + WINDOW, NoSlots())
  {
    CountBounds(data, base);
    WindowEnd(base, |data|);
  }

  /** Where the root stands between windows. */
  function Between(s: Session, data: seq<u8>, base: nat): Root {
    RootAt(Filling, s, data, Least(base * CHUNK, |data|), base, NoSlots())
  }

  lemma BetweenFeeds(s: Session, data: seq<u8>, base: nat)
    requires WindowAt(data, base)
    ensures Between(s, data, base) == Feeding(s, data, base, 0)
  {
    CountBounds(data, base);
    assert FirstSlots(data, base, 0) == NoSlots();
  }

  /** The node after the last window. */
  function AtEnd(s: Session, data: seq<u8>, base: nat): Node
    requires WindowAt(data, base)
  {
    Midway(s, data, base, Count(data, base))
  }

  /** All windows from `base` on. */
  lemma {:induction false} Windows(f: Fleet, s: Session, data: seq<u8>, base: nat) returns (es: seq<Event>, last: nat)
    requires WindowAt(data, base)
    requires Alone(f, Before(s, data, base), s, multiset{}) && f.root == Between(s, data, base)
    ensures var f' := Run(f, es);
      WindowAt(data, last) && last + WINDOW >= Total(data) && Alone(f', AtEnd(s, data, last), s, multiset{}) &&
      f'.root == Between(s, data, last + WINDOW)
    decreases Total(data) - base
  {
    hide Step, Alone, Feeding, Before, Midway, FirstBits, Between;
    BetweenFeeds(s, data, base);
    CountBounds(data, base);
    var feeds := FeedsWindow(f, Before(s, data, base), s, data, base, 0);
    var f1 := Run(f, feeds);
    var sends := SendsWindow(f1, s, data, base, 0);
    var f2 := Run(f1, sends);
    Advances(f2, Midway(s, data, base, Count(data, base)), s, data, base);
    AdvancedBetween(s, data, base);
    var first := feeds + sends + [Advance];
    RunConcat(f, feeds, sends);
    RunMore(f, feeds + sends, Advance);
    if base + WINDOW < Total(data) {
      NextBefore(s, data, base);
      var more;
      more, last := Windows(Run(f, first), s, data, base + WINDOW);
      es := first + more;
      RunConcat(f, first, more);
    } else {
      es, last := first, base;
    }
  }

  lemma AdvancedBetween(s: Session, data: seq<u8>, base: nat)
    ensures Between(s, data, base + WINDOW) == RootAt(Filling, s, data, WindowEndAt(data, base), base + WINDOW, NoSlots())
  {
  }

  lemma NextBefore(s: Session, data: seq<u8>, base: nat)
    requires WindowAt(data, base) && base + WINDOW < Total(data)
    ensures Before(s, data, base + WINDOW) == Midway(s, data, base, Count(data, base)) && WindowAt(data, base + WINDOW)
  {
  }

  // ---------- From the announcement to the verified image ----------

  lemma NodeBegins(s: Session, data: seq<u8>)
    requires data != []
    ensures OnBegin(Node(Cleared(), Idle), Announcement(s, data), true, true) ==
            Reply(Begun(s, data), Some(Ack(s, 0, Nothing(), Ready)))
  {
  }

  /** All windows have been received. */
  lemma Distributed(s: Session, data: seq<u8>) returns (es: seq<Event>, last: nat)
    requires data != []
    ensures var f := Run(Start(1), es);
      WindowAt(data, last) && last + WINDOW >= Total(data) && Alone(f, AtEnd(s, data, last), s, multiset{}) &&
      f.root == Between(s, data, last + WINDOW)
  {
    hide Step, Alone, Between, OnBegin, Run, Announcement, AtEnd, Begun;
    var f0, n0 := Start(1), Node(Cleared(), Idle);
    var e0 := Announce(s, |data|, Digest(data), {0});
    Announces(s, data);
    var f1 := Step(f0, e0);
    NodeBegins(s, data);
    var body, ack := BeginBody(Announcement(s, data)), Ack(s, 0, Nothing(), Ready);
    AnnouncedSession(s, data);
    BegunShape(s, data);
    Exchange(f1, n0, s, body, Begun(s, data), ack);
    var pair := [Arrive(Down(0, body), Smooth()), Arrive(Up(0, ack), Smooth())];
    var f2 := Run(f1, pair);
    Accepts(f2, Begun(s, data), s, data);
    var f3 := Step(f2, Accepted);
    FirstWindow(s, data);
    var more;
    more, last := Windows(f3, s, data, 0);
    es := [e0] + (pair + ([Accepted] + more));
    RunConcat(f0, [e0], pair + ([Accepted] + more));
    RunOne(f0, e0);
    RunConcat(f1, pair, [Accepted] + more);
    RunConcat(f2, [Accepted], more);
    RunOne(f2, Accepted);
  }

  lemma AnnouncedSession(s: Session, data: seq<u8>)
    ensures Announcement(s, data).session == s && RootAt(Beginning, s, data, 0, 0, NoSlots()).session == s
  {
  }

  lemma BegunShape(s: Session, data: seq<u8>)
    ensures |Begun(s, data).air.slots| == WINDOW && |Cleared().slots| == WINDOW && !Cleared().active
  {
  }

  lemma FirstWindow(s: Session, data: seq<u8>)
    requires data != []
    ensures WindowAt(data, 0) && Before(s, data, 0) == Begun(s, data)
    ensures Between(s, data, 0) == RootAt(Filling, s, data, 0, 0, NoSlots())
  {
  }

  lemma Finishes(f: Fleet, n: Node, s: Session, data: seq<u8>, last: nat)
    requires Alone(f, n, s, multiset{}) && f.root == Between(s, data, last + WINDOW)
    requires WindowAt(data, last) && last + WINDOW >= Total(data)
    ensures var f' := Step(f, Finish);
      Alone(f', n, s, multiset{Down(0, CommitBody(CommitMessage(s, false)))}) &&
      f'.root == RootAt(Verifying, s, data, |data|, last + WINDOW, NoSlots())
  {
    OneCopy(CommitBody(CommitMessage(s, false)));
    assert (last + WINDOW) * CHUNK >= |data|;
  }

  lemma NodeVerifies(s: Session, data: seq<u8>, last: nat)
    requires WindowAt(data, last) && last + WINDOW >= Total(data)
    ensures
      var n := AtEnd(s, data, last);
      OnCommit(n, CommitMessage(s, false), true) ==
      Reply(n.(stream := Staged(data)), Some(Ack(s, last, n.air.bitmap, Verified)))
    ensures AtEnd(s, data, last).air.active && |AtEnd(s, data, last).air.slots| == WINDOW
  {
    assert WindowEndAt(data, last) == |data|;
    assert data[..|data|] == data;
  }

  /** A node that has the whole image verified. */
  function VerifiedNode(s: Session, data: seq<u8>, last: nat): Node
    requires WindowAt(data, last)
  {
    AtEnd(s, data, last).(stream := Staged(data))
  }

  lemma VerifiedShape(s: Session, data: seq<u8>, last: nat)
    requires WindowAt(data, last)
    ensures var n := VerifiedNode(s, data, last);
      n.air.active && |n.air.slots| == WINDOW && n.air.session == s && n.stream == Staged(data)
  {
  }

  lemma AloneOne(f: Fleet, n: Node, s: Session)
    requires Alone(f, n, s, multiset{})
    ensures |f.members| == 1
  {
  }

  predicate Has(f: Fleet, s: Session, data: seq<u8>) {
    |f.members| == 1 && s in f.members[0].held && f.members[0].held[s] == data
  }

  /** The node has verified the image, and the root knows. */
  lemma VerifiedRun(s: Session, data: seq<u8>) returns (es: seq<Event>, last: nat)
    requires data != []
    ensures var f := Run(Start(1), es);
      WindowAt(data, last) && Alone(f, VerifiedNode(s, data, last), s, multiset{}) &&
      f.root == RootAt(Verifying, s, data, |data|, last + WINDOW, NoSlots()) && f.table[0].state == Verified &&
      Has(f, s, data)
  {
    hide Step, Alone, Between, OnCommit, Run, AtEnd;
    var before;
    before, last := Distributed(s, data);
    var f1 := Run(Start(1), before);
    Finishes(f1, AtEnd(s, data, last), s, data, last);
    var f2 := Step(f1, Finish);
    NodeVerifies(s, data, last);
    VerifiedShape(s, data, last);
    var body, ack := CommitBody(CommitMessage(s, false)), Ack(s, last, AtEnd(s, data, last).air.bitmap, Verified);
    Exchange(f2, AtEnd(s, data, last), s, body, VerifiedNode(s, data, last), ack);
    var pair := [Arrive(Down(0, body), Smooth()), Arrive(Up(0, ack), Smooth())];
    es := before + [Finish] + pair;
    RunMore(Start(1), before, Finish);
    RunConcat(Start(1), before + [Finish], pair);
    AloneOne(Run(f2, pair), VerifiedNode(s, data, last), s);
  }

  lemma Activates(f: Fleet, n: Node, s: Session, data: seq<u8>, base: nat)
    requires Alone(f, n, s, multiset{}) && f.root == RootAt(Verifying, s, data, |data|, base, NoSlots())
    requires f.table[0].state == Verified
    ensures var f' := Run(f, [AllVerified, ActivateNode(0)]);
      Alone(f', n, s, multiset{Down(0, CommitBody(CommitMessage(s, true)))}) && f'.root.session == s && f'.root.phase == Activation &&
      f'.members == f.members
  {
    var f1 := Step(f, AllVerified);
    var p := Down(0, CommitBody(CommitMessage(s, true)));
    assert f1.net == multiset{} && multiset{} + multiset{p} == multiset{p};
    assert [AllVerified] + [ActivateNode(0)] == [AllVerified, ActivateNode(0)];
    RunOne(f, AllVerified);
    RunMore(f, [AllVerified], ActivateNode(0));
  }

  lemma NodeActivates(s: Session, data: seq<u8>, last: nat)
    requires WindowAt(data, last)
    ensures
      var n := VerifiedNode(s, data, last);
      OnCommit(n, CommitMessage(s, true), true) ==
      Reply(n.(stream := Idle), Some(Ack(s, last, n.air.bitmap, Activating)))
  {
  }

  lemma OriginIs(f: Fleet, n: Node, s: Session)
    requires Alone(f, n, s, multiset{Down(0, CommitBody(CommitMessage(s, true)))}) && n.air.active
    ensures f.members[0].origin == s
  {
  }

  lemma Ends(f: Fleet, n: Node, s: Session, data: seq<u8>)
    requires Alone(f, n, s, multiset{}) && f.root.phase == Activation && Has(f, s, data) && s in f.members[0].booted
    requires n.stream.Idle?
    ensures Installed(Step(f, End), s, data)
  {
  }

  /** The node has the image, byte for byte, and selected it; root and node are free for the next update. */
  predicate Installed(f: Fleet, s: Session, data: seq<u8>) {
    Has(f, s, data) && s in f.members[0].booted && f.root.phase == Off && f.members[0].node.stream.Idle?
  }

  /** For every image there is a run that installs it. */
  lemma EveryImageInstalled(s: Session, data: seq<u8>) returns (es: seq<Event>)
    requires data != []
    ensures Installed(Run(Start(1), es), s, data)
  {
    hide Step, Alone, OnCommit, Run, VerifiedNode, Installed;
    var before, last := VerifiedRun(s, data);
    var f1, n := Run(Start(1), before), VerifiedNode(s, data, last);
    Activates(f1, n, s, data, last + WINDOW);
    var f2 := Run(f1, [AllVerified, ActivateNode(0)]);
    NodeActivates(s, data, last);
    VerifiedShape(s, data, last);
    OriginIs(f2, n, s);
    var body, ack := CommitBody(CommitMessage(s, true)), Ack(s, last, n.air.bitmap, Activating);
    Exchange(f2, n, s, body, n.(stream := Idle), ack);
    var pair := [Arrive(Down(0, body), Smooth()), Arrive(Up(0, ack), Smooth())];
    AloneOne(Run(f2, pair), n.(stream := Idle), s);
    Ends(Run(f2, pair), n.(stream := Idle), s, data);
    var all := before + [AllVerified, ActivateNode(0)] + pair;
    es := all + [End];
    RunConcat(Start(1), before, [AllVerified, ActivateNode(0)]);
    RunConcat(Start(1), before + [AllVerified, ActivateNode(0)], pair);
    RunMore(Start(1), all, End);
  }

  /** An announcement that was accepted is answered in the same way when it is repeated, and changes nothing then. */
  lemma AnnouncedAgain(n: Node, m: BeginMessage, ok: bool, again: bool)
    requires var r := OnBegin(n, m, true, ok); r.ack.Some? && r.ack.value.state == Ready
    ensures var r := OnBegin(n, m, true, ok);
      OnBegin(r.node, m, true, again) == r
  {
  }
}
