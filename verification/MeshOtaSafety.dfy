/** What holds in every reachable state of a fleet during firmware distribution. */
module MeshOtaSafety {
  import opened Bits
  import opened OtaStream
  import opened MeshOtaNode
  import opened MeshOtaFleet

  // ---------- Bytes ----------

  function Least(a: nat, b: nat): nat { if a < b then a else b }

  /** Bytes of the image up to the end of chunk `index`. */
  function EndOf(index: nat, size: nat): nat { Least((index + 1) * CHUNK, size) }

  /** The bytes up to chunk `index` are there, so the chunk will not change any more. */
  predicate Fixed(data: seq<u8>, size: nat, index: nat) {
    index < Chunks(size) && EndOf(index, size) <= |data|
  }

  lemma PieceGrows(data: seq<u8>, data': seq<u8>, size: nat, index: nat)
    requires data <= data' && |data'| <= size && Fixed(data, size, index)
    ensures Piece(data', index) == Piece(data, index) && Fixed(data', size, index)
  {
  }

  lemma PieceSize(data: seq<u8>, size: nat, index: nat)
    requires Fixed(data, size, index) && |data| <= size
    ensures 0 < |Piece(data, index)| <= CHUNK
    ensures index * CHUNK + |Piece(data, index)| == EndOf(index, size)
  {
  }

  /** The piece is chunk `index`, and that chunk is complete. */
  predicate IsChunk(data: seq<u8>, size: nat, index: nat, piece: seq<u8>) {
    Fixed(data, size, index) && piece == Piece(data, index)
  }

  /** Chunks written one after another add up to the bytes of the image. */
  lemma {:induction false} PiecesJoin(data: seq<u8>, size: nat, base: nat, pieces: seq<seq<u8>>)
    requires |data| <= size && pieces != []
    requires forall k :: 0 <= k < |pieces| ==> IsChunk(data, size, base + k, pieces[k])
    ensures base * CHUNK <= Least((base + |pieces|) * CHUNK, size) <= |data|
    ensures Joined(pieces) == data[base * CHUNK..Least((base + |pieces|) * CHUNK, size)]
    decreases pieces
  {
    hide Piece, Fixed, Chunks;
    var rest, here, after := pieces[1..], base * CHUNK, (base + 1) * CHUNK;
    assert IsChunk(data, size, base + 0, pieces[0]);
    ChunkSlice(data, size, base, pieces[0]);
    assert Joined(pieces) == pieces[0] + Joined(rest);
    if rest == [] {
      assert Joined(pieces) == pieces[0];
    } else {
      forall k | 0 <= k < |rest| ensures IsChunk(data, size, base + 1 + k, rest[k]) {
        var j := k + 1;
        assert IsChunk(data, size, base + j, pieces[j]);
      }
      PiecesJoin(data, size, base + 1, rest);
      var end := Least((base + |pieces|) * CHUNK, size);
      assert data[here..after] + data[after..end] == data[here..end];
    }
  }

  /** A chunk with its place in the image. */
  lemma ChunkSlice(data: seq<u8>, size: nat, index: nat, piece: seq<u8>)
    requires IsChunk(data, size, index, piece) && |data| <= size
    ensures index * CHUNK < Least((index + 1) * CHUNK, size) <= |data|
    ensures piece == data[index * CHUNK..Least((index + 1) * CHUNK, size)]
  {
    PieceSize(data, size, index);
  }

  // ---------- Invariants ----------

  /** Bytes a node has written: whole windows only. */
  function Done(a: Air): nat { Least((if a.written then a.base + WINDOW else a.base) * CHUNK, a.size) }

  ghost predicate SlotsOk(rec: Record, a: Air) {
    && |a.slots| == WINDOW
    && forall k :: 0 <= k < WINDOW && a.bitmap[k] ==>
         IsChunk(rec.data, rec.size, a.base + k, a.slots[k])
  }

  /** The stream is the beginning of the image the root was given, in order and without repetition. */
  ghost predicate StreamOk(rec: Record, a: Air, s: Stream) {
    match s
    case Idle => true
    case Active(size, expected, written) =>
      size == rec.size && expected == rec.digest && Done(a) <= |rec.data| && written == rec.data[..Done(a)]
    case Staged(image) => image == rec.data && |rec.data| == rec.size && Digest(image) == rec.digest
  }

  ghost predicate DataOk(rec: Record, m: Member) {
    var a := m.node.air;
    && a.size == rec.size && a.total == Chunks(rec.size) && a.base % WINDOW == 0 && a.base < a.total
    && SlotsOk(rec, a)
    && (a.bitmap == Expected(a.base, a.total) ==> a.written)
    && StreamOk(rec, a, m.node.stream)
    && (Done(a) > 0 ==> m.origin in m.wrote && |m.wrote[m.origin]| >= Done(a))
    && (m.node.stream.Active? ==> m.origin in m.wrote && m.wrote[m.origin] == m.node.stream.written)
    && (m.node.stream.Staged? ==> m.origin in m.held)
  }

  ghost predicate HistoryOk(log: map<Session, Record>, m: Member) {
    && m.began <= m.seen && (forall s :: s in m.seen ==> s in log)
    && (forall s :: s in m.wrote ==> s in m.began && s in log && m.wrote[s] <= log[s].data)
    && (forall s :: s in m.held ==>
          s in log && m.held[s] == log[s].data && |log[s].data| == log[s].size && Digest(m.held[s]) == log[s].digest)
    && (forall s :: s in m.booted ==> s in log && log[s].activating && s in m.held)
  }

  ghost predicate MemberOk(log: map<Session, Record>, m: Member) {
    && HistoryOk(log, m) && |m.node.air.slots| == WINDOW
    && (m.node.stream.Active? ==> m.node.air.active)
    && (m.node.air.active ==>
          m.node.air.session in m.seen && m.origin in m.began && m.origin in log && DataOk(log[m.origin], m) &&
          (m.node.air.session != m.origin ==> m.node.air.session !in m.began))
  }

  /** What is reported about a window is that every chunk of it arrived. */
  predicate FullWindow(log: map<Session, Record>, s: Session, base: nat, bitmap: Bitmap, state: State) {
    state != Error && s in log && base < Chunks(log[s].size) && bitmap == Expected(base, Chunks(log[s].size))
  }

  /** An acknowledgement was true when it was sent, and stays true. */
  ghost predicate AckOk(log: map<Session, Record>, m: Member, ack: Ack) {
    && ack.session in log
    && (ack.state == Ready ==> ack.session in m.began)
    && (ack.state == Verified ==> ack.session in m.held)
    && (FullWindow(log, ack.session, ack.base, ack.bitmap, ack.state) ==> WindowWritten(log, m, ack.session, ack.base))
  }

  ghost predicate WindowWritten(log: map<Session, Record>, m: Member, s: Session, base: nat) {
    s in m.wrote && s in log && |m.wrote[s]| >= Least((base + WINDOW) * CHUNK, log[s].size)
  }

  ghost predicate BodyOk(log: map<Session, Record>, m: Member, to: nat, body: Body) {
    match body
    case BeginBody(b) =>
      b.session in log && b.size == log[b.session].size && b.digest == log[b.session].digest && b.size > 0 &&
      b.chunkSize == CHUNK && b.windowChunks == WINDOW && to in log[b.session].targets && b.session !in m.seen
    case ChunkBody(c) =>
      c.session in log && log[c.session].streaming && to in log[c.session].targets &&
      IsChunk(log[c.session].data, log[c.session].size, c.index, c.data)
    case CommitBody(c) =>
      c.session in log && log[c.session].streaming && to in log[c.session].targets &&
      (c.activate ==> log[c.session].activating)
    case AbortBody => true
  }

  ghost predicate PacketOk(log: map<Session, Record>, members: seq<Member>, p: Packet) {
    match p
    case Down(to, body) => to < |members| && BodyOk(log, members[to], to, body)
    case Up(from, ack) => from < |members| && AckOk(log, members[from], ack)
  }

  ghost predicate RecordOk(members: seq<Member>, s: Session, rec: Record) {
    && rec.size > 0 && |rec.data| <= rec.size && (forall t :: t in rec.targets ==> t < |members|)
    && (rec.streaming ==> forall t :: t in rec.targets ==> s in members[t].began)
    && (rec.activating ==> rec.streaming && forall t :: t in rec.targets ==> s in members[t].held)
  }

  /** The root's table entry for a target of the running session. */
  ghost predicate EntryOk(log: map<Session, Record>, m: Member, s: Session, e: Entry, flushing: bool) {
    && (e.state == Ready ==> s in m.began)
    && (e.state == Verified ==> s in m.held)
    && (flushing && e.base >= 0 && FullWindow(log, s, e.base, e.bitmap, e.state) ==> WindowWritten(log, m, s, e.base))
  }

  ghost predicate RootOk(f: Fleet) {
    var r := f.root;
    r.phase != Off ==>
      r.session in f.log && r.size == f.log[r.session].size && r.targets == f.log[r.session].targets &&
      r.received == |f.log[r.session].data| && r.base % WINDOW == 0 &&
      (r.phase in {Filling, Flushing, Verifying, Activation} ==> f.log[r.session].streaming) &&
      (r.phase == Activation ==> f.log[r.session].activating) &&
      (r.phase == Beginning ==> r.received == 0 && r.base == 0 && r.slots == NoSlots()) &&
      (r.phase in {Filling, Flushing} ==> WindowOk(f.log[r.session], r)) &&
      (forall t :: t in r.targets && t < |f.members| && r.base > 0 ==> Passed(f.members[t], r.session, r.base, r.size)) &&
      (forall t :: t in r.targets && t < |f.members| && t < |f.table| ==>
         EntryOk(f.log, f.members[t], r.session, f.table[t], r.phase == Flushing))
  }

  ghost predicate Holding(data: seq<u8>, base: nat, slots: seq<seq<u8>>) {
    |slots| == WINDOW && forall k :: 0 <= k < WINDOW ==> slots[k] == Piece(data, base + k)
  }

  /** The window holds the chunks received since its start. */
  ghost predicate WindowOk(rec: Record, r: Root) {
    && Holding(rec.data, r.base, r.slots)
    && (r.received == r.size || r.received % CHUNK == 0)
    && (r.phase == Filling ==> r.received == r.size || r.base * CHUNK <= r.received < (r.base + WINDOW) * CHUNK)
    && (r.phase == Flushing ==> r.base < Chunks(r.size) && r.received == Least((r.base + WINDOW) * CHUNK, r.size))
  }

  /** The target has stream-written every byte before chunk `base`. */
  ghost predicate Passed(m: Member, s: Session, base: nat, size: nat) {
    s in m.wrote && |m.wrote[s]| >= Least(base * CHUNK, size)
  }

  ghost predicate Inv(f: Fleet) {
    && |f.table| == |f.members|
    && (forall s :: s in f.log ==> RecordOk(f.members, s, f.log[s]))
    && (forall i :: 0 <= i < |f.members| ==> MemberOk(f.log, f.members[i]))
    && (forall p :: p in f.net ==> PacketOk(f.log, f.members, p))
    && (forall p :: p in f.net && p.Down? && p.body.BeginBody? ==> f.net[p] == 1)
    && RootOk(f)
  }

  // ---------- What a node does to its own invariants ----------

  /** A node's history only grows. */
  ghost predicate Progress(m: Member, m': Member) {
    && m.seen <= m'.seen && m.began <= m'.began
    && (forall s :: s in m.wrote ==> s in m'.wrote && |m.wrote[s]| <= |m'.wrote[s]|)
    && (forall s :: s in m.held ==> s in m'.held)
  }

  ghost predicate Bounded(log: map<Session, Record>) {
    forall s :: s in log ==> |log[s].data| <= log[s].size
  }

  /** A refused announcement only renames the session; the name was never accepted. */
  lemma RelabelOk(log: map<Session, Record>, m: Member, n: Node, s: Session)
    requires s in log && s !in m.seen && MemberOk(log, m)
    requires n == m.node.(air := m.node.air.(session := s)) || n == Reset(m.node).(air := Cleared().(session := s))
    ensures MemberOk(log, m.(node := n, seen := m.seen + {s}))
  {
    assert s !in m.began;
    if n.air.active {
      assert DataOk(log[m.origin], m.(node := n, seen := m.seen + {s}));
    }
  }

  lemma StartOk(log: map<Session, Record>, m: Member, b: BeginMessage, air: Air)
    requires HistoryOk(log, m) && b.session in log && b.session !in m.seen && b.size > 0
    requires b.size == log[b.session].size && b.digest == log[b.session].digest
    requires air == Air(true, b.session, b.size, Chunks(b.size), 0, Nothing(), NoSlots(), false)
    ensures MemberOk(log, Member(Node(air, Active(b.size, b.digest, [])), b.session, m.seen + {b.session},
                                 m.began + {b.session}, m.wrote[b.session := []], m.held, m.booted))
  {
    var m' := Member(Node(air, Active(b.size, b.digest, [])), b.session, m.seen + {b.session},
                     m.began + {b.session}, m.wrote[b.session := []], m.held, m.booted);
    assert b.session !in m.wrote;
    assert !Nothing()[0] && Expected(0, Chunks(b.size))[0];
    assert log[b.session].data[..0] == [];
  }

  lemma BeginOk(log: map<Session, Record>, m: Member, to: nat, b: BeginMessage, x: Fortune)
    requires MemberOk(log, m) && BodyOk(log, m, to, BeginBody(b))
    ensures var r := OnBegin(m.node, b, x.permitted, x.ok);
      MemberOk(log, Recorded(m, BeginBody(b), r)) && Progress(m, Recorded(m, BeginBody(b), r)) &&
      (r.ack.Some? ==> AckOk(log, Recorded(m, BeginBody(b), r), r.ack.value))
  {
    var r := OnBegin(m.node, b, x.permitted, x.ok);
    var m' := Recorded(m, BeginBody(b), r);
    assert m.node.air.active ==> m.node.air.session != b.session;
    if r.ack.value.state == Ready {
      StartOk(log, m, b, r.node.air);
      assert m'.wrote == m.wrote[b.session := []];
      assert !Nothing()[0] && Expected(0, Chunks(b.size))[0];
    } else {
      RelabelOk(log, m, r.node, b.session);
      RefusedHistory(log, m, BeginBody(b), r);
    }
  }

  /** A refused announcement leaves the record of what was written as it was. */
  lemma RefusedHistory(log: map<Session, Record>, m: Member, body: Body, r: Reply)
    requires MemberOk(log, m) && body.BeginBody? && r.ack.Some? && r.ack.value.state == Error
    requires r.node.stream == m.node.stream || r.node.stream.Idle?
    ensures Recorded(m, body, r) == m.(node := r.node, seen := m.seen + {body.begin.session})
  {
    if r.node.stream.Active? {
      assert m.wrote[m.origin := m.node.stream.written] == m.wrote;
    }
  }

  /** Whatever a node says about its current window is true. */
  lemma OwnAck(log: map<Session, Record>, m: Member, state: State)
    requires HistoryOk(log, m) && m.node.air.session == m.origin && m.origin in log && m.origin in m.began
    requires DataOk(log[m.origin], m) && (state == Verified ==> m.origin in m.held)
    ensures AckOk(log, m, Ack(m.node.air.session, m.node.air.base, m.node.air.bitmap, state))
  {
    var a := m.node.air;
    if FullWindow(log, a.session, a.base, a.bitmap, state) {
      assert Done(a) == Least((a.base + WINDOW) * CHUNK, a.size) > 0;
    }
  }

  /** Reporting the image verified: the node holds exactly what the root was given. */
  lemma StagedOk(log: map<Session, Record>, m: Member)
    requires MemberOk(log, m) && Bounded(log) && m.node.air.active && m.node.stream.Active?
    requires |m.node.stream.written| == m.node.stream.size && Digest(m.node.stream.written) == m.node.stream.expected
    ensures var w := m.node.stream.written;
      var m' := m.(node := m.node.(stream := Staged(w)), held := m.held[m.origin := w]);
      MemberOk(log, m') && Progress(m, m') && DataOk(log[m.origin], m')
  {
    hide SlotsOk;
    assert log[m.origin].data[..|log[m.origin].data|] == log[m.origin].data;
  }

  lemma SelectedOk(log: map<Session, Record>, m: Member)
    requires MemberOk(log, m) && m.node.air.active && m.node.stream.Staged? && log[m.origin].activating
    ensures var m' := m.(node := m.node.(stream := Idle), booted := m.booted + {m.origin});
      MemberOk(log, m') && Progress(m, m') && DataOk(log[m.origin], m')
  {
    hide SlotsOk;
  }

  /** A node that was reset in answer to a packet. */
  lemma DroppedOk(log: map<Session, Record>, m: Member, body: Body, r: Reply)
    requires HistoryOk(log, m) && r.node.air == Cleared() && !r.node.stream.Active? && !body.BeginBody?
    requires r.ack.Some? ==> r.ack.value.state == Error && r.ack.value.session in log
    ensures MemberOk(log, Recorded(m, body, r)) && Progress(m, Recorded(m, body, r))
    ensures r.ack.Some? ==> AckOk(log, Recorded(m, body, r), r.ack.value)
  {
  }

  lemma CommitOk(log: map<Session, Record>, m: Member, to: nat, c: CommitMessage, x: Fortune)
    requires MemberOk(log, m) && BodyOk(log, m, to, CommitBody(c)) && Bounded(log)
    requires c.session in log && log[c.session].streaming ==> c.session in m.began
    ensures var r := OnCommit(m.node, c, x.ok);
      MemberOk(log, Recorded(m, CommitBody(c), r)) && Progress(m, Recorded(m, CommitBody(c), r)) &&
      (r.ack.Some? ==> AckOk(log, Recorded(m, CommitBody(c), r), r.ack.value))
  {
    hide DataOk, HistoryOk, AckOk;
    var a, r := m.node.air, OnCommit(m.node, c, x.ok);
    var m' := Recorded(m, CommitBody(c), r);
    if !a.active || a.session != c.session {
      UntouchedOk(log, m, CommitBody(c), r);
    } else if r.ack.value.state == Verified {
      StagedOk(log, m);
      assert m' == m.(node := m.node.(stream := Staged(m.node.stream.written)), held := m.held[m.origin := m.node.stream.written]);
      OwnAck(log, m', Verified);
    } else if r.ack.value.state == Activating {
      SelectedOk(log, m);
      OwnAck(log, m', Activating);
    } else {
      DroppedOk(log, m, CommitBody(c), r);
    }
  }

  /** A packet that changes nothing. */
  lemma UntouchedOk(log: map<Session, Record>, m: Member, body: Body, r: Reply)
    requires MemberOk(log, m) && r.node == m.node && r.ack == None && !body.BeginBody?
    ensures MemberOk(log, Recorded(m, body, r)) && Progress(m, Recorded(m, body, r))
  {
    if m.node.stream.Active? {
      assert m.wrote[m.origin := m.node.stream.written] == m.wrote;
    }
    assert Recorded(m, body, r) == m;
  }

  /** The window stands at a window boundary of the image and holds chunks of it. */
  ghost predicate Placed(rec: Record, b: Air, session: Session) {
    && b.size == rec.size && b.total == Chunks(rec.size) && b.base % WINDOW == 0 && b.base < b.total
    && b.active && b.session == session && SlotsOk(rec, b)
  }

  /** Everything but the obligation to write a window as soon as it is complete. */
  ghost predicate Storing(rec: Record, m: Member, b: Air) {
    Placed(rec, b, m.node.air.session) && Done(b) == Done(m.node.air) && StreamOk(rec, b, m.node.stream)
  }

  lemma TurnedOk(rec: Record, m: Member, base: nat)
    requires DataOk(rec, m) && m.node.air.active && base % WINDOW == 0 && base < Chunks(rec.size)
    requires base == m.node.air.base || (m.node.air.written && base == m.node.air.base + WINDOW)
    ensures Storing(rec, m, Turned(m.node.air, base))
  {
  }

  lemma StoredOk(rec: Record, m: Member, b: Air, index: nat, data: seq<u8>)
    requires Storing(rec, m, b) && |b.slots| == WINDOW
    requires b.base <= index < b.base + WINDOW && IsChunk(rec.data, rec.size, index, data)
    ensures Storing(rec, m, Stored(b, index - b.base, data)) && |Stored(b, index - b.base, data).slots| == WINDOW
  {
    hide StreamOk, IsChunk, SlotsOk;
    var c := Stored(b, index - b.base, data);
    StoredSlots(rec, b, index, data);
    SameStream(rec, b, c, m.node.stream);
  }

  lemma SameStream(rec: Record, b: Air, c: Air, s: Stream)
    requires StreamOk(rec, b, s) && Done(c) == Done(b)
    ensures StreamOk(rec, c, s)
  {
    hide Done;
  }

  lemma StoredSlots(rec: Record, b: Air, index: nat, data: seq<u8>)
    requires SlotsOk(rec, b) && b.base <= index < b.base + WINDOW && IsChunk(rec.data, rec.size, index, data)
    ensures SlotsOk(rec, Stored(b, index - b.base, data))
  {
    hide IsChunk;
    var slot := index - b.base;
    var c := Stored(b, slot, data);
    forall k | 0 <= k < WINDOW && c.bitmap[k] ensures IsChunk(rec.data, rec.size, c.base + k, c.slots[k]) {
      assert k == slot || b.bitmap[k];
    }
  }

  /** Writing a complete window extends the stream by exactly the window's bytes. */
  lemma WindowJoins(rec: Record, m: Member, b: Air, oks: Bitmap)
    requires Storing(rec, m, b) && |rec.data| <= rec.size && b.bitmap == Expected(b.base, b.total) && !b.written
    requires m.node.stream.Active? && |b.slots| == WINDOW
    ensures var count := WindowCount(b.base, b.total);
      var r := WriteAll(m.node.stream, b.slots[..count], oks[..count]);
      r.result == Ok ==> StreamOk(rec, b.(written := true), r.stream) && r.stream.Active?
  {
    hide WriteAll, WindowCount, Joined;
    ExpectedBits(b.base, b.total);
    var count := WindowCount(b.base, b.total);
    var pieces := b.slots[..count];
    WriteAllGrows(m.node.stream, pieces, oks[..count]);
    WindowPieces(rec, b);
    WindowEnd(b.base, rec.size);
    Extend(rec.data, b.base * CHUNK, Least((b.base + WINDOW) * CHUNK, rec.size));
  }

  lemma WindowPieces(rec: Record, b: Air)
    requires SlotsOk(rec, b) && |rec.data| <= rec.size && b.bitmap == Expected(b.base, b.total)
    requires b.total == Chunks(rec.size) && b.base < b.total
    ensures var end := Least((b.base + WINDOW) * CHUNK, rec.size);
      b.base * CHUNK <= end <= |rec.data| &&
      Joined(b.slots[..WindowCount(b.base, b.total)]) == rec.data[b.base * CHUNK..end]
  {
    hide IsChunk;
    var count := WindowCount(b.base, b.total);
    var pieces := b.slots[..count];
    ExpectedBits(b.base, b.total);
    forall k | 0 <= k < |pieces| ensures IsChunk(rec.data, rec.size, b.base + k, pieces[k]) {
      assert b.bitmap[k];
    }
    PiecesJoin(rec.data, rec.size, b.base, pieces);
    WindowEnd(b.base, rec.size);
  }

  lemma Extend(data: seq<u8>, from: nat, to: nat)
    requires from <= to <= |data|
    ensures data[..from] + data[from..to] == data[..to]
  {
  }

  lemma WindowEnd(base: nat, size: nat)
    requires base < Chunks(size)
    ensures Least((base + WindowCount(base, Chunks(size))) * CHUNK, size) == Least((base + WINDOW) * CHUNK, size)
    ensures base * CHUNK < size
  {
  }

  /** A packet after which the node still runs: new air state, new stream. */
  lemma KeptOk(log: map<Session, Record>, m: Member, body: Body, r: Reply)
    requires MemberOk(log, m) && Bounded(log) && m.node.air.active && !body.BeginBody? && m.node.air.session == m.origin
    requires r.ack == AckOf(r.node.air, Receiving)
    requires Placed(log[m.origin], r.node.air, m.node.air.session) && StreamOk(log[m.origin], r.node.air, r.node.stream)
    requires (r.node.stream.Staged? ==> m.node.stream.Staged?) && (r.node.stream.Active? ==> m.node.stream.Active?)
    requires r.node.air.bitmap == Expected(r.node.air.base, r.node.air.total) ==> r.node.air.written
    requires Done(r.node.air) == Done(m.node.air) || r.node.stream.Active?
    requires Done(r.node.air) >= Done(m.node.air)
    ensures var m' := Recorded(m, body, r); MemberOk(log, m') && Progress(m, m') && AckOk(log, m', r.ack.value)
  {
    var m' := Recorded(m, body, r);
    assert m'.node == r.node && m'.origin == m.origin && m'.held == m.held && m'.began == m.began;
    assert m'.wrote == if r.node.stream.Active? then m.wrote[m.origin := r.node.stream.written] else m.wrote;
    assert DataOk(log[m.origin], m');
    OwnAck(log, m', Receiving);
  }

  lemma ChunkOk(log: map<Session, Record>, m: Member, to: nat, c: ChunkMessage, x: Fortune)
    requires MemberOk(log, m) && BodyOk(log, m, to, ChunkBody(c)) && Bounded(log)
    requires c.session in log && log[c.session].streaming ==> c.session in m.began
    ensures var r := OnChunk(m.node, c, x.oks);
      MemberOk(log, Recorded(m, ChunkBody(c), r)) && Progress(m, Recorded(m, ChunkBody(c), r)) &&
      (r.ack.Some? ==> AckOk(log, Recorded(m, ChunkBody(c), r), r.ack.value))
  {
    hide HistoryOk, AckOk, StreamOk, SlotsOk, WriteAll, Stored, IsChunk, Progress, Turned, WindowCount, Expected, Recorded;
    var a, r := m.node.air, OnChunk(m.node, c, x.oks);
    var base := (c.index / WINDOW) * WINDOW;
    if !a.active || c.session != a.session || r.ack == None {
      UntouchedOk(log, m, ChunkBody(c), r);
    } else if base != a.base && (!a.written || base != a.base + WINDOW) {
      TurnedOk(log[m.origin], m, a.base);
      TurnedSame(a);
      KeptOk(log, m, ChunkBody(c), r);
    } else {
      var rec := log[m.origin];
      ChunkFits(rec, c.index, c.data);
      TurnedOk(rec, m, base);
      TurnedBase(a, base);
      var b := Stored(Turned(a, base), c.index - base, c.data);
      StoredOk(rec, m, Turned(a, base), c.index, c.data);
      SettledOk(log, m, c, x.oks, b);
    }
  }

  lemma TurnedSame(a: Air)
    ensures Turned(a, a.base) == a
  {
  }

  lemma TurnedBase(a: Air, base: nat)
    ensures Turned(a, base).base == base && |Turned(a, base).slots| == if base == a.base then |a.slots| else WINDOW
  {
  }

  lemma ChunkFits(rec: Record, index: nat, data: seq<u8>)
    requires |rec.data| <= rec.size && IsChunk(rec.data, rec.size, index, data)
    ensures index < Chunks(rec.size) && 0 < |data| <= CHUNK
  {
    PieceSize(rec.data, rec.size, index);
  }

  /** After a chunk was stored: the window is written if it is complete. */
  lemma SettledOk(log: map<Session, Record>, m: Member, c: ChunkMessage, oks: Bitmap, b: Air)
    requires MemberOk(log, m) && Bounded(log) && m.node.air.active && m.node.air.session == m.origin
    requires Storing(log[m.origin], m, b) && |b.slots| == WINDOW
    requires Done(b.(written := true)) >= Done(m.node.air)
    ensures var r := Settled(b, m.node.stream, oks);
      MemberOk(log, Recorded(m, ChunkBody(c), r)) && Progress(m, Recorded(m, ChunkBody(c), r)) &&
      (r.ack.Some? ==> AckOk(log, Recorded(m, ChunkBody(c), r), r.ack.value))
  {
    hide HistoryOk, AckOk, StreamOk, SlotsOk, WriteAll, IsChunk, Progress, WindowCount, Expected, Recorded;
    var r := Settled(b, m.node.stream, oks);
    var rec := log[m.origin];
    var count := WindowCount(b.base, b.total);
    if b.bitmap == Expected(b.base, b.total) && !b.written {
      if r.ack.value.state == Error {
        DroppedOk(log, m, ChunkBody(c), r);
      } else {
        assert m.node.stream.Active? by { WindowNeedsStream(m.node.stream, b, oks); }
        WindowJoins(rec, m, b, oks);
        assert Placed(rec, r.node.air, m.node.air.session) by { WrittenPlaced(rec, b, m.node.air.session); }
        KeptOk(log, m, ChunkBody(c), r);
      }
    } else {
      KeptOk(log, m, ChunkBody(c), r);
    }
  }

  lemma WrittenPlaced(rec: Record, b: Air, session: Session)
    requires Placed(rec, b, session)
    ensures Placed(rec, b.(written := true), session)
  {
  }

  lemma WindowNeedsStream(s: Stream, b: Air, oks: Bitmap)
    requires b.base < b.total && |b.slots| == WINDOW
    requires WriteAll(s, b.slots[..WindowCount(b.base, b.total)], oks[..WindowCount(b.base, b.total)]).result == Ok
    ensures s.Active?
  {
  }

  // ---------- The rest of the fleet ----------

  /** Records only grow. */
  ghost predicate Extends(log: map<Session, Record>, log': map<Session, Record>) {
    forall s :: s in log ==>
      s in log' && log'[s].size == log[s].size && log'[s].digest == log[s].digest &&
      log'[s].targets == log[s].targets && log[s].data <= log'[s].data && |log'[s].data| <= log'[s].size &&
      (log[s].streaming ==> log'[s].streaming) && (log[s].activating ==> log'[s].activating)
  }

  lemma ChunkStays(rec: Record, rec': Record, index: nat, piece: seq<u8>)
    requires IsChunk(rec.data, rec.size, index, piece)
    requires rec.data <= rec'.data && rec'.size == rec.size && |rec'.data| <= rec.size
    ensures IsChunk(rec'.data, rec'.size, index, piece)
  {
    PieceGrows(rec.data, rec'.data, rec.size, index);
  }

  lemma MemberExtends(log: map<Session, Record>, log': map<Session, Record>, m: Member)
    requires MemberOk(log, m) && Extends(log, log')
    ensures MemberOk(log', m)
  {
    HistoryExtends(log, log', m);
    hide HistoryOk, IsChunk;
    if m.node.air.active {
      var rec, rec', a := log[m.origin], log'[m.origin], m.node.air;
      forall k | 0 <= k < WINDOW && a.bitmap[k] ensures IsChunk(rec'.data, rec'.size, a.base + k, a.slots[k]) {
        ChunkStays(rec, rec', a.base + k, a.slots[k]);
      }
    }
  }

  lemma HistoryExtends(log: map<Session, Record>, log': map<Session, Record>, m: Member)
    requires HistoryOk(log, m) && Extends(log, log')
    ensures HistoryOk(log', m)
  {
  }

  lemma AckExtends(log: map<Session, Record>, log': map<Session, Record>, m: Member, m': Member, ack: Ack)
    requires AckOk(log, m, ack) && Extends(log, log') && Progress(m, m')
    ensures AckOk(log', m', ack)
  {
  }

  lemma BodyExtends(log: map<Session, Record>, log': map<Session, Record>, m: Member, m': Member, to: nat, body: Body)
    requires BodyOk(log, m, to, body) && Extends(log, log')
    requires body.BeginBody? && body.begin.session in m'.seen ==> body.begin.session in m.seen
    ensures BodyOk(log', m', to, body)
  {
    hide IsChunk;
    if body.ChunkBody? {
      ChunkStays(log[body.chunk.session], log'[body.chunk.session], body.chunk.index, body.chunk.data);
    }
  }

  // ---------- Steps that do not touch the nodes ----------

  lemma ProgressNone(m: Member)
    ensures Progress(m, m)
  {
  }

  /** Records grow, packets come and go; the nodes stay as they are. */
  lemma QuietStep(f: Fleet, f': Fleet)
    requires Inv(f) && f'.members == f.members && |f'.table| == |f.table| && Extends(f.log, f'.log)
    requires forall s :: s in f'.log ==> RecordOk(f'.members, s, f'.log[s])
    requires forall p :: p in f'.net ==> p in f.net || PacketOk(f'.log, f'.members, p)
    requires forall p :: p in f'.net && p.Down? && p.body.BeginBody? ==> f'.net[p] == 1
    requires RootOk(f')
    ensures Inv(f')
  {
    hide RecordOk, MemberOk, RootOk, AckOk, BodyOk, Extends;
    forall i | 0 <= i < |f'.members| ensures MemberOk(f'.log, f'.members[i]) {
      MemberExtends(f.log, f'.log, f.members[i]);
    }
    forall p | p in f'.net ensures PacketOk(f'.log, f'.members, p) {
      if p in f.net {
        assert PacketOk(f.log, f.members, p);
        PacketExtends(f.log, f'.log, f.members, p);
      }
    }
  }

  lemma PacketExtends(log: map<Session, Record>, log': map<Session, Record>, members: seq<Member>, p: Packet)
    requires PacketOk(log, members, p) && Extends(log, log')
    ensures PacketOk(log', members, p)
  {
    match p
    case Down(to, body) => BodyExtends(log, log', members[to], members[to], to, body);
    case Up(from, ack) =>
      ProgressNone(members[from]);
      AckExtends(log, log', members[from], members[from], ack);
  }

  lemma ExtendsSame(f: Fleet)
    requires Inv(f)
    ensures Extends(f.log, f.log) && Bounded(f.log)
  {
    forall s | s in f.log ensures |f.log[s].data| <= f.log[s].size {
      assert RecordOk(f.members, s, f.log[s]);
    }
  }

  lemma LosePreserves(f: Fleet, p: Packet)
    requires Inv(f)
    ensures Inv(Lose(f, p))
  {
    hide RootOk, PacketOk, MemberOk, RecordOk;
    ExtendsSame(f);
    var f' := Lose(f, p);
    assert forall q :: q in f'.net ==> q in f.net;
    assert RootOk(f') by { RootSame(f, f'); }
    QuietStep(f, f');
  }

  lemma RootSame(f: Fleet, f': Fleet)
    requires RootOk(f) && f'.root == f.root && f'.table == f.table && f'.members == f.members && f'.log == f.log
    ensures RootOk(f')
  {
  }

  /** Adding one copy of a packet for every target. */
  lemma CopiesOk(f: Fleet, f': Fleet, body: Body)
    requires Inv(f) && f'.members == f.members && f'.net == f.net + Copies(|f.members|, f'.root.targets, body)
    requires forall t :: t in f'.root.targets && t < |f.members| ==> BodyOk(f'.log, f'.members[t], t, body)
    requires body.BeginBody? ==> body.begin.session !in f.log
    ensures forall p :: p in f'.net ==> p in f.net || PacketOk(f'.log, f'.members, p)
    ensures forall p :: p in f'.net && p.Down? && p.body.BeginBody? ==> f'.net[p] == 1
  {
    hide RootOk, MemberOk, RecordOk, AckOk;
    forall p | p in f'.net
      ensures p in f.net || PacketOk(f'.log, f'.members, p)
      ensures p.Down? && p.body.BeginBody? ==> f'.net[p] == 1
    {
      CopiesMember(|f.members|, f'.root.targets, body, p);
      assert p in f.net ==> PacketOk(f.log, f.members, p);
    }
  }

  lemma AnnouncePreserves(f: Fleet, session: Session, size: nat, digest: Digest, targets: set<nat>)
    requires Inv(f)
    ensures Inv(RootBegin(f, session, size, digest, targets))
  {
    hide MemberOk, PacketOk;
    var f' := RootBegin(f, session, size, digest, targets);
    if f' != f {
      ExtendsSame(f);
      var body := BeginBody(BeginMessage(session, size, digest, CHUNK, WINDOW));
      forall t | t in targets && t < |f.members| ensures BodyOk(f'.log, f'.members[t], t, body) {
        assert MemberOk(f.log, f.members[t]);
        UnseenSession(f.log, f.members[t], session);
      }
      CopiesOk(f, f', body);
      assert RootOk(f') by { hide RecordOk; }
      assert Extends(f.log, f'.log);
      QuietStep(f, f');
    }
  }

  lemma UnseenSession(log: map<Session, Record>, m: Member, s: Session)
    requires MemberOk(log, m) && s !in log
    ensures s !in m.seen
  {
  }

  lemma ReadyPreserves(f: Fleet)
    requires Inv(f)
    ensures Inv(RootReady(f))
  {
    hide MemberOk, PacketOk;
    var f' := RootReady(f);
    if f' != f {
      ExtendsSame(f);
      var r, rec := f.root, f.log[f.root.session];
      forall t | t in rec.targets ensures r.session in f.members[t].began {
        assert EntryOk(f.log, f.members[t], r.session, f.table[t], false);
      }
      assert forall k :: 0 <= k < WINDOW ==> NoSlots()[k] == Piece([], 0 + k);
      assert rec.data == [];
      QuietStep(f, f');
    }
  }

  lemma AbortPreserves(f: Fleet)
    requires Inv(f)
    ensures Inv(RootAbort(f))
  {
    hide MemberOk, PacketOk, RecordOk;
    var f' := RootAbort(f);
    if f' != f {
      ExtendsSame(f);
      CopiesOk(f, f', AbortBody);
      QuietStep(f, f');
    }
  }

  lemma EndPreserves(f: Fleet)
    requires Inv(f)
    ensures Inv(RootEnd(f))
  {
    hide MemberOk, PacketOk, RecordOk;
    ExtendsSame(f);
    if RootEnd(f) != f {
      QuietStep(f, RootEnd(f));
    }
  }

  lemma FinishPreserves(f: Fleet)
    requires Inv(f)
    ensures Inv(RootFinish(f))
  {
    hide MemberOk, PacketOk, RecordOk;
    var f' := RootFinish(f);
    if f' != f {
      ExtendsSame(f);
      CopiesOk(f, f', CommitBody(CommitMessage(f.root.session, false)));
      QuietStep(f, f');
    }
  }

  lemma VerifiedPreserves(f: Fleet)
    requires Inv(f)
    ensures Inv(RootVerified(f))
  {
    hide MemberOk, PacketOk;
    var f' := RootVerified(f);
    if f' != f {
      ExtendsSame(f);
      var r, rec := f.root, f.log[f.root.session];
      forall t | t in rec.targets ensures r.session in f.members[t].held {
        assert EntryOk(f.log, f.members[t], r.session, f.table[t], false);
      }
      QuietStep(f, f');
    }
  }

  lemma ActivatePreserves(f: Fleet, to: nat)
    requires Inv(f)
    ensures Inv(RootActivate(f, to))
  {
    hide MemberOk;
    var f' := RootActivate(f, to);
    if f' != f {
      ExtendsSame(f);
      assert RecordOk(f.members, f.root.session, f.log[f.root.session]);
      QuietStep(f, f');
    }
  }

  /** The next chunk lands in its slot of the window. */
  lemma WindowFills(rec: Record, r: Root, data: seq<u8>)
    requires WindowOk(rec, r) && r.phase == Filling && r.received == |rec.data| < r.size == rec.size
    requires 0 < |data| <= CHUNK && r.received + |data| <= r.size
    requires r.received + |data| < r.size ==> |data| == CHUNK
    ensures var slot := r.received / CHUNK - r.base;
      0 <= slot < WINDOW && Holding(rec.data + data, r.base, r.slots[slot := data]) &&
      (slot == WINDOW - 1 || r.received + |data| == r.size ==>
         r.base < Chunks(r.size) && r.received + |data| == Least((r.base + WINDOW) * CHUNK, r.size)) &&
      (slot < WINDOW - 1 && r.received + |data| < r.size ==>
         r.base * CHUNK <= r.received + |data| < (r.base + WINDOW) * CHUNK && (r.received + |data|) % CHUNK == 0)
  {
    hide Piece;
    var slot := r.received / CHUNK - r.base;
    var slots := r.slots[slot := data];
    forall k | 0 <= k < WINDOW ensures slots[k] == Piece(rec.data + data, r.base + k) {
      PieceAppended(rec.data, data, r.base + k);
    }
  }

  lemma PieceAppended(old_: seq<u8>, data: seq<u8>, index: nat)
    requires |old_| % CHUNK == 0 && |data| <= CHUNK
    ensures Piece(old_ + data, index) == if index == |old_| / CHUNK then data else Piece(old_, index)
  {
    if index < |old_| / CHUNK {
      assert (old_ + data)[index * CHUNK..index * CHUNK + CHUNK] == old_[index * CHUNK..index * CHUNK + CHUNK];
    }
  }

  predicate WriteTaken(f: Fleet, data: seq<u8>) {
    var r := f.root;
    r.phase == Filling && r.session in f.log && 0 < |data| <= CHUNK && r.received + |data| <= r.size &&
    (r.received + |data| < r.size ==> |data| == CHUNK)
  }

  lemma WriteRootOk(f: Fleet, data: seq<u8>)
    requires RootOk(f) && WriteTaken(f, data) && |f.table| == |f.members|
    ensures RootOk(RootWrite(f, data)) && RootWrite(f, data).root.phase in {Filling, Flushing}
    ensures RootWrite(f, data).net == f.net && RootWrite(f, data).members == f.members
    ensures RootWrite(f, data).log ==
      f.log[f.root.session := f.log[f.root.session].(data := f.log[f.root.session].data + data)]
  {
    hide Piece;
    var f', r := RootWrite(f, data), f.root;
    WindowFills(f.log[r.session], r, data);
    assert WindowOk(f'.log[r.session], f'.root);
    forall t | t in r.targets && t < |f.members| && t < |f.table|
      ensures EntryOk(f'.log, f.members[t], r.session, f'.table[t], f'.root.phase == Flushing)
    {
      assert EntryOk(f.log, f.members[t], r.session, f.table[t], false);
    }
  }

  lemma WritePreserves(f: Fleet, data: seq<u8>)
    requires Inv(f)
    ensures Inv(RootWrite(f, data))
  {
    AbortPreserves(f);
    if WriteTaken(f, data) {
      ExtendsSame(f);
      WriteRootOk(f, data);
      assert RecordOk(f.members, f.root.session, f.log[f.root.session]);
      WriteReceived(f);
      WriteQuiet(f, RootWrite(f, data), data);
    }
  }

  lemma WriteQuiet(f: Fleet, f': Fleet, data: seq<u8>)
    requires Inv(f) && RootOk(f') && f'.members == f.members && f'.net == f.net && |f'.table| == |f.table|
    requires f.root.session in f.log && |f.log[f.root.session].data + data| <= f.log[f.root.session].size
    requires f'.log == f.log[f.root.session := f.log[f.root.session].(data := f.log[f.root.session].data + data)]
    ensures Inv(f')
  {
    hide MemberOk, PacketOk, RootOk;
    ExtendsSame(f);
    assert RecordOk(f.members, f.root.session, f.log[f.root.session]);
    QuietStep(f, f');
  }

  lemma WriteReceived(f: Fleet)
    requires RootOk(f) && f.root.phase != Off
    ensures f.root.received == |f.log[f.root.session].data| && f.root.size == f.log[f.root.session].size
  {
  }

  lemma SendPreserves(f: Fleet, to: nat, slot: nat)
    requires Inv(f)
    ensures Inv(RootSend(f, to, slot))
  {
    hide MemberOk, Piece;
    var f', r := RootSend(f, to, slot), f.root;
    if f' != f {
      ExtendsSame(f);
      WindowEnd(r.base, r.size);
      assert r.slots[slot] == Piece(f.log[r.session].data, r.base + slot);
      assert Fixed(f.log[r.session].data, r.size, r.base + slot);
      assert RecordOk(f.members, r.session, f.log[r.session]);
      QuietStep(f, f');
    }
  }

  lemma AdvancePreserves(f: Fleet)
    requires Inv(f)
    ensures Inv(RootAdvance(f))
  {
    hide MemberOk, PacketOk, RecordOk, Expected;
    var f', r := RootAdvance(f), f.root;
    if f' != f {
      ExtendsSame(f);
      forall t | t in r.targets && t < |f.members| ensures Passed(f.members[t], r.session, r.base + WINDOW, r.size) {
        assert EntryOk(f.log, f.members[t], r.session, f.table[t], true);
      }
      forall k | 0 <= k < WINDOW ensures NoSlots()[k] == Piece(f.log[r.session].data, r.base + WINDOW + k) {
      }
      QuietStep(f, f');
    }
  }

  lemma UpPreserves(f: Fleet, p: Packet)
    requires Inv(f) && p.Up?
    ensures Inv(DeliverUp(f, p))
  {
    hide MemberOk, RecordOk;
    var f' := DeliverUp(f, p);
    if f' != f {
      ExtendsSame(f);
      assert PacketOk(f.log, f.members, p);
      assert forall q :: q in f'.net ==> q in f.net;
      QuietStep(f, f');
    }
  }

  // ---------- Steps of the nodes ----------

  lemma HandledOk(log: map<Session, Record>, m: Member, to: nat, body: Body, x: Fortune)
    requires MemberOk(log, m) && BodyOk(log, m, to, body) && Bounded(log)
    requires forall s :: s in log && log[s].streaming && to in log[s].targets ==> s in m.began
    ensures var r := Handled(m.node, body, x); var m' := Recorded(m, body, r);
      MemberOk(log, m') && Progress(m, m') && (r.ack.Some? ==> AckOk(log, m', r.ack.value)) &&
      m'.seen == if body.BeginBody? then m.seen + {body.begin.session} else m.seen
  {
    hide MemberOk, AckOk, OnBegin, OnChunk, OnCommit;
    match body
    case BeginBody(b) => BeginOk(log, m, to, b, x);
    case ChunkBody(c) => ChunkOk(log, m, to, c, x);
    case CommitBody(c) => CommitOk(log, m, to, c, x);
    case AbortBody => AbortedOk(log, m);
  }

  lemma AbortedOk(log: map<Session, Record>, m: Member)
    requires MemberOk(log, m)
    ensures MemberOk(log, Recorded(m, AbortBody, Reply(OnAbort(m.node), None)))
    ensures Progress(m, Recorded(m, AbortBody, Reply(OnAbort(m.node), None)))
  {
    DroppedOk(log, m, AbortBody, Reply(OnAbort(m.node), None));
  }

  ghost predicate NewlySeen(m: Member, m': Member, body: Body) {
    body.BeginBody? && body.begin.session in m'.seen && body.begin.session !in m.seen
  }

  /** One node changed, and its history grew. */
  lemma NodeStep(f: Fleet, f': Fleet, i: nat)
    requires Inv(f) && i < |f.members| && |f'.members| == |f.members| && f'.root == f.root && f'.table == f.table
    requires f'.log == f.log && f'.members == f.members[i := f'.members[i]]
    requires MemberOk(f.log, f'.members[i]) && Progress(f.members[i], f'.members[i])
    requires forall p :: p in f'.net ==> p in f.net || PacketOk(f.log, f'.members, p)
    requires forall p :: p in f'.net && p.Down? && p.body.BeginBody? ==> f'.net[p] == 1
    requires forall p :: p in f'.net && p.Down? && p.to == i ==> !NewlySeen(f.members[i], f'.members[i], p.body)
    ensures Inv(f')
  {
    hide MemberOk, AckOk, BodyOk;
    ExtendsSame(f);
    forall s | s in f'.log ensures RecordOk(f'.members, s, f'.log[s]) {
      assert RecordOk(f.members, s, f.log[s]);
    }
    forall p | p in f'.net ensures PacketOk(f'.log, f'.members, p) {
      if p in f.net {
        assert PacketOk(f.log, f.members, p);
        PacketProgress(f.log, f.members, f'.members, i, p);
      }
    }
    forall j | 0 <= j < |f'.members| ensures Progress(f.members[j], f'.members[j]) {
      ProgressNone(f.members[j]);
    }
  }

  lemma PacketProgress(log: map<Session, Record>, members: seq<Member>, members': seq<Member>, i: nat, p: Packet)
    requires PacketOk(log, members, p) && Extends(log, log) && i < |members| == |members'|
    requires members' == members[i := members'[i]] && Progress(members[i], members'[i])
    requires p.Down? && p.to == i ==> !NewlySeen(members[i], members'[i], p.body)
    ensures PacketOk(log, members', p)
  {
    match p
    case Down(to, body) => BodyExtends(log, log, members[to], members'[to], to, body);
    case Up(from, ack) =>
      ProgressNone(members[from]);
      AckExtends(log, log, members[from], members'[from], ack);
  }

  lemma RebootPreserves(f: Fleet, i: nat)
    requires Inv(f)
    ensures Inv(Reboot(f, i))
  {
    hide RootOk, PacketOk, RecordOk;
    if i < |f.members| {
      assert MemberOk(f.log, f.members[i]);
      NodeStep(f, Reboot(f, i), i);
    }
  }

  lemma DownPreserves(f: Fleet, p: Packet, x: Fortune)
    requires Inv(f) && p.Down?
    ensures Inv(DeliverDown(f, p, x))
  {
    hide MemberOk, RootOk, AckOk, Handled, Recorded, RecordOk;
    var f' := DeliverDown(f, p, x);
    if p in f.net && f' != f {
      ExtendsSame(f);
      var m := f.members[p.to];
      assert PacketOk(f.log, f.members, p) && MemberOk(f.log, m);
      forall s | s in f.log && f.log[s].streaming && p.to in f.log[s].targets ensures s in m.began {
        StreamingBegan(f, s, p.to);
      }
      HandledOk(f.log, m, p.to, p.body, x);
      SeenOnce(f, f', p, x);
      NodeStep(f, f', p.to);
    }
  }

  lemma StreamingBegan(f: Fleet, s: Session, t: nat)
    requires Inv(f) && s in f.log && f.log[s].streaming && t in f.log[s].targets
    ensures t < |f.members| && s in f.members[t].began
  {
    assert RecordOk(f.members, s, f.log[s]);
  }

  /** The announcement just delivered was the only one of its session for this node. */
  lemma SeenOnce(f: Fleet, f': Fleet, p: Packet, x: Fortune)
    requires Inv(f) && p.Down? && p in f.net && f' == DeliverDown(f, p, x) && p.to < |f.members|
    requires |f.members[p.to].node.air.slots| == WINDOW
    ensures forall q :: q in f'.net && q.Down? && q.to == p.to ==> !NewlySeen(f.members[p.to], f'.members[p.to], q.body)
  {
    hide MemberOk, RootOk, AckOk, RecordOk, Handled;
    assert PacketOk(f.log, f.members, p);
    forall q | q in f'.net && q.Down? && q.to == p.to
      ensures !NewlySeen(f.members[p.to], f'.members[p.to], q.body)
    {
      assert q in f.net && PacketOk(f.log, f.members, q);
    }
  }

  // ---------- Reachable states ----------

  lemma StepPreserves(f: Fleet, e: Event)
    requires Inv(f)
    ensures Inv(Step(f, e))
  {
    hide Inv;
    match e
    case Announce(session, size, digest, targets) => AnnouncePreserves(f, session, size, digest, targets);
    case Accepted => ReadyPreserves(f);
    case Feed(data) => WritePreserves(f, data);
    case Distribute(to, slot) => SendPreserves(f, to, slot);
    case Advance => AdvancePreserves(f);
    case Finish => FinishPreserves(f);
    case AllVerified => VerifiedPreserves(f);
    case ActivateNode(to) => ActivatePreserves(f, to);
    case End => EndPreserves(f);
    case Cancel => AbortPreserves(f);
    case Arrive(p, x) =>
      if p.Down? {
        DownPreserves(f, p, x);
      } else {
        UpPreserves(f, p);
      }
    case Vanish(p) => LosePreserves(f, p);
    case Restart(i) => RebootPreserves(f, i);
  }

  lemma {:induction false} RunPreserves(f: Fleet, es: seq<Event>)
    requires Inv(f)
    ensures Inv(Run(f, es))
    decreases es
  {
    hide Inv, Step;
    if es != [] {
      StepPreserves(f, es[0]);
      RunPreserves(Step(f, es[0]), es[1..]);
    }
  }

  /** n nodes, nothing sent yet. */
  function Start(n: nat): Fleet {
    Fleet(Root(Off, 0, 0, 0, 0, NoSlots(), {}), seq(n, _ => Entry(-1, Nothing(), IdleState)),
          seq(n, _ => Member(Node(Cleared(), Idle), 0, {}, {}, map[], map[], {})), multiset{}, map[])
  }

  lemma StartOkay(n: nat)
    ensures Inv(Start(n))
  {
  }

  // ---------- What follows ----------

  /** In every reachable state: the bytes a node wrote for a session are the beginning of what the root was
      given for it, and a stream still being written holds just these bytes: in order, each exactly once. */
  lemma TransferExact(n: nat, es: seq<Event>, i: nat, s: Session)
    requires i < |Run(Start(n), es).members|
    ensures
      var f := Run(Start(n), es);
      var m := f.members[i];
      (s in m.wrote ==> s in f.log && m.wrote[s] <= f.log[s].data) &&
      (m.node.stream.Active? ==> m.origin in m.wrote && m.node.stream.written == m.wrote[m.origin])
  {
    StartOkay(n);
    RunPreserves(Start(n), es);
    assert MemberOk(Run(Start(n), es).log, Run(Start(n), es).members[i]);
  }

  /** When the root has moved past a window, every target has written all bytes up to that window's end. */
  lemma MovedPastWritten(n: nat, es: seq<Event>, t: nat)
    requires
      var f := Run(Start(n), es);
      f.root.phase != Off && f.root.base > 0 && t in f.root.targets && t < |f.members|
    ensures
      var f := Run(Start(n), es);
      var s := f.root.session;
      s in f.log && s in f.members[t].wrote && f.members[t].wrote[s] <= f.log[s].data &&
      |f.members[t].wrote[s]| >= Least(f.root.base * CHUNK, f.root.size)
  {
    StartOkay(n);
    RunPreserves(Start(n), es);
    var f := Run(Start(n), es);
    assert MemberOk(f.log, f.members[t]);
    assert Passed(f.members[t], f.root.session, f.root.base, f.root.size);
  }

  /** A verification report is only ever sent by a node that holds the whole announced image. */
  lemma VerifiedMeansWhole(n: nat, es: seq<Event>, p: Packet)
    requires p in Run(Start(n), es).net && p.Up? && p.ack.state == Verified
    ensures
      var f := Run(Start(n), es);
      p.from < |f.members| && Holds(f, p.from, p.ack.session)
  {
    StartOkay(n);
    RunPreserves(Start(n), es);
    var f := Run(Start(n), es);
    assert PacketOk(f.log, f.members, p);
    assert MemberOk(f.log, f.members[p.from]);
  }

  /** The node reported an image verified that is, byte for byte, the one the root was given and announced. */
  predicate Holds(f: Fleet, i: nat, s: Session) {
    i < |f.members| && s in f.log && s in f.members[i].held && f.members[i].held[s] == f.log[s].data &&
    |f.log[s].data| == f.log[s].size && Digest(f.log[s].data) == f.log[s].digest
  }

  /** No node selects its staged image before every target of that session holds the whole image. */
  lemma ActivationSafe(n: nat, es: seq<Event>, i: nat, s: Session)
    requires i < |Run(Start(n), es).members| && s in Run(Start(n), es).members[i].booted
    ensures
      var f := Run(Start(n), es);
      Holds(f, i, s) && forall t :: t in f.log[s].targets ==> Holds(f, t, s)
  {
    StartOkay(n);
    RunPreserves(Start(n), es);
    var f := Run(Start(n), es);
    assert MemberOk(f.log, f.members[i]);
    assert RecordOk(f.members, s, f.log[s]);
    forall t | t in f.log[s].targets ensures Holds(f, t, s) {
      assert MemberOk(f.log, f.members[t]);
    }
  }
}
