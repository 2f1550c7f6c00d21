/** A whole fleet during firmware distribution: the root, its nodes, and a network that loses, delays and
    reorders packets. Replay protection makes the network deliver each packet at most once. */
module MeshOtaFleet {
  import opened Bits
  import opened OtaStream
  import opened MeshOtaNode

  // ---------- State ----------

  datatype Phase = Off | Beginning | Filling | Flushing | Verifying | Activation

  /** What the root remembers of a node's last acknowledgement. */
  datatype Entry = Entry(base: int, bitmap: Bitmap, state: State)

  datatype Root = Root(phase: Phase, session: Session, size: nat, received: nat, base: nat,
                       slots: seq<seq<u8>>, targets: set<nat>)

  datatype Body =
    | BeginBody(begin: BeginMessage)
    | ChunkBody(chunk: ChunkMessage)
    | CommitBody(commit: CommitMessage)
    | AbortBody

  datatype Packet = Down(to: nat, body: Body) | Up(from: nat, ack: Ack)

  /** History, for stating what happened; no device reads it. Per session: what was announced, the bytes the
      root was given, and how far the root got. */
  datatype Record = Record(size: nat, digest: Digest, targets: set<nat>, data: seq<u8>, streaming: bool, activating: bool)

  /** A node with its history: the session its stream was begun for, the sessions whose announcement reached
      it, those it accepted, what it wrote, what it reported verified, and what it selected for booting. */
  datatype Member = Member(node: Node, origin: Session, seen: set<Session>, began: set<Session>,
                           wrote: map<Session, seq<u8>>, held: map<Session, seq<u8>>, booted: set<Session>)

  datatype Fleet = Fleet(root: Root, table: seq<Entry>, members: seq<Member>, net: multiset<Packet>,
                         log: map<Session, Record>)

  // ---------- Sending ----------

  /** One copy for each target among the first n nodes. */
  function Copies(n: nat, targets: set<nat>, body: Body): multiset<Packet> {
    if n == 0 then multiset{}
    else Copies(n - 1, targets, body) + (if n - 1 in targets then multiset{Down(n - 1, body)} else multiset{})
  }

  lemma {:induction false} CopiesMember(n: nat, targets: set<nat>, body: Body, p: Packet)
    ensures p in Copies(n, targets, body) <==> p.Down? && p.body == body && p.to < n && p.to in targets
    ensures Copies(n, targets, body)[p] <= 1
  {
    if n > 0 {
      CopiesMember(n - 1, targets, body, p);
    }
  }

  function Piece(data: seq<u8>, index: nat): seq<u8>
  {
    if index * CHUNK >= |data| then []
    else if index * CHUNK + CHUNK <= |data| then data[index * CHUNK..index * CHUNK + CHUNK]
    else data[index * CHUNK..]
  }

  function Marked(table: seq<Entry>, targets: set<nat>, e: Entry): seq<Entry> {
    seq(|table|, i requires 0 <= i < |table| => if i in targets then e else table[i])
  }

  function Renamed(table: seq<Entry>, targets: set<nat>, state: State): seq<Entry> {
    seq(|table|, i requires 0 <= i < |table| => if i in targets then table[i].(state := state) else table[i])
  }

  predicate AllIn(f: Fleet, state: State) {
    forall i :: 0 <= i < |f.table| && i in f.root.targets ==> f.table[i].state == state
  }

  // ---------- Steps of the root ----------

  /** airlink_mesh_ota_begin: announces the image to the targets. Session numbers do not repeat. */
  function RootBegin(f: Fleet, session: Session, size: nat, digest: Digest, targets: set<nat>): Fleet {
    if f.root.phase != Off || size == 0 || session in f.log || (exists t :: t in targets && t >= |f.members|) then f
    else
      var body := BeginBody(BeginMessage(session, size, digest, CHUNK, WINDOW));
      f.(root := Root(Beginning, session, size, 0, 0, NoSlots(), targets),
         table := Renamed(f.table, targets, IdleState),
         net := f.net + Copies(|f.members|, targets, body),
         log := f.log[session := Record(size, digest, targets, [], false, false)])
  }

  /** Every target reported ready. */
  function RootReady(f: Fleet): Fleet {
    if f.root.phase != Beginning || !AllIn(f, Ready) || f.root.session !in f.log then f
    else f.(root := f.root.(phase := Filling),
            log := f.log[f.root.session := f.log[f.root.session].(streaming := true)])
  }

  /** The window with the next chunk in it, and whether it is complete; None when the chunk is refused. */
  function Fed(r: Root, data: seq<u8>): Option<Root> {
    if data == [] || |data| > CHUNK || r.received + |data| > r.size ||
       (r.received + |data| < r.size && |data| != CHUNK) then None
    else
      var slot := r.received / CHUNK - r.base;
      if slot < 0 || slot >= WINDOW || |r.slots| != WINDOW then None
      else
        var received := r.received + |data|;
        var full := slot == WINDOW - 1 || received == r.size;
        Some(r.(slots := r.slots[slot := data], received := received, phase := if full then Flushing else Filling))
  }

  /** airlink_mesh_ota_write: the next chunk of the image enters the window; a full window is distributed. */
  function RootWrite(f: Fleet, data: seq<u8>): Fleet {
    var r := f.root;
    if r.phase != Filling || r.session !in f.log then f
    else if Fed(r, data) == None then RootAbort(f)
    else
      var r' := Fed(r, data).value;
      var rec := f.log[r.session];
      f.(root := r',
         table := if r'.phase == Flushing then Marked(f.table, r.targets, Entry(-1, Nothing(), Receiving)) else f.table,
         log := f.log[r.session := rec.(data := rec.data + data)])
  }

  /** Group distribution and repair: any chunk of the window, to any target, any number of times. */
  function RootSend(f: Fleet, to: nat, slot: nat): Fleet {
    var r := f.root;
    if r.phase != Flushing || to !in r.targets || slot >= |r.slots| || slot >= WindowCount(r.base, Chunks(r.size)) then f
    else f.(net := f.net + multiset{Down(to, ChunkBody(ChunkMessage(r.session, r.base + slot, r.slots[slot])))})
  }

  /** No target failed, and every one acknowledged the whole window. */
  predicate WindowAcknowledged(f: Fleet) {
    forall i :: 0 <= i < |f.table| && i in f.root.targets ==>
      f.table[i].state != Error && f.table[i].base == f.root.base &&
      f.table[i].bitmap == Expected(f.root.base, Chunks(f.root.size))
  }

  function RootAdvance(f: Fleet): Fleet {
    if f.root.phase != Flushing || !WindowAcknowledged(f) then f
    else f.(root := f.root.(phase := Filling, base := f.root.base + WINDOW, slots := NoSlots()))
  }

  /** airlink_mesh_ota_finish: asks the targets to verify. */
  function RootFinish(f: Fleet): Fleet {
    var r := f.root;
    if r.phase != Filling || r.received != r.size || r.slots != NoSlots() then f
    else
      f.(root := r.(phase := Verifying), table := Renamed(f.table, r.targets, Receiving),
         net := f.net + Copies(|f.members|, r.targets, CommitBody(CommitMessage(r.session, false))))
  }

  /** Every target reported the image verified: activation may begin. */
  function RootVerified(f: Fleet): Fleet {
    if f.root.phase != Verifying || !AllIn(f, Verified) || f.root.session !in f.log then f
    else f.(root := f.root.(phase := Activation),
            log := f.log[f.root.session := f.log[f.root.session].(activating := true)])
  }

  function RootActivate(f: Fleet, to: nat): Fleet {
    if f.root.phase != Activation || to !in f.root.targets || to >= |f.table| then f
    else f.(table := f.table[to := f.table[to].(state := Verified)],
            net := f.net + multiset{Down(to, CommitBody(CommitMessage(f.root.session, true)))})
  }

  function RootEnd(f: Fleet): Fleet {
    if f.root.phase != Activation then f else f.(root := f.root.(phase := Off))
  }

  /** airlink_mesh_ota_abort: at any time before activation. */
  function RootAbort(f: Fleet): Fleet {
    if f.root.phase in {Off, Activation} then f
    else f.(root := f.root.(phase := Off), net := f.net + Copies(|f.members|, f.root.targets, AbortBody))
  }

  // ---------- Steps of the nodes and the network ----------

  /** Everything a node cannot decide: approval, memory, flash, header checks. */
  datatype Fortune = Fortune(permitted: bool, ok: bool, oks: Bitmap)

  function Handled(n: Node, body: Body, x: Fortune): Reply
    requires |n.air.slots| == WINDOW
  {
    match body
    case BeginBody(m) => OnBegin(n, m, x.permitted, x.ok)
    case ChunkBody(m) => OnChunk(n, m, x.oks)
    case CommitBody(m) => OnCommit(n, m, x.ok)
    case AbortBody => Reply(OnAbort(n), None)
  }

  /** The node's history after it handled a packet. */
  function Recorded(m: Member, body: Body, r: Reply): Member {
    var ready := body.BeginBody? && r.ack.Some? && r.ack.value.state == Ready;
    var origin := if ready then body.begin.session else m.origin;
    Member(
      r.node, origin,
      if body.BeginBody? then m.seen + {body.begin.session} else m.seen,
      if ready then m.began + {body.begin.session} else m.began,
      if r.node.stream.Active? then m.wrote[origin := r.node.stream.written] else m.wrote,
      if r.ack.Some? && r.ack.value.state == Verified && r.node.stream.Staged?
        then m.held[r.ack.value.session := r.node.stream.image] else m.held,
      if r.ack.Some? && r.ack.value.state == Activating then m.booted + {m.origin} else m.booted)
  }

  function DeliverDown(f: Fleet, p: Packet, x: Fortune): Fleet
    requires p.Down?
  {
    if p !in f.net || p.to >= |f.members| || |f.members[p.to].node.air.slots| != WINDOW then f
    else
      var m := f.members[p.to];
      var r := Handled(m.node, p.body, x);
      f.(members := f.members[p.to := Recorded(m, p.body, r)],
         net := f.net - multiset{p} + (if r.ack.Some? then multiset{Up(p.to, r.ack.value)} else multiset{}))
  }

  /** process_root_packet, for acknowledgements. */
  function DeliverUp(f: Fleet, p: Packet): Fleet
    requires p.Up?
  {
    if p !in f.net || p.from >= |f.table| then f
    else
      var table := if f.root.phase != Off && p.ack.session == f.root.session
                   then f.table[p.from := Entry(p.ack.base, p.ack.bitmap, p.ack.state)] else f.table;
      f.(table := table, net := f.net - multiset{p})
  }

  function Lose(f: Fleet, p: Packet): Fleet { f.(net := f.net - multiset{p}) }

  /** Power loss: everything in memory is gone. */
  function Reboot(f: Fleet, i: nat): Fleet {
    if i >= |f.members| then f
    else f.(members := f.members[i := f.members[i].(node := Node(Cleared(), Idle))])
  }

  datatype Event =
    | Announce(session: Session, size: nat, digest: Digest, targets: set<nat>)
    | Accepted
    | Feed(data: seq<u8>)
    | Distribute(to: nat, slot: nat)
    | Advance
    | Finish
    | AllVerified
    | ActivateNode(to: nat)
    | End
    | Cancel
    | Arrive(packet: Packet, fortune: Fortune)
    | Vanish(packet: Packet)
    | Restart(node: nat)

  function Step(f: Fleet, e: Event): Fleet {
    match e
    case Announce(session, size, digest, targets) => RootBegin(f, session, size, digest, targets)
    case Accepted => RootReady(f)
    case Feed(data) => RootWrite(f, data)
    case Distribute(to, slot) => RootSend(f, to, slot)
    case Advance => RootAdvance(f)
    case Finish => RootFinish(f)
    case AllVerified => RootVerified(f)
    case ActivateNode(to) => RootActivate(f, to)
    case End => RootEnd(f)
    case Cancel => RootAbort(f)
    case Arrive(p, x) => if p.Down? then DeliverDown(f, p, x) else DeliverUp(f, p)
    case Vanish(p) => Lose(f, p)
    case Restart(i) => Reboot(f, i)
  }

  function Run(f: Fleet, es: seq<Event>): Fleet
    decreases es
  {
    if es == [] then f else Run(Step(f, es[0]), es[1..])
  }
}
