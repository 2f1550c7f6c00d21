/** The two-phase network update of a mesh fleet (components/airlink_mesh/airlink_mesh.c): the root prepares
    every approved node, then commits or aborts. The network loses, delays and reorders packets, and by replay
    protection delivers each at most once. */
module MeshTransaction {
  import opened Bits
  import opened MeshConfigStore

  // ---------- State ----------

  /** A transaction is known by its generation and the digest of its network configuration. */
  datatype Txn = Txn(generation: nat, network: nat)

  datatype Fate = Open | Aborted | Committed

  datatype Body = Prepare(txn: Txn, announced: nat) | Commit(txn: Txn) | Abort(txn: Txn)

  /** Status is the part of a node's periodic report that matters here. */
  datatype Packet =
    | Down(to: nat, body: Body)
    | Up(from: nat, commitPhase: bool, ok: bool, txn: Txn)
    | Status(from: nat, generation: nat)

  /** A node: its store, and the prepared transaction it remembers until it restarts. The last two fields are
      history: what it ever staged durably, and the prepare packets that reached it. */
  datatype Node = Node(store: Store, pending: Option<Txn>, staged: set<Txn>, seen: set<Txn>)

  datatype Phase = Idle | Preparing | Committing

  /** `reports` are the generations the nodes last told; nothing is known of a node that has not reported. */
  datatype Root = Root(store: Store, phase: Phase, txn: Txn, prepared: set<nat>, committed: set<nat>, failed: set<nat>,
                       reports: map<nat, nat>)

  /** `fates` is history: every transaction ever begun. */
  datatype Fleet = Fleet(root: Root, nodes: seq<Node>, net: multiset<Packet>, fates: map<Txn, Fate>)

  // ---------- Sending ----------

  function Copies(n: nat, online: set<nat>, body: Body): multiset<Packet> {
    if n == 0 then multiset{}
    else Copies(n - 1, online, body) + (if n - 1 in online then multiset{Down(n - 1, body)} else multiset{})
  }

  lemma {:induction false} CopiesMember(n: nat, online: set<nat>, body: Body, p: Packet)
    ensures p in Copies(n, online, body) <==> p.Down? && p.body == body && p.to < n && p.to in online
    ensures Copies(n, online, body)[p] <= 1
  {
    if n > 0 {
      CopiesMember(n - 1, online, body, p);
    }
  }

  // ---------- Steps of the root ----------

  /** The highest generation the root knows of, its own included. */
  function Highest(own: nat, reports: map<nat, nat>, n: nat): nat {
    if n == 0 then own
    else
      var rest := Highest(own, reports, n - 1);
      if n - 1 in reports && reports[n - 1] > rest then reports[n - 1] else rest
  }

  lemma {:induction false} HighestKnown(own: nat, reports: map<nat, nat>, n: nat)
    ensures var g := Highest(own, reports, n);
      g >= own && (g == own || exists i: nat :: i < n && i in reports && reports[i] == g)
  {
    if n > 0 {
      HighestKnown(own, reports, n - 1);
    }
  }

  /** The transaction an update with this configuration would be. */
  function NextTxn(f: Fleet, network: nat): Txn {
    Txn(Highest(f.root.store.generation, f.root.reports, |f.nodes|) + 1, network)
  }

  /** airlink_mesh_update_network up to the prepare messages; its only caller waits for it to return. */
  function RootPrepare(f: Fleet, network: nat, online: set<nat>, valid: bool, written: bool): Fleet {
    var r, txn := f.root, NextTxn(f, network);
    if r.phase != Idle || txn.generation == GENERATION_MAX + 1 then f
    else
      var s := Stage(r.store, MeshConfig(GroundRoot, network), txn.generation, valid, written);
      if s.result != Ok then f
      else
        f.(root := r.(store := s.store, phase := Preparing, txn := txn, prepared := {}, committed := {}, failed := {}),
           net := f.net + Copies(|f.nodes|, online, Prepare(txn, network)),
           fates := f.fates[txn := Open])
  }

  /** transaction_nodes_ready(false): every approved node answered that it prepared. */
  predicate AllPrepared(f: Fleet) {
    f.root.failed == {} && forall i :: 0 <= i < |f.nodes| ==> i in f.root.prepared
  }

  function RootCommit(f: Fleet, online: set<nat>): Fleet {
    var r := f.root;
    if r.phase != Preparing || !AllPrepared(f) then f
    else f.(root := r.(phase := Committing), net := f.net + Copies(|f.nodes|, online, Commit(r.txn)),
            fates := f.fates[r.txn := Committed])
  }

  /** Time is up, a node failed, or the fleet is not safe any more. */
  function RootAbort(f: Fleet, online: set<nat>, eraseA: bool, eraseB: bool): Fleet {
    var r := f.root;
    if r.phase != Preparing then f
    else f.(root := r.(phase := Idle, store := AbortStaged(r.store, eraseA, eraseB).store),
            net := f.net + Copies(|f.nodes|, online, Abort(r.txn)), fates := f.fates[r.txn := Aborted])
  }

  /** After the commit messages the root installs, whether or not all nodes acknowledged. */
  function RootInstall(f: Fleet, written: bool, eraseA: bool, eraseB: bool): Fleet {
    var r := f.root;
    if r.phase != Committing then f
    else f.(root := r.(phase := Idle, store := CommitStaged(r.store, written, eraseA, eraseB).store))
  }

  function RootRestart(f: Fleet): Fleet {
    var r := f.root;
    f.(root := Root(Boot(r.store.flash), Idle, r.txn, {}, {}, {}, map[]),
       fates := if r.phase == Preparing then f.fates[r.txn := Aborted] else f.fates)
  }

  // ---------- Steps of the nodes ----------

  /** Approval and safety, validation, and which flash operations succeed. */
  datatype Fortune = Fortune(permitted: bool, valid: bool, written: bool, eraseA: bool, eraseB: bool)

  datatype Reply = Reply(node: Node, answer: Option<bool>)

  /** The CONFIG_PREPARE branch of process_air_packet. */
  function OnPrepare(n: Node, t: Txn, announced: nat, x: Fortune): Reply {
    var seen := n.(seen := n.seen + {t});
    if !x.permitted || announced != t.network then Reply(seen, Some(false))
    else
      var s := Stage(n.store, MeshConfig(AirNode, announced), t.generation, x.valid, x.written);
      if s.result != Ok then Reply(seen, Some(false))
      else Reply(seen.(store := s.store, pending := Some(t), staged := n.staged + {t}), Some(true))
  }

  /** The CONFIG_ABORT branch. */
  function OnAbort(n: Node, t: Txn, x: Fortune): Reply {
    if n.pending != Some(t) then Reply(n, None)
    else Reply(n.(store := AbortStaged(n.store, x.eraseA, x.eraseB).store, pending := None), None)
  }

  /** The CONFIG_COMMIT branch. */
  function OnCommit(n: Node, t: Txn, x: Fortune): Reply {
    if n.pending != Some(t) then Reply(n, Some(false))
    else
      var s := CommitStaged(n.store, x.written, x.eraseA, x.eraseB);
      Reply(n.(store := s.store), Some(s.result == Ok))
  }

  function Handled(n: Node, body: Body, x: Fortune): Reply {
    match body
    case Prepare(t, announced) => OnPrepare(n, t, announced, x)
    case Commit(t) => OnCommit(n, t, x)
    case Abort(t) => OnAbort(n, t, x)
  }

  function DeliverDown(f: Fleet, p: Packet, x: Fortune): Fleet
    requires p.Down?
  {
    if p !in f.net || p.to >= |f.nodes| then f
    else
      var r := Handled(f.nodes[p.to], p.body, x);
      f.(nodes := f.nodes[p.to := r.node],
         net := f.net - multiset{p} +
                (if r.answer.Some? then multiset{Up(p.to, p.body.Commit?, r.answer.value, p.body.txn)} else multiset{}))
  }

  /** The CONFIG_RESPONSE branch of process_root_packet: only answers about the running transaction count. */
  function DeliverUp(f: Fleet, p: Packet): Fleet
    requires p.Up?
  {
    var r := f.root;
    var net := f.net - multiset{p};
    if p !in f.net then f
    else if r.phase == Idle || p.txn != r.txn then f.(net := net)
    else if !p.ok then f.(net := net, root := r.(failed := r.failed + {p.from}))
    else if !p.commitPhase then f.(net := net, root := r.(prepared := r.prepared + {p.from}))
    else f.(net := net, root := r.(committed := r.committed + {p.from}))
  }

  /** The NODE_STATUS branch. Status messages may overtake one another. */
  function DeliverStatus(f: Fleet, p: Packet): Fleet
    requires p.Status?
  {
    if p !in f.net then f
    else f.(net := f.net - multiset{p}, root := f.root.(reports := f.root.reports[p.from := p.generation]))
  }

  /** A node's periodic report. */
  function Tell(f: Fleet, i: nat): Fleet {
    if i >= |f.nodes| then f else f.(net := f.net + multiset{Status(i, f.nodes[i].store.generation)})
  }

  function Lose(f: Fleet, p: Packet): Fleet { f.(net := f.net - multiset{p}) }

  function Restart(f: Fleet, i: nat): Fleet {
    if i >= |f.nodes| then f
    else f.(nodes := f.nodes[i := f.nodes[i].(store := Boot(f.nodes[i].store.flash), pending := None)])
  }

  datatype Event =
    | Begin(network: nat, online: set<nat>, valid: bool, written: bool)
    | Decide(online: set<nat>)
    | GiveUp(online: set<nat>, eraseA: bool, eraseB: bool)
    | Install(written: bool, eraseA: bool, eraseB: bool)
    | RootReboot
    | Arrive(packet: Packet, fortune: Fortune)
    | Vanish(packet: Packet)
    | Reboot(node: nat)
    | Report(node: nat)

  function Step(f: Fleet, e: Event): Fleet {
    match e
    case Begin(network, online, valid, written) => RootPrepare(f, network, online, valid, written)
    case Decide(online) => RootCommit(f, online)
    case GiveUp(online, a, b) => RootAbort(f, online, a, b)
    case Install(written, a, b) => RootInstall(f, written, a, b)
    case RootReboot => RootRestart(f)
    case Arrive(p, x) =>
      if p.Down? then DeliverDown(f, p, x) else if p.Up? then DeliverUp(f, p) else DeliverStatus(f, p)
    case Vanish(p) => Lose(f, p)
    case Reboot(i) => Restart(f, i)
    case Report(i) => Tell(f, i)
  }

  function Run(f: Fleet, es: seq<Event>): Fleet
    decreases es
  {
    if es == [] then f else Run(Step(f, es[0]), es[1..])
  }

  /** An update takes a pair of generation and digest that no earlier one had. */
  ghost predicate NewPair(f: Fleet, e: Event) { e.Begin? ==> NextTxn(f, e.network) !in f.fates }

  ghost predicate NewPairs(f: Fleet, es: seq<Event>)
    decreases es
  {
    es == [] || (NewPair(f, es[0]) && NewPairs(Step(f, es[0]), es[1..]))
  }

  // ---------- Invariants ----------

  ghost predicate Newest(fates: map<Txn, Fate>, t: Txn) {
    t in fates && forall o :: o in fates ==> o.generation <= t.generation
  }

  /** A pending slot holds what some staged transaction put there. */
  ghost predicate SlotOk(n: Node, slot: Slot, odd: bool) {
    slot.Some? ==>
      Odd(slot.value.generation) == odd && slot.value.config.role == AirNode &&
      Txn(slot.value.generation, slot.value.config.network) in n.staged
  }

  /** The slot of t still holds it, or t is not news any more. */
  predicate Holds(s: Store, t: Txn, role: Role) {
    PendingFor(s.flash, t.generation) == Some(Record(t.generation, MeshConfig(role, t.network))) || s.generation >= t.generation
  }

  /** No pending slot is newer. */
  predicate AtMost(f: Flash, generation: nat) {
    && (f.pendingA.Some? ==> f.pendingA.value.generation <= generation)
    && (f.pendingB.Some? ==> f.pendingB.value.generation <= generation)
  }

  /** While t is undecided, a node that staged it is older than t, and has nothing pending that may be committed. */
  ghost predicate Waiting(fates: map<Txn, Fate>, n: Node, t: Txn) {
    t in fates && t in n.staged && fates[t] == Open ==>
      n.store.generation < t.generation &&
      (n.pending.Some? ==> n.pending.value == t || (n.pending.value in fates && fates[n.pending.value] == Aborted))
  }

  ghost predicate NodeOk(fates: map<Txn, Fate>, n: Node) {
    && Settled(n.store)
    && n.staged <= n.seen && (forall t :: t in n.seen ==> t in fates)
    && SlotOk(n, n.store.flash.pendingA, false) && SlotOk(n, n.store.flash.pendingB, true)
    && (n.pending.Some? ==> n.pending.value in n.staged && Holds(n.store, n.pending.value, AirNode))
    && (n.pending.Some? && fates[n.pending.value] == Committed ==> AtMost(n.store.flash, n.pending.value.generation))
    && (forall t :: t in n.staged ==> Waiting(fates, n, t))
  }

  ghost predicate PacketOk(f: Fleet, p: Packet) {
    match p
    case Down(to, body) =>
      to < |f.nodes| && body.txn in f.fates &&
      (match body
       case Prepare(t, announced) => announced == t.network && t !in f.nodes[to].seen && f.net[p] == 1
       case Commit(t) => f.fates[t] == Committed
       case Abort(t) => f.fates[t] == Aborted)
    case Up(from, commitPhase, ok, t) =>
      from < |f.nodes| && t in f.fates && (ok && !commitPhase ==> t in f.nodes[from].staged)
    case Status(from, generation) => from < |f.nodes| && generation <= f.nodes[from].store.generation
  }

  ghost predicate RootOk(f: Fleet) {
    var r := f.root;
    && Settled(r.store)
    && (forall t :: t in f.fates && f.fates[t] == Open ==> r.phase == Preparing && t == r.txn)
    && (r.phase == Preparing ==> r.txn in f.fates && f.fates[r.txn] == Open)
    && (r.phase == Committing ==> Newest(f.fates, r.txn) && f.fates[r.txn] == Committed)
    && (r.phase != Idle ==> r.store.generation < r.txn.generation && Holds(r.store, r.txn, GroundRoot))
    && (r.phase != Idle ==> forall i :: i in r.prepared ==> i < |f.nodes| && r.txn in f.nodes[i].staged)
    && RootSlotsOk(f)
    && (forall i :: i in r.reports ==> i < |f.nodes| && r.reports[i] <= f.nodes[i].store.generation)
  }

  /** What the root has pending was begun as a transaction. */
  ghost predicate RootSlotsOk(f: Fleet) {
    var a, b := f.root.store.flash.pendingA, f.root.store.flash.pendingB;
    && (a.Some? ==> !Odd(a.value.generation) && Txn(a.value.generation, a.value.config.network) in f.fates)
    && (b.Some? ==> Odd(b.value.generation) && Txn(b.value.generation, b.value.config.network) in f.fates)
  }

  /** Somebody has reached this generation. */
  ghost predicate Reached(f: Fleet, generation: nat) {
    generation <= f.root.store.generation || exists i :: 0 <= i < |f.nodes| && generation <= f.nodes[i].store.generation
  }

  /** No transaction is more than one generation ahead of the whole fleet. */
  ghost predicate OneAhead(f: Fleet) {
    forall t :: t in f.fates ==> t.generation > 0 && Reached(f, t.generation - 1)
  }

  ghost predicate Inv(f: Fleet) {
    && (forall i :: 0 <= i < |f.nodes| ==> NodeOk(f.fates, f.nodes[i]))
    && (forall p :: p in f.net ==> PacketOk(f, p))
    && RootOk(f)
    && (forall t :: t in f.fates && f.fates[t] == Committed ==> EveryoneStaged(f, t))
    && OneAhead(f)
  }

  /** Every approved node durably staged exactly this configuration. */
  ghost predicate EveryoneStaged(f: Fleet, t: Txn) {
    forall i :: 0 <= i < |f.nodes| ==> t in f.nodes[i].staged
  }

  // ---------- Steps of the root keep them ----------

  /** Nobody's generation went back. */
  ghost predicate Grown(f: Fleet, f': Fleet) {
    && |f'.nodes| == |f.nodes| && f.root.store.generation <= f'.root.store.generation
    && forall i :: 0 <= i < |f.nodes| ==> f.nodes[i].store.generation <= f'.nodes[i].store.generation
  }

  lemma ReachedStill(f: Fleet, f': Fleet, generation: nat)
    requires Grown(f, f') && Reached(f, generation)
    ensures Reached(f', generation)
  {
    if generation > f.root.store.generation {
      var i :| 0 <= i < |f.nodes| && generation <= f.nodes[i].store.generation;
      assert generation <= f'.nodes[i].store.generation;
    }
  }

  lemma StillOneAhead(f: Fleet, f': Fleet)
    requires Grown(f, f') && OneAhead(f)
    requires forall t :: t in f'.fates ==> t in f.fates
    ensures OneAhead(f')
  {
    hide Grown, Reached;
    forall t | t in f'.fates ensures t.generation > 0 && Reached(f', t.generation - 1) {
      ReachedStill(f, f', t.generation - 1);
    }
  }

  /** The code's choice of the next generation. */
  lemma NextReached(f: Fleet, network: nat)
    requires RootOk(f)
    ensures Reached(f, NextTxn(f, network).generation - 1)
  {
    hide Settled, Holds, RootSlotsOk, Newest;
    var r := f.root;
    HighestKnown(r.store.generation, r.reports, |f.nodes|);
    var g := Highest(r.store.generation, r.reports, |f.nodes|);
    if g != r.store.generation {
      var i: nat :| i < |f.nodes| && i in r.reports && r.reports[i] == g;
      assert g <= f.nodes[i].store.generation;
    }
  }

  /** Transactions without commitment change nothing for a node. */
  lemma NodesKept(f: Fleet, f': Fleet)
    requires Inv(f) && f'.nodes == f.nodes
    requires forall t :: t in f.fates ==> t in f'.fates && (f'.fates[t] == f.fates[t] || (f.fates[t] == Open && f'.fates[t] == Aborted))
    requires forall t :: t in f'.fates && t !in f.fates ==> f'.fates[t] != Committed
    ensures forall i :: 0 <= i < |f'.nodes| ==> NodeOk(f'.fates, f'.nodes[i])
  {
    hide RootOk, PacketOk, Holds, SlotOk, Settled, AtMost, OneAhead;
    forall i | 0 <= i < |f'.nodes| ensures NodeOk(f'.fates, f'.nodes[i]) {
      var n := f.nodes[i];
      assert NodeOk(f.fates, n);
      forall t | t in n.staged ensures Waiting(f'.fates, n, t) {
        assert Waiting(f.fates, n, t);
      }
    }
  }

  lemma SameStaged(f: Fleet, f': Fleet, t: Txn)
    requires EveryoneStaged(f, t) && |f'.nodes| == |f.nodes|
    requires forall i :: 0 <= i < |f.nodes| ==> f.nodes[i].staged <= f'.nodes[i].staged
    ensures EveryoneStaged(f', t)
  {
  }

  /** Commitments already made keep what they rest on. */
  lemma StagedKept(f: Fleet, f': Fleet)
    requires Inv(f) && |f'.nodes| == |f.nodes|
    requires forall i :: 0 <= i < |f.nodes| ==> f.nodes[i].staged <= f'.nodes[i].staged
    requires forall t :: t in f'.fates && f'.fates[t] == Committed ==> t in f.fates && f.fates[t] == Committed
    ensures forall t :: t in f'.fates && f'.fates[t] == Committed ==> EveryoneStaged(f', t)
  {
    hide NodeOk, PacketOk, RootOk, OneAhead, EveryoneStaged;
    forall t | t in f'.fates && f'.fates[t] == Committed ensures EveryoneStaged(f', t) {
      SameStaged(f, f', t);
    }
  }

  lemma UnseenTxn(fates: map<Txn, Fate>, n: Node, t: Txn)
    requires NodeOk(fates, n) && t !in fates
    ensures t !in n.seen
  {
  }

  lemma PrepareKeeps(f: Fleet, network: nat, online: set<nat>, valid: bool, written: bool)
    requires Inv(f) && NextTxn(f, network) !in f.fates
    ensures Inv(RootPrepare(f, network, online, valid, written))
  {
    hide NodeOk, EveryoneStaged, Reached, NextTxn, RootOk, PacketOk, Settled, Copies;
    var f', txn := RootPrepare(f, network, online, valid, written), NextTxn(f, network);
    if f' != f {
      NodesKept(f, f');
      StagedKept(f, f');
      NextReached(f, network);
      NextPositive(f, network);
      forall t | t in f'.fates ensures t.generation > 0 && Reached(f', t.generation - 1) {
        ReachedStill(f, f', t.generation - 1);
      }
      PreparePackets(f, f', txn, online);
      PreparedRoot(f, network, online, valid, written);
    }
  }

  lemma NextPositive(f: Fleet, network: nat)
    ensures NextTxn(f, network).generation > f.root.store.generation && NextTxn(f, network).network == network
  {
    HighestKnown(f.root.store.generation, f.root.reports, |f.nodes|);
  }

  lemma PreparePackets(f: Fleet, f': Fleet, txn: Txn, online: set<nat>)
    requires Inv(f) && txn !in f.fates && f'.nodes == f.nodes
    requires f'.net == f.net + Copies(|f.nodes|, online, Prepare(txn, txn.network)) && f'.fates == f.fates[txn := Open]
    ensures forall p :: p in f'.net ==> PacketOk(f', p)
  {
    hide NodeOk, EveryoneStaged, RootOk, OneAhead;
    forall p | p in f'.net ensures PacketOk(f', p) {
      CopiesMember(|f.nodes|, online, Prepare(txn, txn.network), p);
      assert p in f.net ==> PacketOk(f, p);
      if p !in f.net {
        assert NodeOk(f.fates, f.nodes[p.to]);
        UnseenTxn(f.fates, f.nodes[p.to], txn);
      }
    }
  }

  lemma PreparedRoot(f: Fleet, network: nat, online: set<nat>, valid: bool, written: bool)
    requires RootOk(f) && NextTxn(f, network) !in f.fates
    ensures RootOk(RootPrepare(f, network, online, valid, written))
  {
    hide Highest, Copies;
    NextPositive(f, network);
  }

  lemma DecideKeeps(f: Fleet, online: set<nat>)
    requires Inv(f)
    ensures Inv(RootCommit(f, online))
  {
    hide NodeOk, OneAhead, RootOk;
    var f' := RootCommit(f, online);
    if f' != f {
      assert RootOk(f);
      var t := f.root.txn;
      DecidedNewest(f);
      DecidedNodes(f, f');
      DecidedRoot(f, online);
      StillOneAhead(f, f') by { PhaseHasTxn(f); }
      forall p | p in f'.net ensures PacketOk(f', p) {
        CopiesMember(|f.nodes|, online, Commit(t), p);
        assert p in f.net ==> PacketOk(f, p);
        PhaseHasTxn(f);
      }
    }
  }

  lemma PhaseHasTxn(f: Fleet)
    requires RootOk(f)
    ensures f.root.phase == Preparing ==> f.root.txn in f.fates && f.fates[f.root.txn] == Open
  {
  }

  /** When every approved node has staged it, a transaction is the newest there is. */
  lemma DecidedNewest(f: Fleet)
    requires Inv(f) && f.root.phase == Preparing && AllPrepared(f)
    ensures Newest(f.fates, f.root.txn) && EveryoneStaged(f, f.root.txn)
  {
    hide PacketOk, Settled, Holds, AtMost, SlotOk;
    var t := f.root.txn;
    forall o | o in f.fates ensures o.generation <= t.generation {
      assert Reached(f, o.generation - 1);
      if o.generation - 1 > f.root.store.generation {
        var i :| 0 <= i < |f.nodes| && o.generation - 1 <= f.nodes[i].store.generation;
        assert i in f.root.prepared && NodeOk(f.fates, f.nodes[i]);
        assert Waiting(f.fates, f.nodes[i], t);
      }
    }
  }

  lemma DecidedNodes(f: Fleet, f': Fleet)
    requires Inv(f) && f.root.phase == Preparing && f'.nodes == f.nodes && Newest(f.fates, f.root.txn)
    requires f'.fates == f.fates[f.root.txn := Committed]
    ensures forall i :: 0 <= i < |f'.nodes| ==> NodeOk(f'.fates, f'.nodes[i])
  {
    hide PacketOk, Settled, Holds, OneAhead, RootSlotsOk;
    forall i | 0 <= i < |f'.nodes| ensures NodeOk(f'.fates, f'.nodes[i]) {
      var n, t := f.nodes[i], f.root.txn;
      assert NodeOk(f.fates, n);
      SlotsBelow(f.fates, n, t);
      forall u | u in n.staged ensures Waiting(f'.fates, n, u) {
        assert Waiting(f.fates, n, u);
      }
    }
  }

  lemma SlotsBelow(fates: map<Txn, Fate>, n: Node, t: Txn)
    requires NodeOk(fates, n) && Newest(fates, t)
    ensures AtMost(n.store.flash, t.generation)
  {
    hide Settled, Holds, Waiting;
    var a, b := n.store.flash.pendingA, n.store.flash.pendingB;
    assert a.Some? ==> Txn(a.value.generation, a.value.config.network) in fates;
    assert b.Some? ==> Txn(b.value.generation, b.value.config.network) in fates;
  }

  lemma DecidedRoot(f: Fleet, online: set<nat>)
    requires RootOk(f) && f.root.phase == Preparing && Newest(f.fates, f.root.txn)
    ensures RootOk(RootCommit(f, online))
  {
    hide Settled, Holds, Copies;
  }

  lemma GiveUpKeeps(f: Fleet, online: set<nat>, eraseA: bool, eraseB: bool)
    requires Inv(f)
    ensures Inv(RootAbort(f, online, eraseA, eraseB))
  {
    hide NodeOk, EveryoneStaged, OneAhead;
    var f' := RootAbort(f, online, eraseA, eraseB);
    if f' != f {
      NodesKept(f, f');
      StagedKept(f, f');
      StillOneAhead(f, f');
      forall p | p in f'.net ensures PacketOk(f', p) {
        CopiesMember(|f.nodes|, online, Abort(f.root.txn), p);
        assert p in f.net ==> PacketOk(f, p);
      }
    }
  }

  lemma InstallKeeps(f: Fleet, written: bool, eraseA: bool, eraseB: bool)
    requires Inv(f)
    ensures Inv(RootInstall(f, written, eraseA, eraseB))
  {
    hide NodeOk, EveryoneStaged, OneAhead, RootOk, CommitStaged;
    var f' := RootInstall(f, written, eraseA, eraseB);
    if f' != f {
      InstalledRoot(f, written, eraseA, eraseB);
      NodesKept(f, f');
      StagedKept(f, f');
      StillOneAhead(f, f');
      forall p | p in f'.net ensures PacketOk(f', p) {
        assert PacketOk(f, p);
      }
    }
  }

  lemma InstalledRoot(f: Fleet, written: bool, eraseA: bool, eraseB: bool)
    requires RootOk(f)
    ensures var f' := RootInstall(f, written, eraseA, eraseB);
      RootOk(f') && f'.root.store.generation >= f.root.store.generation
  {
    CommitSettled(f.root.store, written, eraseA, eraseB);
    hide Settled, Holds, Newest;
  }

  /** A commit leaves the store as a boot would find it, and never takes the generation back. */
  lemma CommitSettled(s: Store, written: bool, eraseA: bool, eraseB: bool)
    requires Settled(s)
    requires s.flash.pendingA.Some? ==> !Odd(s.flash.pendingA.value.generation)
    requires s.flash.pendingB.Some? ==> Odd(s.flash.pendingB.value.generation)
    ensures var s' := CommitStaged(s, written, eraseA, eraseB).store;
      Settled(s') && s'.generation >= s.generation &&
      (s'.flash.pendingA.Some? ==> s'.flash.pendingA == s.flash.pendingA) &&
      (s'.flash.pendingB.Some? ==> s'.flash.pendingB == s.flash.pendingB)
  {
  }

  lemma RootRestartKeeps(f: Fleet)
    requires Inv(f)
    ensures Inv(RootRestart(f)) && RootRestart(f).root.store == f.root.store
  {
    hide NodeOk, EveryoneStaged, OneAhead;
    var f' := RootRestart(f);
    NodesKept(f, f');
    StagedKept(f, f');
    StillOneAhead(f, f');
    forall p | p in f'.net ensures PacketOk(f', p) {
      assert PacketOk(f, p);
    }
  }

  // ---------- Steps of the network ----------

  lemma LoseKeeps(f: Fleet, p: Packet)
    requires Inv(f)
    ensures Inv(Lose(f, p))
  {
    hide NodeOk, EveryoneStaged, OneAhead;
    var f' := Lose(f, p);
    NodesKept(f, f');
    StagedKept(f, f');
    StillOneAhead(f, f');
    forall q | q in f'.net ensures PacketOk(f', q) {
      assert q in f.net && PacketOk(f, q);
    }
  }

  lemma UpKeeps(f: Fleet, p: Packet)
    requires Inv(f) && p.Up?
    ensures Inv(DeliverUp(f, p))
  {
    hide NodeOk, EveryoneStaged, OneAhead, RootOk;
    var f' := DeliverUp(f, p);
    if p in f.net {
      assert PacketOk(f, p);
      AnswerCounted(f, p);
      NodesKept(f, f');
      StagedKept(f, f');
      StillOneAhead(f, f');
      forall q | q in f'.net ensures PacketOk(f', q) {
        assert q in f.net && PacketOk(f, q);
      }
    }
  }

  lemma AnswerCounted(f: Fleet, p: Packet)
    requires RootOk(f) && p.Up? && PacketOk(f, p)
    ensures RootOk(DeliverUp(f, p))
  {
    hide Settled, Holds, Newest;
  }

  lemma StatusKeeps(f: Fleet, p: Packet)
    requires Inv(f) && p.Status?
    ensures Inv(DeliverStatus(f, p))
  {
    hide NodeOk, EveryoneStaged, OneAhead;
    var f' := DeliverStatus(f, p);
    if p in f.net {
      assert PacketOk(f, p);
      NodesKept(f, f');
      StagedKept(f, f');
      StillOneAhead(f, f');
      forall q | q in f'.net ensures PacketOk(f', q) {
        assert q in f.net && PacketOk(f, q);
      }
    }
  }

  lemma TellKeeps(f: Fleet, i: nat)
    requires Inv(f)
    ensures Inv(Tell(f, i))
  {
    hide NodeOk, EveryoneStaged, OneAhead;
    var f' := Tell(f, i);
    if i < |f.nodes| {
      NodesKept(f, f');
      StagedKept(f, f');
      StillOneAhead(f, f');
      forall q | q in f'.net ensures PacketOk(f', q) {
        assert q in f.net ==> PacketOk(f, q);
      }
    }
  }

  // ---------- Steps of the nodes ----------

  /** What a packet does to the node it reaches. */
  lemma HandledOk(f: Fleet, p: Packet, x: Fortune)
    requires Inv(f) && p.Down? && p in f.net
    ensures p.to < |f.nodes|
    ensures var n := f.nodes[p.to]; var r := Handled(n, p.body, x);
      NodeOk(f.fates, r.node) && n.staged <= r.node.staged && n.seen <= r.node.seen &&
      n.store.generation <= r.node.store.generation &&
      r.node.seen <= n.seen + (if p.body.Prepare? then {p.body.txn} else {}) &&
      (p.body.Prepare? && r.answer == Some(true) ==> p.body.txn in r.node.staged) &&
      (p.body.Abort? ==> r.answer == None)
  {
    hide NodeOk, EveryoneStaged, OneAhead;
    assert PacketOk(f, p) && NodeOk(f.fates, f.nodes[p.to]);
    match p.body
    case Prepare(t, announced) => PreparedOk(f, p.to, t, announced, x);
    case Commit(t) => CommittedOk(f.fates, f.nodes[p.to], t, x);
    case Abort(t) => AbortedOk(f.fates, f.nodes[p.to], t, x);
  }

  lemma AbortedOk(fates: map<Txn, Fate>, n: Node, t: Txn, x: Fortune)
    requires NodeOk(fates, n)
    ensures var r := OnAbort(n, t, x);
      NodeOk(fates, r.node) && r.node.staged == n.staged && r.node.seen == n.seen &&
      r.node.store.generation == n.store.generation && r.answer == None
  {
    hide Holds;
    var n' := OnAbort(n, t, x).node;
    forall u | u in n'.staged ensures Waiting(fates, n', u) {
      assert Waiting(fates, n, u);
    }
  }

  lemma CommittedOk(fates: map<Txn, Fate>, n: Node, t: Txn, x: Fortune)
    requires NodeOk(fates, n) && t in fates && fates[t] == Committed
    ensures var r := OnCommit(n, t, x);
      NodeOk(fates, r.node) && r.node.staged == n.staged && r.node.seen == n.seen &&
      r.node.store.generation >= n.store.generation
  {
    var n' := OnCommit(n, t, x).node;
    if n.pending == Some(t) {
      CommitSettled(n.store, x.written, x.eraseA, x.eraseB);
      CommitHolds(fates, n, t, x);
      hide Settled, CommitStaged, Holds;
      forall u | u in n'.staged ensures Waiting(fates, n', u) {
        assert Waiting(fates, n, u);
      }
    }
  }

  lemma CommitHolds(fates: map<Txn, Fate>, n: Node, t: Txn, x: Fortune)
    requires NodeOk(fates, n) && t in fates && fates[t] == Committed && n.pending == Some(t)
    ensures Holds(CommitStaged(n.store, x.written, x.eraseA, x.eraseB).store, t, AirNode)
  {
    hide Settled, Waiting;
  }

  lemma PreparedOk(f: Fleet, to: nat, t: Txn, announced: nat, x: Fortune)
    requires Inv(f) && to < |f.nodes| && t in f.fates && t !in f.nodes[to].seen && announced == t.network
    ensures
      var (n, n') := (f.nodes[to], OnPrepare(f.nodes[to], t, announced, x).node);
      NodeOk(f.fates, n') && n.staged <= n'.staged && n'.seen == n.seen + {t} && n'.store.generation == n.store.generation
    ensures OnPrepare(f.nodes[to], t, announced, x).answer == Some(true) ==>
      t in OnPrepare(f.nodes[to], t, announced, x).node.staged
  {
    hide PacketOk, OneAhead, Settled;
    var n := f.nodes[to];
    var n' := OnPrepare(n, t, announced, x).node;
    assert NodeOk(f.fates, n);
    assert t !in n.staged;
    assert f.fates[t] != Committed by { NotEveryone(f, t, to); }
    StageSettled(n.store, MeshConfig(AirNode, announced), t.generation, x.valid, x.written);
    forall u | u in n'.staged ensures Waiting(f.fates, n', u) {
      if u != t {
        assert Waiting(f.fates, n, u);
      }
    }
  }

  lemma StageSettled(s: Store, config: MeshConfig, generation: nat, valid: bool, written: bool)
    requires Settled(s)
    ensures Settled(Stage(s, config, generation, valid, written).store)
  {
  }

  lemma NotEveryone(f: Fleet, t: Txn, i: nat)
    requires Inv(f) && t in f.fates && i < |f.nodes| && t !in f.nodes[i].staged
    ensures f.fates[t] != Committed
  {
    hide PacketOk, NodeOk, RootOk, OneAhead;
  }

  /** One node changed. */
  lemma NodeKeeps(f: Fleet, f': Fleet, i: nat)
    requires Inv(f) && i < |f.nodes| && |f'.nodes| == |f.nodes| && f'.root == f.root && f'.fates == f.fates
    requires f'.nodes == f.nodes[i := f'.nodes[i]] && NodeOk(f.fates, f'.nodes[i])
    requires f.nodes[i].staged <= f'.nodes[i].staged && f.nodes[i].store.generation <= f'.nodes[i].store.generation
    requires forall p :: p in f'.net ==> PacketOk(f', p)
    ensures Inv(f')
  {
    hide PacketOk, EveryoneStaged, NodeOk, OneAhead, Settled, Holds;
    StagedKept(f, f');
    StillOneAhead(f, f');
  }

  /** Packets stay truthful when a node handles one of them. */
  lemma PacketAfter(f: Fleet, f': Fleet, p: Packet, x: Fortune, q: Packet)
    requires p.Down? && p in f.net && p.to < |f.nodes| && f' == DeliverDown(f, p, x) && q in f'.net
    requires PacketOk(f, p) && (q in f.net ==> PacketOk(f, q))
    requires var n := f.nodes[p.to]; var r := Handled(n, p.body, x);
      n.staged <= r.node.staged && r.node.seen <= n.seen + (if p.body.Prepare? then {p.body.txn} else {}) &&
      n.store.generation <= r.node.store.generation &&
      (p.body.Prepare? && r.answer == Some(true) ==> p.body.txn in r.node.staged) &&
      (p.body.Abort? ==> r.answer == None)
    ensures PacketOk(f', q)
  {
    hide Handled;
    var r := Handled(f.nodes[p.to], p.body, x);
    if q !in f.net {
      assert r.answer.Some? && q == Up(p.to, p.body.Commit?, r.answer.value, p.body.txn);
    } else if q.Down? {
      assert f'.net[q] == f.net[q] - (if q == p then 1 else 0);
      if q.body.Prepare? {
        assert q != p;
        assert p.body.Prepare? && q.body.txn == p.body.txn ==> q.body == p.body;
      }
    }
  }

  lemma DownKeeps(f: Fleet, p: Packet, x: Fortune)
    requires Inv(f) && p.Down?
    ensures Inv(DeliverDown(f, p, x))
  {
    hide NodeOk, EveryoneStaged, RootOk, Handled, OneAhead;
    var f' := DeliverDown(f, p, x);
    if p in f.net && p.to < |f.nodes| {
      HandledOk(f, p, x);
      assert PacketOk(f, p);
      forall q | q in f'.net ensures PacketOk(f', q) {
        PacketAfter(f, f', p, x, q);
      }
      NodeKeeps(f, f', p.to);
    }
  }

  lemma RebootKeeps(f: Fleet, i: nat)
    requires Inv(f)
    ensures Inv(Restart(f, i))
    ensures i < |f.nodes| ==> Restart(f, i).nodes[i].store == f.nodes[i].store
  {
    hide RootOk, OneAhead, EveryoneStaged;
    if i < |f.nodes| {
      assert NodeOk(f.fates, f.nodes[i]);
      var f' := Restart(f, i);
      BootSame(f.nodes[i].store);
      RestartedOk(f.fates, f.nodes[i], f'.nodes[i]);
      hide NodeOk;
      forall q | q in f'.net ensures PacketOk(f', q) {
        assert PacketOk(f, q);
      }
      NodeKeeps(f, f', i);
    }
  }

  lemma BootSame(s: Store)
    requires Settled(s)
    ensures Boot(s.flash) == s
  {
  }

  lemma RestartedOk(fates: map<Txn, Fate>, n: Node, n': Node)
    requires NodeOk(fates, n) && n' == n.(pending := None)
    ensures NodeOk(fates, n')
  {
    hide Settled, Holds;
    forall u | u in n'.staged ensures Waiting(fates, n', u) {
      assert Waiting(fates, n, u);
    }
  }

  // ---------- Runs ----------

  lemma {:induction false} StepKeeps(f: Fleet, e: Event)
    requires Inv(f) && NewPair(f, e)
    ensures Inv(Step(f, e))
  {
    hide Inv;
    match e
    case Begin(network, online, valid, written) => PrepareKeeps(f, network, online, valid, written);
    case Decide(online) => DecideKeeps(f, online);
    case GiveUp(online, a, b) => GiveUpKeeps(f, online, a, b);
    case Install(written, a, b) => InstallKeeps(f, written, a, b);
    case RootReboot => RootRestartKeeps(f);
    case Arrive(p, x) =>
      if p.Down? {
        DownKeeps(f, p, x);
      } else if p.Up? {
        UpKeeps(f, p);
      } else {
        StatusKeeps(f, p);
      }
    case Vanish(p) => LoseKeeps(f, p);
    case Reboot(i) => RebootKeeps(f, i);
    case Report(i) => TellKeeps(f, i);
  }

  lemma {:induction false} RunKeeps(f: Fleet, es: seq<Event>)
    requires Inv(f) && NewPairs(f, es)
    ensures Inv(Run(f, es))
    decreases es
  {
    hide Inv, Step;
    if es != [] {
      StepKeeps(f, es[0]);
      RunKeeps(Step(f, es[0]), es[1..]);
    }
  }

  /** n approved nodes with whatever configuration their flash holds, but nothing pending. */
  function Start(root: Store, stores: seq<Store>): Fleet {
    Fleet(Root(root, Idle, Txn(0, 0), {}, {}, {}, map[]),
          seq(|stores|, i requires 0 <= i < |stores| => Node(stores[i], None, {}, {})), multiset{}, map[])
  }

  /** A store after a boot. */
  predicate Fresh(s: Store) { Settled(s) && s.flash.pendingA == None && s.flash.pendingB == None }

  lemma StartOk(root: Store, stores: seq<Store>)
    requires Fresh(root) && forall s :: s in stores ==> Fresh(s)
    ensures Inv(Start(root, stores))
  {
    hide Settled;
    var f := Start(root, stores);
    forall i | 0 <= i < |f.nodes| ensures NodeOk(f.fates, f.nodes[i]) {
      assert stores[i] in stores;
    }
  }

  // ---------- What follows ----------

  /** The decision about a transaction is final. */
  lemma {:induction false} StepFinal(f: Fleet, e: Event, t: Txn)
    requires Inv(f) && NewPair(f, e) && t in f.fates && f.fates[t] != Open
    ensures t in Step(f, e).fates && Step(f, e).fates[t] == f.fates[t]
  {
    hide NodeOk, PacketOk, EveryoneStaged, Handled, Stage, CommitStaged, AbortStaged, OneAhead, Highest;
  }

  lemma {:induction false} FateFinal(f: Fleet, es: seq<Event>, t: Txn)
    requires Inv(f) && NewPairs(f, es) && t in f.fates && f.fates[t] != Open
    ensures t in Run(f, es).fates && Run(f, es).fates[t] == f.fates[t]
    decreases es
  {
    hide Inv, Step;
    if es != [] {
      StepKeeps(f, es[0]);
      StepFinal(f, es[0], t);
      FateFinal(Step(f, es[0]), es[1..], t);
    }
  }

  /** No transaction is both committed and aborted: if at one time a packet of the one kind is under way,
      there is none of the other kind at that or any later time. */
  lemma {:induction false} NeverBoth(root: Store, stores: seq<Store>, es: seq<Event>, more: seq<Event>, p: Packet, q: Packet)
    requires Fresh(root) && forall s :: s in stores ==> Fresh(s)
    requires NewPairs(Start(root, stores), es) && NewPairs(Run(Start(root, stores), es), more)
    requires var f := Run(Start(root, stores), es); p in f.net && q in Run(f, more).net
    requires p.Down? && q.Down? && p.body.txn == q.body.txn && !p.body.Prepare? && !q.body.Prepare?
    ensures p.body.Commit? == q.body.Commit?
  {
    hide NodeOk, RootOk, EveryoneStaged, OneAhead;
    StartOk(root, stores);
    RunKeeps(Start(root, stores), es);
    var f := Run(Start(root, stores), es);
    assert PacketOk(f, p);
    FateFinal(f, more, p.body.txn);
    RunKeeps(f, more);
    assert PacketOk(Run(f, more), q);
  }

  /** Whenever a node's configuration in force changes, it accepted the commit of a transaction that every approved
      node had durably staged; it installs exactly the configuration it prepared, with a higher generation. Restarts,
      its own and the others', change nothing. */
  lemma {:induction false} NodeInstallsPrepared(root: Store, stores: seq<Store>, es: seq<Event>, e: Event, i: nat)
    requires Fresh(root) && forall s :: s in stores ==> Fresh(s)
    requires NewPairs(Start(root, stores), es) && i < |Run(Start(root, stores), es).nodes|
    ensures InstallsPrepared(Run(Start(root, stores), es), e, i)
  {
    StartOk(root, stores);
    RunKeeps(Start(root, stores), es);
    StepInstalls(Run(Start(root, stores), es), e, i);
  }

  ghost predicate InstallsPrepared(f: Fleet, e: Event, i: nat)
    requires i < |f.nodes|
  {
    var f' := Step(f, e);
    |f'.nodes| == |f.nodes| &&
    var (s, s') := (f.nodes[i].store, f'.nodes[i].store);
    s'.config != s.config || s'.generation != s.generation ==>
      e.Arrive? && e.packet.Down? && e.packet.body.Commit? &&
      var t := e.packet.body.txn;
      EveryoneStaged(f, t) && s'.config == MeshConfig(AirNode, t.network) && s'.generation == t.generation > s.generation
  }

  lemma StepInstalls(f: Fleet, e: Event, i: nat)
    requires Inv(f) && i < |f.nodes|
    ensures InstallsPrepared(f, e, i)
  {
    assert NodeOk(f.fates, f.nodes[i]);
    hide Inv, NodeOk;
    if e.Arrive? && e.packet.Down? && e.packet in f.net && e.packet.to == i && e.packet.body.Commit? {
      CommitTruthful(f, e.packet);
      CommitExact(f.fates, f.nodes[i], e.packet.body.txn, e.fortune);
    } else {
      RestartSame(f, e, i);
      OnlyCommit(f, e, i);
    }
  }

  lemma RestartSame(f: Fleet, e: Event, i: nat)
    requires Inv(f) && i < |f.nodes|
    ensures e == Reboot(i) ==> Step(f, e).nodes[i].store == f.nodes[i].store
  {
    if e == Reboot(i) {
      RebootKeeps(f, i);
    }
  }

  lemma CommitTruthful(f: Fleet, p: Packet)
    requires Inv(f) && p in f.net && p.Down? && p.body.Commit?
    ensures p.body.txn in f.fates && f.fates[p.body.txn] == Committed && EveryoneStaged(f, p.body.txn)
  {
    assert PacketOk(f, p);
  }

  lemma CommitExact(fates: map<Txn, Fate>, n: Node, t: Txn, x: Fortune)
    requires NodeOk(fates, n) && t in fates && fates[t] == Committed
    ensures
      var (s, s') := (n.store, OnCommit(n, t, x).node.store);
      s'.config != s.config || s'.generation != s.generation ==>
        s'.config == MeshConfig(AirNode, t.network) && s'.generation == t.generation > s.generation
  {
    hide Settled, Waiting;
  }

  lemma OnlyCommit(f: Fleet, e: Event, i: nat)
    requires i < |f.nodes| && (e == Reboot(i) ==> Step(f, e).nodes[i].store == f.nodes[i].store)
    requires !(e.Arrive? && e.packet.Down? && e.packet in f.net && e.packet.to == i && e.packet.body.Commit?)
    ensures |Step(f, e).nodes| == |f.nodes|
    ensures Step(f, e).nodes[i].store.config == f.nodes[i].store.config
    ensures Step(f, e).nodes[i].store.generation == f.nodes[i].store.generation
  {
    hide Handled;
    if e.Arrive? && e.packet.Down? && e.packet in f.net && e.packet.to == i {
      NoCommit(f.nodes[i], e.packet.body, e.fortune);
    } else if !e.Arrive? && !e.Reboot? {
      hide Stage, AbortStaged, CommitStaged, Boot, Copies, NextTxn;
    }
  }

  lemma NoCommit(n: Node, body: Body, x: Fortune)
    requires !body.Commit?
    ensures Handled(n, body, x).node.store.config == n.store.config
    ensures Handled(n, body, x).node.store.generation == n.store.generation
  {
  }

  lemma OnlyInstall(f: Fleet, e: Event)
    requires !e.Install? && Settled(f.root.store)
    ensures Step(f, e).root.store.config == f.root.store.config
    ensures Step(f, e).root.store.generation == f.root.store.generation
  {
    hide Handled, CommitStaged, NextTxn;
  }

  lemma InstallExact(f: Fleet, written: bool, eraseA: bool, eraseB: bool)
    requires RootOk(f)
    ensures
      var (s, s') := (f.root.store, RootInstall(f, written, eraseA, eraseB).root.store);
      s'.config != s.config || s'.generation != s.generation ==>
        f.root.phase == Committing && s'.config == MeshConfig(GroundRoot, f.root.txn.network) &&
        s'.generation == f.root.txn.generation > s.generation
  {
    hide Settled;
    var a, b := f.root.store.flash.pendingA, f.root.store.flash.pendingB;
    assert f.root.phase == Committing ==> AtMost(f.root.store.flash, f.root.txn.generation) by {
      assert a.Some? ==> Txn(a.value.generation, a.value.config.network) in f.fates;
      assert b.Some? ==> Txn(b.value.generation, b.value.config.network) in f.fates;
    }
  }

  /** The root, too, installs only what every approved node durably staged, and only a higher generation. */
  lemma {:induction false} RootInstallsPrepared(root: Store, stores: seq<Store>, es: seq<Event>, e: Event)
    requires Fresh(root) && forall s :: s in stores ==> Fresh(s)
    requires NewPairs(Start(root, stores), es)
    ensures
      var f := Run(Start(root, stores), es);
      var (s, s') := (f.root.store, Step(f, e).root.store);
      s'.config != s.config || s'.generation != s.generation ==>
        e.Install? && EveryoneStaged(f, f.root.txn) && s'.config == MeshConfig(GroundRoot, f.root.txn.network) &&
        s'.generation == f.root.txn.generation > s.generation
  {
    StartOk(root, stores);
    RunKeeps(Start(root, stores), es);
    var f := Run(Start(root, stores), es);
    CommittedStaged(f);
    if e.Install? {
      InstallExact(f, e.written, e.eraseA, e.eraseB);
    } else {
      OnlyInstall(f, e);
    }
  }

  lemma CommittedStaged(f: Fleet)
    requires Inv(f)
    ensures RootOk(f) && (f.root.phase == Committing ==> EveryoneStaged(f, f.root.txn))
  {
  }

  /** A transaction that every approved node has staged, and so any that is committed, has at least the generation of
      every transaction before it: the rule by which the root chooses generations never lets a commit go backwards. */
  lemma {:induction false} CommitsAscend(root: Store, stores: seq<Store>, es: seq<Event>, online: set<nat>, t: Txn)
    requires Fresh(root) && forall s :: s in stores ==> Fresh(s)
    requires NewPairs(Start(root, stores), es)
    requires var f := Run(Start(root, stores), es); t in f.fates && RootCommit(f, online) != f
    ensures t.generation <= Run(Start(root, stores), es).root.txn.generation
  {
    StartOk(root, stores);
    RunKeeps(Start(root, stores), es);
    DecidedNewest(Run(Start(root, stores), es));
  }

  // ---------- The same update tried again ----------

  const BLANK := Store(Flash(None, None, None, None), DEFAULTS, 0)

  const SMOOTH := Fortune(true, true, true, true, true)

  /** An update is given up, tried again before any generation has grown, and decided upon the late answer to the
      first attempt. */
  function Retry(network: nat): seq<Event> {
    var t := Txn(1, network);
    [Begin(network, {0}, true, true), Arrive(Down(0, Prepare(t, network)), SMOOTH), GiveUp({0}, true, true),
     Begin(network, {0}, true, true), Arrive(Up(0, false, true, t), SMOOTH), Decide({0})]
  }

  /** A repeated pair is one transaction to everyone: then an abort and a commit of it can be under way together. */
  lemma {:induction false} RetriedBoth(network: nat)
    ensures
      var t := Txn(1, network);
      var f := Run(Start(BLANK, [BLANK]), Retry(network));
      Down(0, Abort(t)) in f.net && Down(0, Commit(t)) in f.net
  {
    hide Run, Step, Begun, Handled;
    var t, es, f0 := Txn(1, network), Retry(network), Start(BLANK, [BLANK]);
    RunSix(f0, es);
    assert f0.root == Root(BLANK, Idle, Txn(0, 0), {}, {}, {}, map[]);
    BeginsAlone(f0, network);
    var f1 := Step(f0, es[0]);
    BegunFields(f0, network);
    var f2 := Step(f1, es[1]);
    NodePrepares(f1, network);
    var f3 := Step(f2, es[2]);
    GivesUp(f2, network);
    BeginsAlone(f3, network);
    var f4 := Step(f3, es[3]);
    BegunFields(f3, network);
    var f5 := Step(f4, es[4]);
    LateAnswer(f4, t);
    DecidesAlone(f5, t);
  }

  /** The only node of the fleet is asked to prepare by a root without history. */
  function Begun(f: Fleet, network: nat): Fleet {
    var t := Txn(1, network);
    f.(root := Root(WantedBy(network), Preparing, t, {}, {}, {}, map[]),
       net := f.net + multiset{Down(0, Prepare(t, network))}, fates := f.fates[t := Open])
  }

  function WantedBy(network: nat): Store {
    Store(Flash(None, None, None, Some(Record(1, MeshConfig(GroundRoot, network)))), DEFAULTS, 0)
  }

  lemma BegunFields(f: Fleet, network: nat)
    ensures
      var (f', t) := (Begun(f, network), Txn(1, network));
      f'.nodes == f.nodes && f'.net == f.net + multiset{Down(0, Prepare(t, network))} &&
      f'.root == Root(WantedBy(network), Preparing, t, {}, {}, {}, map[])
  {
  }

  lemma BeginsAlone(f: Fleet, network: nat)
    requires |f.nodes| == 1 && f.root.store == BLANK && f.root.phase == Idle && f.root.reports == map[]
    ensures Step(f, Begin(network, {0}, true, true)) == Begun(f, network)
  {
    OneCopy(Prepare(Txn(1, network), network));
    assert Highest(0, map[], 0) == 0 && Highest(0, map[], 1) == 0;
    assert NextTxn(f, network) == Txn(1, network);
  }

  lemma NodePrepares(f: Fleet, network: nat)
    requires f.nodes == [Node(BLANK, None, {}, {})] && f.net == multiset{Down(0, Prepare(Txn(1, network), network))}
    ensures
      var (f', t) := (Step(f, Arrive(Down(0, Prepare(Txn(1, network), network)), SMOOTH)), Txn(1, network));
      |f'.nodes| == 1 && f'.root == f.root && f'.net == multiset{Up(0, false, true, t)}
  {
    var p := Down(0, Prepare(Txn(1, network), network));
    var answer := Up(0, false, true, Txn(1, network));
    assert Handled(f.nodes[0], p.body, SMOOTH).answer == Some(true);
    assert f.net - multiset{p} + multiset{answer} == multiset{answer};
  }

  lemma GivesUp(f: Fleet, network: nat)
    requires |f.nodes| == 1 && f.root == Root(WantedBy(network), Preparing, Txn(1, network), {}, {}, {}, map[])
    ensures
      var (f', t) := (Step(f, GiveUp({0}, true, true)), Txn(1, network));
      f'.nodes == f.nodes && f'.root == f.root.(store := BLANK, phase := Idle) &&
      f'.net == f.net + multiset{Down(0, Abort(t))}
  {
    OneCopy(Abort(Txn(1, network)));
  }

  lemma LateAnswer(f: Fleet, t: Txn)
    requires f.root.phase == Preparing && f.root.txn == t && Up(0, false, true, t) in f.net
    ensures
      var f' := Step(f, Arrive(Up(0, false, true, t), SMOOTH));
      f'.nodes == f.nodes && f'.root == f.root.(prepared := f.root.prepared + {0}) &&
      f'.net == f.net - multiset{Up(0, false, true, t)}
  {
  }

  lemma DecidesAlone(f: Fleet, t: Txn)
    requires |f.nodes| == 1 && f.root.phase == Preparing && f.root.txn == t && f.root.failed == {} && 0 in f.root.prepared
    ensures Step(f, Decide({0})).net == f.net + multiset{Down(0, Commit(t))}
  {
    OneCopy(Commit(t));
    assert AllPrepared(f);
  }

  lemma OneCopy(body: Body)
    ensures Copies(1, {0}, body) == multiset{Down(0, body)}
  {
    assert Copies(0, {0}, body) == multiset{};
  }

  lemma RunSix(f: Fleet, es: seq<Event>)
    requires |es| == 6
    ensures Run(f, es) == Step(Step(Step(Step(Step(Step(f, es[0]), es[1]), es[2]), es[3]), es[4]), es[5])
  {
    hide Step;
    RunStep(f, es);
    RunStep(Step(f, es[0]), es[1..]);
    var f2 := Step(Step(f, es[0]), es[1]);
    assert es[1..][1..] == es[2..];
    RunStep(f2, es[2..]);
    RunStep(Step(f2, es[2]), es[3..]);
    var f4 := Step(Step(f2, es[2]), es[3]);
    assert es[2..][1..] == es[3..] && es[3..][1..] == es[4..];
    RunStep(f4, es[4..]);
    RunStep(Step(f4, es[4]), es[5..]);
    assert es[4..][1..] == es[5..] && es[5..][1..] == [];
  }

  lemma RunStep(f: Fleet, es: seq<Event>)
    requires es != []
    ensures Run(f, es) == Run(Step(f, es[0]), es[1..])
  {
  }
}
