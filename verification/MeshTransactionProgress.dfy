/** What an acknowledgement in the two-phase update is worth, and that an update which meets no obstacle goes through
    (components/airlink_mesh/airlink_mesh.c). */
module MeshTransactionProgress {
  import opened Bits
  import opened MeshConfigStore
  import opened MeshTransaction

  // ---------- Answers ----------

  /** A node prepares exactly what it may, what it can write and what is news to it; then its flash holds the
      configuration for the commit, and it remembers the transaction. */
  lemma PrepareAnswered(n: Node, t: Txn, announced: nat, x: Fortune)
    requires Settled(n.store)
    ensures
      var r := OnPrepare(n, t, announced, x);
      var taken := x.permitted && announced == t.network && x.valid && t.generation > n.store.generation && x.written;
      r.answer == Some(taken) &&
      InForce(r.node.store, n.store.config, n.store.generation) &&
      (taken ==>
         r.node.pending == Some(t) &&
         PendingFor(r.node.store.flash, t.generation) == Some(Record(t.generation, MeshConfig(AirNode, t.network)))) &&
      (!taken ==> r.node.pending == n.pending && r.node.store == n.store)
  {
  }

  /** An abort of the transaction a node prepared leaves nothing that a commit could install; any other is ignored. */
  lemma AbortAnswered(n: Node, t: Txn, u: Txn, x: Fortune, y: Fortune)
    ensures
      var r := OnAbort(n, t, x);
      r.answer == None && InForce(r.node.store, n.store.config, n.store.generation) &&
      (n.pending == Some(t) ==>
         OnCommit(r.node, u, y).answer == Some(false) && OnCommit(r.node, u, y).node == r.node &&
         (x.eraseA && x.eraseB ==> r.node.store.flash.pendingA == None && r.node.store.flash.pendingB == None)) &&
      (n.pending != Some(t) ==> r.node == n)
  {
  }

  /** A node that remembers the transaction and is older than it installs it on commit, if the record can be written;
      it says yes exactly if what was pending could be erased as well. Otherwise nothing changes and it says no. */
  lemma CommitAnswered(fates: map<Txn, Fate>, n: Node, t: Txn, x: Fortune)
    requires NodeOk(fates, n) && t in fates && fates[t] == Committed
    ensures
      var r := OnCommit(n, t, x);
      var due := n.pending == Some(t) && n.store.generation < t.generation && x.written;
      r.answer == Some(due && x.eraseA && x.eraseB) &&
      (due ==> InForce(r.node.store, MeshConfig(AirNode, t.network), t.generation)) &&
      (!due ==> InForce(r.node.store, n.store.config, n.store.generation))
  {
    hide Settled, Waiting;
  }

  /** The same in every reachable state. */
  lemma {:induction false} CommitInstalls(root: Store, stores: seq<Store>, es: seq<Event>, p: Packet, x: Fortune)
    requires Fresh(root) && forall s :: s in stores ==> Fresh(s)
    requires NewPairs(Start(root, stores), es)
    requires p in Run(Start(root, stores), es).net && p.Down? && p.body.Commit?
    ensures
      var f := Run(Start(root, stores), es);
      var f' := Step(f, Arrive(p, x));
      p.to < |f.nodes| == |f'.nodes| &&
      var (n, t) := (f.nodes[p.to], p.body.txn);
      var due := n.pending == Some(t) && n.store.generation < t.generation && x.written;
      Up(p.to, true, due && x.eraseA && x.eraseB, t) in f'.net &&
      if due then InForce(f'.nodes[p.to].store, MeshConfig(AirNode, t.network), t.generation)
      else InForce(f'.nodes[p.to].store, n.store.config, n.store.generation)
  {
    StartOk(root, stores);
    RunKeeps(Start(root, stores), es);
    var f := Run(Start(root, stores), es);
    CommitTruthful(f, p);
    assert PacketOk(f, p);
    assert NodeOk(f.fates, f.nodes[p.to]);
    CommitAnswered(f.fates, f.nodes[p.to], p.body.txn, x);
    hide Inv, NodeOk, OnCommit;
  }

  /** Once committed, the root installs the transaction exactly if its record can be written. */
  lemma {:induction false} RootInstalls(root: Store, stores: seq<Store>, es: seq<Event>, written: bool, eraseA: bool, eraseB: bool)
    requires Fresh(root) && forall s :: s in stores ==> Fresh(s)
    requires NewPairs(Start(root, stores), es) && Run(Start(root, stores), es).root.phase == Committing
    ensures
      var f := Run(Start(root, stores), es);
      var r := Step(f, Install(written, eraseA, eraseB)).root;
      r.phase == Idle && f.root.store.generation < f.root.txn.generation &&
      if written then InForce(r.store, MeshConfig(GroundRoot, f.root.txn.network), f.root.txn.generation)
      else InForce(r.store, f.root.store.config, f.root.store.generation)
  {
    StartOk(root, stores);
    RunKeeps(Start(root, stores), es);
    InstallAnswered(Run(Start(root, stores), es), written, eraseA, eraseB);
  }

  lemma InstallAnswered(f: Fleet, written: bool, eraseA: bool, eraseB: bool)
    requires RootOk(f) && f.root.phase == Committing
    ensures
      var (s, s') := (f.root.store, RootInstall(f, written, eraseA, eraseB).root.store);
      s.generation < f.root.txn.generation &&
      if written then InForce(s', MeshConfig(GroundRoot, f.root.txn.network), f.root.txn.generation)
      else InForce(s', s.config, s.generation)
  {
    hide Settled;
    var a, b := f.root.store.flash.pendingA, f.root.store.flash.pendingB;
    assert AtMost(f.root.store.flash, f.root.txn.generation) by {
      assert a.Some? ==> Txn(a.value.generation, a.value.config.network) in f.fates;
      assert b.Some? ==> Txn(b.value.generation, b.value.config.network) in f.fates;
    }
  }

  // ---------- What the root may believe ----------

  /** The node has the transaction's configuration in force, or a newer one. */
  predicate Installed(n: Node, t: Txn) {
    n.store.generation > t.generation || InForce(n.store, MeshConfig(AirNode, t.network), t.generation)
  }

  /** Every acknowledged commit was carried out. */
  ghost predicate Acknowledged(f: Fleet) {
    && (forall p :: p in f.net && p.Up? && p.commitPhase && p.ok ==> p.from < |f.nodes| && Installed(f.nodes[p.from], p.txn))
    && (f.root.phase != Idle ==> forall i :: i in f.root.committed ==> i < |f.nodes| && Installed(f.nodes[i], f.root.txn))
  }

  lemma StaysInstalled(f: Fleet, e: Event, i: nat, t: Txn)
    requires Inv(f) && i < |f.nodes| && Installed(f.nodes[i], t)
    ensures i < |Step(f, e).nodes| && Installed(Step(f, e).nodes[i], t)
  {
    hide Inv, Step;
    StepInstalls(f, e, i);
  }

  /** Only a node that handles a commit produces a positive acknowledgement. */
  lemma WhoAnswers(f: Fleet, e: Event, p: Packet)
    requires p in Step(f, e).net && p !in f.net && p.Up? && p.commitPhase && p.ok
    ensures
      e.Arrive? && e.packet in f.net && e.packet.Down? && e.packet.body == Commit(p.txn) && p.from == e.packet.to < |f.nodes| &&
      OnCommit(f.nodes[p.from], p.txn, e.fortune).answer == Some(true)
  {
    hide OnPrepare, OnAbort, OnCommit, Stage, AbortStaged, CommitStaged, Copies, NextTxn;
    if e.Begin? {
      CopiesMember(|f.nodes|, e.online, Prepare(NextTxn(f, e.network), e.network), p);
    } else if e.Decide? {
      CopiesMember(|f.nodes|, e.online, Commit(f.root.txn), p);
    } else if e.GiveUp? {
      CopiesMember(|f.nodes|, e.online, Abort(f.root.txn), p);
    }
  }

  /** A positive acknowledgement comes from a node that just installed. */
  lemma NewAnswer(f: Fleet, e: Event, p: Packet)
    requires Inv(f) && p in Step(f, e).net && p !in f.net && p.Up? && p.commitPhase && p.ok
    ensures p.from < |Step(f, e).nodes| && Installed(Step(f, e).nodes[p.from], p.txn)
  {
    WhoAnswers(f, e, p);
    CommitTruthful(f, e.packet);
    NodeIsOk(f, p.from);
    CommitAnswered(f.fates, f.nodes[p.from], p.txn, e.fortune);
    hide Inv, NodeOk, OnCommit;
  }

  lemma NodeIsOk(f: Fleet, i: nat)
    requires Inv(f) && i < |f.nodes|
    ensures NodeOk(f.fates, f.nodes[i])
  {
  }

  /** Who counts as committed did before, or just acknowledged. */
  lemma NewlyCommitted(f: Fleet, e: Event, i: nat)
    requires Step(f, e).root.phase != Idle && i in Step(f, e).root.committed
    ensures
      (f.root.phase != Idle && i in f.root.committed && Step(f, e).root.txn == f.root.txn) ||
      (Up(i, true, true, Step(f, e).root.txn) in f.net)
  {
    hide Handled, Stage, Copies, NextTxn;
  }

  lemma {:induction false} StepAcknowledges(f: Fleet, e: Event)
    requires Inv(f) && Acknowledged(f)
    ensures Acknowledged(Step(f, e))
  {
    hide Inv, Step, Installed;
    var f' := Step(f, e);
    forall p | p in f'.net && p.Up? && p.commitPhase && p.ok
      ensures p.from < |f'.nodes| && Installed(f'.nodes[p.from], p.txn)
    {
      if p in f.net {
        StaysInstalled(f, e, p.from, p.txn);
      } else {
        NewAnswer(f, e, p);
      }
    }
    if f'.root.phase != Idle {
      forall i | i in f'.root.committed ensures i < |f'.nodes| && Installed(f'.nodes[i], f'.root.txn) {
        NewlyCommitted(f, e, i);
        StaysInstalled(f, e, i, f'.root.txn);
      }
    }
  }

  lemma {:induction false} RunAcknowledges(f: Fleet, es: seq<Event>)
    requires Inv(f) && NewPairs(f, es) && Acknowledged(f)
    ensures Acknowledged(Run(f, es))
    decreases es
  {
    hide Inv, Step, Acknowledged;
    if es != [] {
      StepKeeps(f, es[0]);
      StepAcknowledges(f, es[0]);
      RunAcknowledges(Step(f, es[0]), es[1..]);
    }
  }

  /** Whenever the root counts a node as committed, that node has installed the configuration, and keeps it until a
      newer one replaces it. */
  lemma {:induction false} CommittedInstalled(root: Store, stores: seq<Store>, es: seq<Event>, i: nat)
    requires Fresh(root) && forall s :: s in stores ==> Fresh(s)
    requires NewPairs(Start(root, stores), es)
    requires var f := Run(Start(root, stores), es); f.root.phase != Idle && i in f.root.committed
    ensures var f := Run(Start(root, stores), es);
      i < |f.nodes| && Installed(f.nodes[i], f.root.txn)
  {
    StartOk(root, stores);
    RunAcknowledges(Start(root, stores), es);
  }

  // ---------- An update without obstacles: one round ----------

  /** Nodes from k on. */
  function From(k: nat, n: nat): (r: set<nat>)
    ensures forall i :: i in r <==> k <= i < n
    decreases n - k
  {
    if k >= n then {} else From(k + 1, n) + {k}
  }

  function Everyone(n: nat): set<nat> { From(0, n) }

  function Counted(r: Root, commit: bool, who: set<nat>): Root {
    if commit then r.(committed := who) else r.(prepared := who)
  }

  /** The root asked everyone; nodes from k on have handled the request, and their answers are counted. */
  predicate Asked(f: Fleet, r: Root, body: Body, before: seq<Node>, after: seq<Node>, k: nat) {
    && |before| == |after| && k <= |after| && f.nodes == before[..k] + after[k..]
    && f.net == Copies(k, Everyone(|after|), body)
    && f.root == Counted(r, body.Commit?, From(k, |after|))
  }

  /** Every node says yes. */
  predicate Agree(body: Body, before: seq<Node>, after: seq<Node>) {
    |before| == |after| && forall i :: 0 <= i < |before| ==> Handled(before[i], body, SMOOTH) == Reply(after[i], Some(true))
  }

  lemma {:induction false} RunConcat(f: Fleet, a: seq<Event>, b: seq<Event>)
    ensures Run(f, a + b) == Run(Run(f, a), b)
    decreases a
  {
    hide Step;
    if a == [] {
      assert a + b == b;
    } else {
      assert (a + b)[1..] == a[1..] + b;
      RunConcat(Step(f, a[0]), a[1..], b);
    }
  }

  lemma RunOne(f: Fleet, a: Event)
    ensures Run(f, [a]) == Step(f, a)
  {
    hide Step;
    assert [a][1..] == [];
  }

  lemma RunTwo(f: Fleet, a: Event, b: Event)
    ensures Run(f, [a, b]) == Step(Step(f, a), b)
  {
    hide Step;
    assert [a, b][1..] == [b];
    RunOne(Step(f, a), b);
  }

  /** The request reaches node k, which says yes. */
  lemma RequestArrives(f: Fleet, r: Root, body: Body, before: seq<Node>, after: seq<Node>, k: nat)
    requires k < |after| && Asked(f, r, body, before, after, k + 1) && Agree(body, before, after)
    ensures
      var f' := Step(f, Arrive(Down(k, body), SMOOTH));
      f'.nodes == before[..k] + after[k..] && f'.root == f.root && f'.fates == f.fates &&
      f'.net == Copies(k, Everyone(|after|), body) + multiset{Up(k, body.Commit?, true, body.txn)}
  {
    hide Handled, Copies, From;
    CopiesNext(k, |after|, body);
    assert f.nodes[k] == before[k];
    assert f.nodes[k := after[k]] == before[..k] + after[k..];
  }

  /** Its answer reaches the root. */
  lemma AnswerArrives(f: Fleet, r: Root, body: Body, k: nat, n: nat, rest: multiset<Packet>)
    requires k < n && f.root == Counted(r, body.Commit?, From(k + 1, n)) && r.phase != Idle && r.txn == body.txn
    requires f.net == rest + multiset{Up(k, body.Commit?, true, body.txn)}
    ensures
      var f' := Step(f, Arrive(Up(k, body.Commit?, true, body.txn), SMOOTH));
      f'.nodes == f.nodes && f'.net == rest && f'.fates == f.fates && f'.root == Counted(r, body.Commit?, From(k, n))
  {
    assert From(k + 1, n) + {k} == From(k, n);
    assert rest + multiset{Up(k, body.Commit?, true, body.txn)} - multiset{Up(k, body.Commit?, true, body.txn)} == rest;
  }

  /** Both. */
  lemma Answers(f: Fleet, r: Root, body: Body, before: seq<Node>, after: seq<Node>, k: nat)
    requires k < |after| && Asked(f, r, body, before, after, k + 1) && Agree(body, before, after)
    requires !body.Abort? && r.phase != Idle && r.txn == body.txn
    ensures
      var (down, up) := (Down(k, body), Up(k, body.Commit?, true, body.txn));
      var f' := Run(f, [Arrive(down, SMOOTH), Arrive(up, SMOOTH)]);
      Asked(f', r, body, before, after, k) && f'.fates == f.fates
  {
    hide Step, Copies, From;
    var down, up := Down(k, body), Up(k, body.Commit?, true, body.txn);
    RequestArrives(f, r, body, before, after, k);
    AnswerArrives(Step(f, Arrive(down, SMOOTH)), r, body, k, |after|, Copies(k, Everyone(|after|), body));
    RunTwo(f, Arrive(down, SMOOTH), Arrive(up, SMOOTH));
  }

  lemma CopiesNext(k: nat, n: nat, body: Body)
    requires k < n
    ensures Copies(k + 1, Everyone(n), body) == Copies(k, Everyone(n), body) + multiset{Down(k, body)}
  {
    assert k in Everyone(n);
  }

  /** Everybody answers. */
  lemma {:induction false} AllAnswer(f: Fleet, r: Root, body: Body, before: seq<Node>, after: seq<Node>, k: nat)
    returns (es: seq<Event>)
    requires Asked(f, r, body, before, after, k) && Agree(body, before, after)
    requires !body.Abort? && r.phase != Idle && r.txn == body.txn
    ensures Asked(Run(f, es), r, body, before, after, 0) && Run(f, es).fates == f.fates
    decreases k
  {
    hide Asked, Agree, Step, Run;
    if k == 0 {
      es := [];
      RunNone(f);
    } else {
      var pair := [Arrive(Down(k - 1, body), SMOOTH), Arrive(Up(k - 1, body.Commit?, true, body.txn), SMOOTH)];
      AskedLength(f, r, body, before, after, k);
      Answers(f, r, body, before, after, k - 1);
      var more := AllAnswer(Run(f, pair), r, body, before, after, k - 1);
      es := pair + more;
      RunConcat(f, pair, more);
    }
  }

  lemma RunNone(f: Fleet)
    ensures Run(f, []) == f
  {
  }

  lemma AskedLength(f: Fleet, r: Root, body: Body, before: seq<Node>, after: seq<Node>, k: nat)
    requires Asked(f, r, body, before, after, k)
    ensures k <= |after|
  {
  }

  // ---------- An update without obstacles: the reports ----------

  /** The first k nodes have reported. */
  ghost predicate Told(f: Fleet, root: Store, stores: seq<Store>, k: nat) {
    && k <= |stores| && f.nodes == Start(root, stores).nodes && f.net == multiset{} && f.fates == map[]
    && f.root.store == root && f.root.phase == Idle
    && (forall i :: i in f.root.reports <==> 0 <= i < k)
    && (forall i :: i in f.root.reports ==> f.root.reports[i] == stores[i].generation)
  }

  lemma {:induction false} AllTell(f: Fleet, root: Store, stores: seq<Store>, k: nat) returns (es: seq<Event>)
    requires Told(f, root, stores, k)
    ensures Told(Run(f, es), root, stores, |stores|)
    decreases |stores| - k
  {
    if k == |stores| {
      es := [];
    } else {
      var p := Status(k, stores[k].generation);
      var f1 := Step(f, Report(k));
      assert f1.net == multiset{p};
      var pair := [Report(k), Arrive(p, SMOOTH)];
      RunTwo(f, Report(k), Arrive(p, SMOOTH));
      assert multiset{p} - multiset{p} == multiset{};
      hide Step, Run;
      var more := AllTell(Run(f, pair), root, stores, k + 1);
      es := pair + more;
      RunConcat(f, pair, more);
    }
  }

  lemma {:induction false} HighestCovers(own: nat, reports: map<nat, nat>, n: nat)
    ensures var g := Highest(own, reports, n);
      g >= own && forall i: nat :: i < n && i in reports ==> reports[i] <= g
  {
    if n > 0 {
      HighestCovers(own, reports, n - 1);
    }
  }

  /** The generation after every one in the fleet. */
  predicate Next(g: nat, root: Store, stores: seq<Store>) {
    && root.generation < g && (forall s :: s in stores ==> s.generation < g)
    && (g == root.generation + 1 || exists s :: s in stores && g == s.generation + 1)
  }

  lemma ChoosesNext(f: Fleet, root: Store, stores: seq<Store>, network: nat)
    requires Told(f, root, stores, |stores|)
    ensures Next(NextTxn(f, network).generation, root, stores) && NextTxn(f, network).network == network
  {
    HighestCovers(root.generation, f.root.reports, |stores|);
    HighestKnown(root.generation, f.root.reports, |stores|);
    var g := Highest(root.generation, f.root.reports, |stores|);
    forall s | s in stores ensures s.generation <= g {
      var i: nat :| i < |stores| && stores[i] == s;
      assert i in f.root.reports;
    }
    if g != root.generation {
      var i: nat :| i < |stores| && i in f.root.reports && f.root.reports[i] == g;
      assert stores[i] in stores && stores[i].generation == g;
    }
  }

  // ---------- An update without obstacles: the whole ----------

  function Prepared(s: Store, t: Txn): Node {
    Node(s.(flash := WithPending(s.flash, Record(t.generation, MeshConfig(AirNode, t.network)))), Some(t), {t}, {t})
  }

  function Updated(s: Store, t: Txn, role: Role): Store {
    var r := Record(t.generation, MeshConfig(role, t.network));
    Store(WithMesh(s.flash, r), r.config, r.generation)
  }

  lemma Prepares(s: Store, t: Txn)
    requires Fresh(s) && t.generation > s.generation
    ensures Handled(Node(s, None, {}, {}), Prepare(t, t.network), SMOOTH) == Reply(Prepared(s, t), Some(true))
    ensures Handled(Prepared(s, t), Commit(t), SMOOTH) == Reply(Node(Updated(s, t, AirNode), Some(t), {t}, {t}), Some(true))
  {
    assert {} + {t} == {t};
  }

  function PreparedAll(stores: seq<Store>, t: Txn): (ns: seq<Node>)
    ensures |ns| == |stores|
  {
    seq(|stores|, i requires 0 <= i < |stores| => Prepared(stores[i], t))
  }

  function UpdatedAll(stores: seq<Store>, t: Txn): (ns: seq<Node>)
    ensures |ns| == |stores|
  {
    seq(|stores|, i requires 0 <= i < |stores| => Node(Updated(stores[i], t, AirNode), Some(t), {t}, {t}))
  }

  lemma AllAgree(root: Store, stores: seq<Store>, t: Txn)
    requires (forall s :: s in stores ==> Fresh(s)) && Next(t.generation, root, stores)
    ensures Agree(Prepare(t, t.network), Start(root, stores).nodes, PreparedAll(stores, t))
    ensures Agree(Commit(t), PreparedAll(stores, t), UpdatedAll(stores, t))
  {
    hide Handled, Fresh;
    forall i | 0 <= i < |stores|
      ensures Handled(Start(root, stores).nodes[i], Prepare(t, t.network), SMOOTH) == Reply(PreparedAll(stores, t)[i], Some(true))
      ensures Handled(PreparedAll(stores, t)[i], Commit(t), SMOOTH) == Reply(UpdatedAll(stores, t)[i], Some(true))
    {
      assert stores[i] in stores;
      Prepares(stores[i], t);
    }
  }

  /** The root with the configuration staged, waiting for the nodes. */
  function Waits(root: Store, t: Txn, reports: map<nat, nat>): Root {
    var wanted := root.(flash := WithPending(root.flash, Record(t.generation, MeshConfig(GroundRoot, t.network))));
    Root(wanted, Preparing, t, {}, {}, {}, reports)
  }

  lemma Begins(f: Fleet, root: Store, stores: seq<Store>, t: Txn)
    requires Told(f, root, stores, |stores|) && t == NextTxn(f, t.network) && t.generation <= GENERATION_MAX
    requires Next(t.generation, root, stores)
    ensures
      var f' := Step(f, Begin(t.network, Everyone(|stores|), true, true));
      Asked(f', Waits(root, t, f.root.reports), Prepare(t, t.network), Start(root, stores).nodes, PreparedAll(stores, t), |stores|)
  {
    hide NextTxn, Copies;
    var nodes, after := Start(root, stores).nodes, PreparedAll(stores, t);
    assert nodes[..|stores|] + after[|stores|..] == nodes;
    assert From(|stores|, |stores|) == {};
    var sent := Copies(|stores|, Everyone(|stores|), Prepare(t, t.network));
    assert multiset{} + sent == sent;
  }

  lemma Decides(f: Fleet, r: Root, stores: seq<Store>, before: seq<Node>, t: Txn)
    requires Asked(f, r, Prepare(t, t.network), before, PreparedAll(stores, t), 0)
    requires r.phase == Preparing && r.txn == t && r.failed == {} && r.committed == {}
    ensures
      var f' := Step(f, Decide(Everyone(|stores|)));
      var r' := r.(phase := Committing, prepared := Everyone(|stores|));
      Asked(f', r', Commit(t), PreparedAll(stores, t), UpdatedAll(stores, t), |stores|)
  {
    var before', after := PreparedAll(stores, t), UpdatedAll(stores, t);
    assert before[..0] + before'[0..] == before';
    assert before'[..|stores|] + after[|stores|..] == before';
    assert From(|stores|, |stores|) == {} && From(0, |stores|) == Everyone(|stores|);
    var sent := Copies(|stores|, Everyone(|stores|), Commit(t));
    assert Copies(0, Everyone(|stores|), Prepare(t, t.network)) == multiset{};
    assert multiset{} + sent == sent;
  }

  lemma InstallsLast(f: Fleet, r: Root, root: Store, stores: seq<Store>, t: Txn)
    requires Asked(f, r, Commit(t), PreparedAll(stores, t), UpdatedAll(stores, t), 0) && Fresh(root)
    requires r.phase == Committing && r.txn == t && root.generation < t.generation
    requires r.store == root.(flash := WithPending(root.flash, Record(t.generation, MeshConfig(GroundRoot, t.network))))
    ensures
      var f' := Step(f, Install(true, true, true));
      f'.nodes == UpdatedAll(stores, t) && f'.root.store == Updated(root, t, GroundRoot) && f'.root.phase == Idle &&
      f'.root.committed == Everyone(|stores|) && f'.root.failed == r.failed
  {
    var before, after := PreparedAll(stores, t), UpdatedAll(stores, t);
    assert before[..0] + after[0..] == after;
    assert From(0, |stores|) == Everyone(|stores|);
  }

  lemma StartTold(root: Store, stores: seq<Store>)
    ensures Told(Start(root, stores), root, stores, 0)
  {
  }

  /** Everyone reports, the root begins, and all nodes prepare. */
  lemma {:induction false} EveryonePrepares(root: Store, stores: seq<Store>, network: nat)
    returns (es: seq<Event>, t: Txn, told: map<nat, nat>)
    requires Fresh(root) && forall s :: s in stores ==> Fresh(s)
    requires root.generation < GENERATION_MAX && forall s :: s in stores ==> s.generation < GENERATION_MAX
    ensures Next(t.generation, root, stores) && t.network == network
    ensures Asked(Run(Start(root, stores), es), Waits(root, t, told), Prepare(t, network), Start(root, stores).nodes,
                  PreparedAll(stores, t), 0)
  {
    hide Step, Run, Asked, Told, NextTxn, Handled, Agree;
    var f0 := Start(root, stores);
    StartTold(root, stores);
    var reports := AllTell(f0, root, stores, 0);
    var f1 := Run(f0, reports);
    ChoosesNext(f1, root, stores, network);
    t, told := NextTxn(f1, network), f1.root.reports;
    AllAgree(root, stores, t);
    Begins(f1, root, stores, t);
    var begin := Begin(network, Everyone(|stores|), true, true);
    var prepares := AllAnswer(Step(f1, begin), Waits(root, t, told), Prepare(t, network), f0.nodes, PreparedAll(stores, t), |stores|);
    es := reports + ([begin] + prepares);
    RunConcat(f0, reports, [begin] + prepares);
    RunConcat(f1, [begin], prepares);
    RunOne(f1, begin);
  }

  /** From any fleet there is a run that brings every node and the root to the new configuration, all under the
      generation after the highest one in the fleet; the root then knows that all nodes followed. */
  lemma {:induction false} UpdateGoesThrough(root: Store, stores: seq<Store>, network: nat) returns (es: seq<Event>, g: nat)
    requires Fresh(root) && forall s :: s in stores ==> Fresh(s)
    requires root.generation < GENERATION_MAX && forall s :: s in stores ==> s.generation < GENERATION_MAX
    ensures Next(g, root, stores)
    ensures
      var f := Run(Start(root, stores), es);
      |f.nodes| == |stores| && InForce(f.root.store, MeshConfig(GroundRoot, network), g) && f.root.phase == Idle &&
      (forall i :: 0 <= i < |stores| ==> i in f.root.committed && InForce(f.nodes[i].store, MeshConfig(AirNode, network), g))
  {
    hide Step, Run, Asked, Handled, Agree;
    var prepares, t, told := EveryonePrepares(root, stores, network);
    var f0 := Start(root, stores);
    var f2, r := Run(f0, prepares), Waits(root, t, told);
    g := t.generation;
    AllAgree(root, stores, t);
    Decides(f2, r, stores, f0.nodes, t);
    var decide, install := Decide(Everyone(|stores|)), Install(true, true, true);
    var r' := r.(phase := Committing, prepared := Everyone(|stores|));
    var commits := AllAnswer(Step(f2, decide), r', Commit(t), PreparedAll(stores, t), UpdatedAll(stores, t), |stores|);
    var f3 := Run(Step(f2, decide), commits);
    InstallsLast(f3, r', root, stores, t);
    es := prepares + ([decide] + (commits + [install]));
    RunConcat(f0, prepares, [decide] + (commits + [install]));
    RunConcat(f2, [decide], commits + [install]);
    RunOne(f2, decide);
    RunConcat(Step(f2, decide), commits, [install]);
    RunOne(f3, install);
  }

  // ---------- An update given up ----------

  /** The abort has reached nodes k and up. */
  predicate Forgetting(f: Fleet, t: Txn, before: seq<Node>, after: seq<Node>, k: nat) {
    && |before| == |after| && k <= |after| && f.nodes == before[..k] + after[k..]
    && f.net == Copies(k, Everyone(|after|), Abort(t))
  }

  predicate Forgets(t: Txn, before: seq<Node>, after: seq<Node>) {
    |before| == |after| && forall i :: 0 <= i < |before| ==> Handled(before[i], Abort(t), SMOOTH) == Reply(after[i], None)
  }

  lemma OneForgets(f: Fleet, t: Txn, before: seq<Node>, after: seq<Node>, k: nat)
    requires k < |after| && Forgetting(f, t, before, after, k + 1) && Forgets(t, before, after)
    ensures var f' := Step(f, Arrive(Down(k, Abort(t)), SMOOTH));
      Forgetting(f', t, before, after, k) && f'.root == f.root
  {
    hide Handled, Copies;
    CopiesNext(k, |after|, Abort(t));
    var rest := Copies(k, Everyone(|after|), Abort(t));
    assert f.nodes[k] == before[k];
    assert rest + multiset{Down(k, Abort(t))} - multiset{Down(k, Abort(t))} + multiset{} == rest;
    assert (before[..k + 1] + after[k + 1..])[k := after[k]] == before[..k] + after[k..];
  }

  lemma {:induction false} AllForget(f: Fleet, t: Txn, before: seq<Node>, after: seq<Node>, k: nat) returns (es: seq<Event>)
    requires k <= |after| && Forgetting(f, t, before, after, k) && Forgets(t, before, after)
    ensures Forgetting(Run(f, es), t, before, after, 0) && Run(f, es).root == f.root
    decreases k
  {
    hide Forgetting, Forgets, Step, Run;
    if k == 0 {
      es := [];
      RunNone(f);
    } else {
      var e := Arrive(Down(k - 1, Abort(t)), SMOOTH);
      OneForgets(f, t, before, after, k - 1);
      var more := AllForget(Step(f, e), t, before, after, k - 1);
      es := [e] + more;
      RunConcat(f, [e], more);
      RunOne(f, e);
    }
  }

  function ForgotAll(stores: seq<Store>, t: Txn): (ns: seq<Node>)
    ensures |ns| == |stores|
  {
    seq(|stores|, i requires 0 <= i < |stores| => Node(stores[i], None, {t}, {t}))
  }

  lemma PreparedForgets(stores: seq<Store>, t: Txn)
    requires forall s :: s in stores ==> Fresh(s)
    ensures Forgets(t, PreparedAll(stores, t), ForgotAll(stores, t))
  {
    hide Settled;
    forall i | 0 <= i < |stores|
      ensures Handled(PreparedAll(stores, t)[i], Abort(t), SMOOTH) == Reply(ForgotAll(stores, t)[i], None)
    {
      assert stores[i] in stores;
    }
  }

  lemma GivesUpPrepared(f: Fleet, r: Root, root: Store, stores: seq<Store>, before: seq<Node>, t: Txn)
    requires Asked(f, r, Prepare(t, t.network), before, PreparedAll(stores, t), 0) && Fresh(root)
    requires r.phase == Preparing && r.txn == t
    requires r.store == root.(flash := WithPending(root.flash, Record(t.generation, MeshConfig(GroundRoot, t.network))))
    ensures
      var f' := Step(f, GiveUp(Everyone(|stores|), true, true));
      Forgetting(f', t, PreparedAll(stores, t), ForgotAll(stores, t), |stores|) && f'.root.store == root && f'.root.phase == Idle
  {
    var before', after := PreparedAll(stores, t), ForgotAll(stores, t);
    assert before[..0] + before'[0..] == before';
    assert before'[..|stores|] + after[|stores|..] == before';
    var sent := Copies(|stores|, Everyone(|stores|), Abort(t));
    assert Copies(0, Everyone(|stores|), Prepare(t, t.network)) == multiset{};
    assert multiset{} + sent == sent;
  }

  /** An update that every node prepared and the root then gives up leaves no trace: every store, flash included, is as
      it was before, and no node remembers the transaction. */
  lemma {:induction false} GivenUpLeavesNoTrace(root: Store, stores: seq<Store>, network: nat) returns (es: seq<Event>)
    requires Fresh(root) && forall s :: s in stores ==> Fresh(s)
    requires root.generation < GENERATION_MAX && forall s :: s in stores ==> s.generation < GENERATION_MAX
    ensures
      var f := Run(Start(root, stores), es);
      |f.nodes| == |stores| && f.root.store == root && f.root.phase == Idle &&
      (forall i :: 0 <= i < |stores| ==> f.nodes[i].store == stores[i] && f.nodes[i].pending == None && f.nodes[i].staged != {})
  {
    hide Step, Run, Asked, Handled, Forgets;
    var prepares, t, told := EveryonePrepares(root, stores, network);
    var f2, r := Run(Start(root, stores), prepares), Waits(root, t, told);
    GivesUpPrepared(f2, r, root, stores, Start(root, stores).nodes, t);
    PreparedForgets(stores, t);
    var giveUp := GiveUp(Everyone(|stores|), true, true);
    var aborts := AllForget(Step(f2, giveUp), t, PreparedAll(stores, t), ForgotAll(stores, t), |stores|);
    es := prepares + ([giveUp] + aborts);
    RunConcat(Start(root, stores), prepares, [giveUp] + aborts);
    RunConcat(f2, [giveUp], aborts);
    RunOne(f2, giveUp);
  }
}
