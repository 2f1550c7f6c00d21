/** How an aborted update can leave a node that refuses every later one (components/airlink_mesh/airlink_mesh.c):
    the abort forgets a verified image but leaves it staged. */
module MeshOtaWedge {
  import opened Bits
  import opened OtaStream
  import opened MeshOtaNode
  import opened MeshOtaFleet
  import opened MeshOtaSafety
  import opened MeshOtaProgress

  /** No update is running, but an image is still staged. */
  predicate Wedged(n: Node) { !n.air.active && n.stream.Staged? }

  /** In every reachable state, a permitted announcement is accepted exactly if the node has nothing staged. */
  lemma {:induction false} AcceptedUnlessStaged(n: nat, es: seq<Event>, p: Packet)
    requires p in Run(Start(n), es).net && p.Down? && p.body.BeginBody?
    ensures
      var f := Run(Start(n), es);
      p.to < |f.members| &&
      var node := f.members[p.to].node;
      var r := OnBegin(node, p.body.begin, true, true);
      r.ack.Some? && r.ack.value.state == if node.stream.Staged? then Error else Ready
  {
    StartOkay(n);
    RunPreserves(Start(n), es);
    var f := Run(Start(n), es);
    assert PacketOk(f.log, f.members, p);
    assert MemberOk(f.log, f.members[p.to]);
  }

  /** An abort leaves the node idle; it leaves it wedged exactly if the image was verified. */
  lemma AbortWedges(n: Node)
    ensures !OnAbort(n).air.active
    ensures Wedged(OnAbort(n)) <==> n.stream.Staged?
  {
  }

  lemma HandledWedged(n: Node, body: Body, x: Fortune)
    requires Wedged(n) && |n.air.slots| == WINDOW
    ensures Wedged(Handled(n, body, x).node)
    ensures body.BeginBody? ==>
      var ack := Handled(n, body, x).ack;
      ack.Some? && ack.value.state == Error
  {
  }

  lemma StepWedged(f: Fleet, e: Event, i: nat)
    requires i < |f.members| && Wedged(f.members[i].node) && e != Restart(i)
    ensures i < |Step(f, e).members| && Wedged(Step(f, e).members[i].node)
  {
    hide Handled, Copies, Fed, Marked, Renamed;
    if e.Arrive? && e.packet.Down? && e.packet.to == i && |f.members[i].node.air.slots| == WINDOW {
      HandledWedged(f.members[i].node, e.packet.body, e.fortune);
    }
  }

  /** A wedged node stays wedged over any run in which it does not restart. */
  lemma {:induction false} StaysWedged(f: Fleet, es: seq<Event>, i: nat)
    requires i < |f.members| && Wedged(f.members[i].node) && Restart(i) !in es
    ensures i < |Run(f, es).members| && Wedged(Run(f, es).members[i].node)
    decreases es
  {
    hide Step, Wedged;
    if es != [] {
      StepWedged(f, es[0], i);
      StaysWedged(Step(f, es[0]), es[1..], i);
    }
  }

  /** So, whatever else happens, it answers every announcement with an error until it restarts. */
  lemma {:induction false} RefusedUntilRestart(f: Fleet, es: seq<Event>, i: nat, b: BeginMessage, x: Fortune)
    requires i < |f.members| && Wedged(f.members[i].node) && Restart(i) !in es
    ensures
      var f' := Run(f, es);
      i < |f'.members| &&
      var ack := OnBegin(f'.members[i].node, b, x.permitted, x.ok).ack;
      ack.Some? && ack.value.state == Error
  {
    StaysWedged(f, es, i);
  }

  // ---------- A run that gets there ----------

  lemma Cancels(f: Fleet, n: Node, s: Session)
    requires Alone(f, n, s, multiset{}) && f.root.phase == Verifying && f.root.targets == {0} && n.stream.Staged?
    ensures var f' := Run(f, [Cancel, Arrive(Down(0, AbortBody), Smooth())]);
      |f'.members| == 1 && Wedged(f'.members[0].node)
  {
    hide Wedged;
    OneCopy(AbortBody);
    var f1, e := Step(f, Cancel), Arrive(Down(0, AbortBody), Smooth());
    assert f1.net == multiset{Down(0, AbortBody)};
    AbortWedges(n);
    assert [Cancel] + [e] == [Cancel, e];
    RunOne(f, Cancel);
    RunMore(f, [Cancel], e);
  }

  /** Any image, distributed to the only node, verified and then cancelled, leaves that node wedged. */
  lemma WedgedReachable(s: Session, data: seq<u8>) returns (es: seq<Event>)
    requires data != []
    ensures var f := Run(Start(1), es);
      |f.members| == 1 && Wedged(f.members[0].node)
  {
    hide Run, Step, Alone, Wedged, VerifiedNode;
    var before, last := VerifiedRun(s, data);
    var n := VerifiedNode(s, data, last);
    VerifiedShape(s, data, last);
    Cancels(Run(Start(1), before), n, s);
    var cancelled := [Cancel, Arrive(Down(0, AbortBody), Smooth())];
    es := before + cancelled;
    RunConcat(Start(1), before, cancelled);
  }
}
