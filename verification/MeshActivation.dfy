/** The root's activation task: the nodes one by one, the deepest layer first, then the root's own image
    (components/airlink_mesh/airlink_mesh.c). The waits for a node to come back are bounded and their outcome is
    only logged, so they leave no trace here. */
module MeshActivation {
  import opened OtaStream

  const DEEPEST_LAYER := 4

  /** A node asked to boot its staged image, with the layer it was found in. */
  datatype Command = Command(layer: nat, node: nat)

  /** What the node table and the fleet's safety gate say at a place, by the time it is visited. */
  type Reading = (nat, nat) -> bool

  /** Deeper layers first, within a layer in table order. */
  predicate Before(a: Command, b: Command) { a.layer > b.layer || (a.layer == b.layer && a.node < b.node) }

  ghost predicate InOrder(commands: seq<Command>) {
    forall i, j :: 0 <= i < j < |commands| ==> Before(commands[i], commands[j])
  }

  /** The places visited ahead of this one. */
  predicate Visited(c: Command, count: nat, layer: nat, node: nat) {
    1 <= c.layer <= DEEPEST_LAYER && c.node < count && Before(c, Command(layer, node))
  }

  /** Exactly the selected places visited so far have been commanded. */
  ghost predicate Exact(commands: seq<Command>, selected: Reading, count: nat, layer: nat, node: nat) {
    forall c: Command :: c in commands <==> Visited(c, count, layer, node) && selected(c.layer, c.node)
  }

  ghost predicate Passed(commands: seq<Command>, safe: Reading) {
    forall i :: 0 <= i < |commands| ==> safe(commands[i].layer, commands[i].node)
  }

  lemma OneMore(commands: seq<Command>, selected: Reading, count: nat, layer: nat, node: nat)
    requires InOrder(commands) && Exact(commands, selected, count, layer, node)
    requires 1 <= layer <= DEEPEST_LAYER && node < count && selected(layer, node)
    ensures InOrder(commands + [Command(layer, node)])
    ensures Exact(commands + [Command(layer, node)], selected, count, layer, node + 1)
  {
    var c, more := Command(layer, node), commands + [Command(layer, node)];
    forall i, j | 0 <= i < j < |more| ensures Before(more[i], more[j]) {
      assert i < |commands| && more[i] == commands[i] && commands[i] in commands;
    }
    forall d: Command ensures d in more <==> Visited(d, count, layer, node + 1) && selected(d.layer, d.node) {
      assert d in more <==> d in commands || d == c;
    }
  }

  /** root_ota_activation_task. `own` is the root's staged image, `booted` whether selecting it would succeed. */
  method ActivationTask(count: nat, selected: Reading, safe: Reading, includeRoot: bool, own: OtaStream, booted: bool)
    returns (commands: seq<Command>, finished: bool, ownActivated: bool)
    requires own.Valid()
    modifies own
    ensures own.Valid() && InOrder(commands) && Passed(commands, safe)
    ensures finished ==> Exact(commands, selected, count, 0, count)
    ensures !finished ==> exists layer: nat, node: nat ::
      1 <= layer <= DEEPEST_LAYER && node < count && selected(layer, node) && !safe(layer, node) &&
      Exact(commands, selected, count, layer, node)
    ensures ownActivated <==> finished && includeRoot && booted && old(own.Value()).Staged?
    ensures finished && includeRoot ==> own.Value() == Idle
    ensures !includeRoot ==> own.Value() == old(own.Value())
    ensures !finished && old(own.Value()).Staged? ==> own.Value() == old(own.Value())
  {
    commands, finished, ownActivated := [], false, false;
    var layer := DEEPEST_LAYER;
    while layer >= 1
      invariant 0 <= layer <= DEEPEST_LAYER && InOrder(commands) && Passed(commands, safe)
      invariant Exact(commands, selected, count, layer, 0)
      invariant own.Valid() && own.Value() == old(own.Value())
    {
      for node := 0 to count
        invariant InOrder(commands) && Passed(commands, safe)
        invariant Exact(commands, selected, count, layer, node)
        invariant own.Valid() && own.Value() == old(own.Value())
      {
        if selected(layer, node) {
          if !safe(layer, node) {
            if includeRoot && own.active {
              own.AbortStream();
            }
            return;
          }
          OneMore(commands, selected, count, layer, node);
          commands := commands + [Command(layer, node)];
        }
      }
      layer := layer - 1;
    }
    finished := true;
    if includeRoot {
      var result := Failed;
      if own.verified {
        result := own.ActivateStream(booted);
      }
      ownActivated := result == Ok;
      if !ownActivated && own.active {
        own.AbortStream();
      }
    }
  }

  // ---------- Layers that stay as they are ----------

  /** The table says that these nodes are targets, in these layers. */
  ghost predicate Stable(selected: Reading, targets: set<nat>, layerOf: nat -> nat) {
    forall layer, node :: selected(layer, node) <==> node in targets && layerOf(node) == layer
  }

  function Nodes(commands: seq<Command>): seq<nat> {
    if commands == [] then [] else Nodes(commands[..|commands| - 1]) + [commands[|commands| - 1].node]
  }

  lemma {:induction false} NodesAt(commands: seq<Command>)
    ensures |Nodes(commands)| == |commands| && forall i :: 0 <= i < |commands| ==> Nodes(commands)[i] == commands[i].node
  {
    if commands != [] {
      NodesAt(commands[..|commands| - 1]);
    }
  }

  /** While no node changes its layer, a finished task has commanded every target of layers 1 to 4 exactly once, each
      before any node of a shallower layer, and no other node: a target in no such layer is left out. */
  lemma EachTargetOnce(commands: seq<Command>, selected: Reading, count: nat,
                       targets: set<nat>, layerOf: nat -> nat)
    requires InOrder(commands) && Exact(commands, selected, count, 0, count)
    requires Stable(selected, targets, layerOf) && forall t :: t in targets ==> t < count
    ensures forall t :: t in Nodes(commands) <==> t in targets && 1 <= layerOf(t) <= DEEPEST_LAYER
    ensures forall i, j :: 0 <= i < j < |Nodes(commands)| ==>
      Nodes(commands)[i] != Nodes(commands)[j] && layerOf(Nodes(commands)[i]) >= layerOf(Nodes(commands)[j])
  {
    NodesAt(commands);
    forall i | 0 <= i < |commands|
      ensures commands[i].node in targets && layerOf(commands[i].node) == commands[i].layer
      ensures 1 <= commands[i].layer <= DEEPEST_LAYER {
      assert commands[i] in commands;
    }
    forall t | t in targets && 1 <= layerOf(t) <= DEEPEST_LAYER ensures t in Nodes(commands) {
      assert Command(layerOf(t), t) in commands;
    }
    forall i, j | 0 <= i < j < |commands|
      ensures Nodes(commands)[i] != Nodes(commands)[j] && layerOf(Nodes(commands)[i]) >= layerOf(Nodes(commands)[j]) {
      assert Before(commands[i], commands[j]);
    }
  }
}
