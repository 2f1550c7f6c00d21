/** The Canard object over whole runs: what CanardSystem proves of every run of the value holds of the object. */
module CanardRun {
  import opened Bits
  import opened CanardFrame
  import opened CanardTransport
  import opened CanardModel
  import opened CanardPool
  import opened CanardSystem
  import opened CanardTraffic
  import opened CanardTxQueue
  import opened CanardInstance

  /** What the application does with its instance. */
  datatype Input =
    | Receive(frame: Frame, time: u64, accept: Option<u64>)
    | Broadcast(signature: u64, dataTypeId: u16, tid: u8, priority: u8, payload: seq<u8>)
    | Service(destination: u8, signature: u64, serviceId: u8, tid: u8, priority: u8, request: bool, payload: seq<u8>)
    | Transmit
    | CleanUp(time: u64)

  /** CAN frames carry at most eight bytes; payload lengths are sixteen bits wide. */
  predicate Proper(x: Input) {
    match x
    case Receive(f, _, _) => |f.data| <= FRAME_DATA_MAX
    case Broadcast(_, _, _, _, payload) => |payload| < 0x1_0000
    case Service(_, _, _, _, _, _, payload) => |payload| < 0x1_0000
    case Transmit => true
    case CleanUp(_) => true
  }

  /** The event an input brings about; only what overflowed storage shows is left to the instance. */
  function EventOf(x: Input, memory: seq<u8>): Event {
    match x
    case Receive(f, time, accept) => Received(f, Moment(time, memory), accept)
    case Broadcast(signature, dataTypeId, tid, priority, payload) => Broadcasted(signature, dataTypeId, tid, priority, payload)
    case Service(destination, signature, serviceId, tid, priority, request, payload) =>
      Requested(destination, signature, serviceId, tid, priority, request, payload)
    case Transmit => Transmitted
    case CleanUp(time) => CleanedUp(time)
  }

  ghost predicate Causes(x: Input, e: Event) { exists memory: seq<u8> :: e == EventOf(x, memory) }

  ghost predicate Brings(xs: seq<Input>, es: seq<Event>) {
    |xs| == |es| && forall i :: 0 <= i < |xs| ==> Causes(xs[i], es[i])
  }

  /** What the application finds after one input: the delivered payload, and whether the library's decoding
      functions may read it from where it is scattered. */
  datatype Finding = Finding(payload: Option<seq<u8>>, readable: bool)

  /** The payloads found that frames for this descriptor delivered. */
  function Found(es: seq<Event>, findings: seq<Finding>, nodeId: NodeId, descriptor: nat): seq<seq<u8>>
    requires |es| == |findings|
  {
    if es == [] then []
    else
      (if Reaches(es[0], nodeId, descriptor) && findings[0].payload.Some? then [findings[0].payload.value] else []) +
      Found(es[1..], findings[1..], nodeId, descriptor)
  }

  lemma Shown(c: Canard)
    ensures c.Meaning().held == |c.held| && c.Meaning().nodeId == c.nodeId
  {
  }

  lemma BringsMore(xs: seq<Input>, e: Event, rest: seq<Event>)
    requires xs != [] && Brings(xs[1..], rest) && Causes(xs[0], e)
    ensures Brings(xs, [e] + rest)
  {
    hide Causes;
    forall i | 0 <= i < |xs| ensures Causes(xs[i], ([e] + rest)[i]) {
      if i > 0 {
        assert rest[i - 1] == ([e] + rest)[i] && xs[1..][i - 1] == xs[i];
      }
    }
  }

  lemma ProperSized(x: Input, e: Event)
    requires Proper(x) && Causes(x, e)
    ensures Sized(e)
  {
  }

  lemma NothingElse(m: Model, e: Event, d: nat)
    ensures !Reaches(e, m.nodeId, d) ==> DeliveredBy(m, e, d) == []
  {
  }

  /** One input: the object does what Apply says, and the application finds what the event delivers. */
  method Step(c: Canard, x: Input) returns (sent: seq<Frame>, ghost e: Event, ghost finding: Finding)
    requires c.Valid() && c.held == [] && Proper(x)
    modifies c, c.arena
    ensures c.Valid() && c.held == []
    ensures Causes(x, e)
    ensures c.Meaning() == Apply(old(c.Meaning()), e) && sent == LeavingBy(old(c.Meaning()), e)
    ensures forall d :: Reaches(e, old(c.nodeId), d) ==>
      DeliveredBy(old(c.Meaning()), e, d) == if finding.payload.Some? then [finding.payload.value] else []
    ensures AllRegular(old(c.Meaning()).sessions) ==> finding.readable
  {
    hide Canard.View, Wf, HandleRx, SendBroadcast, SendService, Cleanup, Regular, Descriptor, Compatible;
    ghost var m0, memory := c.Meaning(), [];
    Shown(c);
    sent, finding := [], Finding(None, true);
    match x {
      case Receive(f, time, accept) =>
        var code, transfer;
        code, transfer, memory := c.HandleRxFrame(f, time, accept);
        finding := Finding(c.Payload(transfer), c.Readable(transfer));
        c.ReleaseTransferPayload();
      case Broadcast(signature, dataTypeId, tid, priority, payload) =>
        var code, tid' := c.BroadcastTransfer(signature, dataTypeId, tid, priority, payload);
      case Service(destination, signature, serviceId, tid, priority, request, payload) =>
        var code, tid' := c.RequestOrRespond(destination, signature, serviceId, tid, priority, request, payload);
      case Transmit =>
        var frame := c.PeekTxQueue();
        if frame.Some? {
          sent := [frame.value];
          c.PopTxQueue();
        }
      case CleanUp(time) =>
        c.CleanupStaleTransfers(time);
    }
    e := EventOf(x, memory);
    ApplyConserves(m0, e);
    Shown(c);
  }

  /** Any run: the object ends in the state the run leads to, the application finds exactly what the run delivers
      from each session, exactly the frames that leave the queue are sent, no block gets lost, and as long as no session
      counts beyond its ten bits everything delivered can be read. */
  method Drive(c: Canard, xs: seq<Input>) returns (sent: seq<Frame>, ghost es: seq<Event>, ghost findings: seq<Finding>)
    requires c.Valid() && c.held == [] && forall x :: x in xs ==> Proper(x)
    modifies c, c.arena
    ensures c.Valid() && c.held == []
    ensures Brings(xs, es) && |findings| == |es|
    ensures c.Meaning() == ApplyAll(old(c.Meaning()), es) && sent == LeavingAll(old(c.Meaning()), es)
    ensures Sorted(old(c.Meaning()).queue) ==> Sorted(c.Meaning().queue)
    ensures forall d :: Found(es, findings, old(c.nodeId), d) == Deliveries(old(c.Meaning()), es, d)
    ensures Total(c.Meaning()) == Total(old(c.Meaning()))
    ensures AllRegular(old(c.Meaning()).sessions) && AllCountable(old(c.Meaning()), es) ==>
      forall i :: 0 <= i < |findings| ==> findings[i].readable
    decreases xs
  {
    hide Canard.View, Canard.Valid, Apply, AllRegular, Countable, Total, DeliveredBy, Reaches, Causes, LeavingBy, Sorted;
    if xs == [] {
      return [], [], [];
    }
    ghost var m0 := c.Meaning();
    Shown(c);
    var frames;
    ghost var e, finding;
    frames, e, finding := Step(c, xs[0]);
    ghost var m1 := c.Meaning();
    Shown(c);
    NodeKept(m0, e);
    ApplyConserves(m0, e);
    if AllRegular(m0.sessions) && Countable(m0, e) {
      ApplyRegular(m0, e);
    }
    if Sorted(m0.queue) {
      ProperSized(xs[0], e);
      EventOrdered(m0, e, 0);
    }
    var more;
    ghost var rest, others;
    more, rest, others := Drive(c, xs[1..]);
    sent, es, findings := frames + more, [e] + rest, [finding] + others;
    assert es[1..] == rest && findings[1..] == others;
    BringsMore(xs, e, rest);
    forall d ensures Found(es, findings, m0.nodeId, d) == Deliveries(m0, es, d) {
      NothingElse(m0, e, d);
    }
  }
}
