/** What one Canard instance puts on the bus over a whole run, and in which order. */
module CanardTraffic {
  import opened Bits
  import opened CanardFrame
  import opened TransferCrc
  import opened CanardTransport
  import opened CanardTxQueue
  import opened CanardModel
  import opened CanardSystem

  // ---------- Frames that enter and leave the queue ----------

  /** A send request as it reaches the queue. */
  datatype Asked = Asked(id: Id, payload: seq<u8>, crc: Register, tid: Tid)

  /** What an event asks to be sent, if it asks for anything that is permitted. */
  function Requests(m: Model, e: Event): Option<Asked> {
    match e
    case Broadcasted(signature, dataTypeId, tid, priority, payload) =>
      if priority > 31 || (m.nodeId == 0 && (|payload| > 7 || dataTypeId >= 4)) then None
      else
        var id := if m.nodeId == 0 then AnonymousId(priority, Discriminator(Crc(INITIAL, payload)), dataTypeId)
                  else BroadcastId(priority, dataTypeId, m.nodeId);
        Some(Asked(id + FLAG_EFF, payload, TransferCrcOf(signature, payload), tid % 32))
    case Requested(destination, signature, serviceId, tid, priority, request, payload) =>
      if priority > 31 || m.nodeId == 0 then None
      else
        Some(Asked(ServiceId(priority, serviceId, request, destination, m.nodeId) + FLAG_EFF, payload,
                     TransferCrcOf(signature, payload), tid % 32))
    case Received(_, _, _) => None
    case Transmitted => None
    case CleanedUp(_) => None
  }

  /** The frames that enter the queue: all of them when there is room, else none; only a payload whose length with the
      CRC wraps around in sixteen bits enters in part. */
  function Entering(free: nat, r: Asked): seq<Frame> {
    var fs := TransferFrames(r.id, r.payload, r.crc, r.tid);
    if FrameCount(|r.payload|) <= free then fs
    else if |r.payload| >= 0xFFFE && free <= |fs| then fs[..free]
    else []
  }

  function EnteringBy(m: Model, e: Event): seq<Frame> {
    match Requests(m, e)
    case Some(r) => Entering(m.free, r)
    case None => []
  }

  /** The frame a transmission takes from the queue. */
  function LeavingBy(m: Model, e: Event): seq<Frame> {
    if e.Transmitted? && m.queue != [] then [m.queue[0]] else []
  }

  function EnteringAll(m: Model, es: seq<Event>): seq<Frame>
    decreases es
  {
    if es == [] then [] else EnteringBy(m, es[0]) + EnteringAll(Apply(m, es[0]), es[1..])
  }

  function LeavingAll(m: Model, es: seq<Event>): seq<Frame>
    decreases es
  {
    if es == [] then [] else LeavingBy(m, es[0]) + LeavingAll(Apply(m, es[0]), es[1..])
  }

  /** Payload lengths are sixteen bits wide. */
  predicate Sized(e: Event) {
    (e.Broadcasted? ==> |e.payload| < 0x1_0000) && (e.Requested? ==> |e.payload| < 0x1_0000)
  }

  lemma SendEnters(m: Model, r: Asked)
    requires |r.payload| < 0x1_0000
    ensures SendFrames(m, r.id, r.payload, r.crc, r.tid).model.queue == InsertAll(m.queue, Entering(m.free, r))
  {
    hide MultiFrames, Insert;
    var fs := TransferFrames(r.id, r.payload, r.crc, r.tid);
    InsertAllNothing(m.queue);
    if |r.payload| >= FRAME_DATA_MAX {
      MultiFrameCount(r.id, r.payload, r.crc, r.tid, 0, false);
      if m.free == 0 {
        assert fs[..0] == [];
      }
    } else {
      assert fs[1..] == [];
      InsertAllNothing(Insert(m.queue, fs[0]));
    }
  }

  /** Every event changes the queue by the frames that enter and leave, and in no other way. */
  lemma QueueChanges(m: Model, e: Event)
    requires Sized(e)
    ensures Apply(m, e).queue == if e.Transmitted? then m.queue[|LeavingBy(m, e)|..] else InsertAll(m.queue, EnteringBy(m, e))
  {
    hide SendFrames, Entering, HandleRx, InsertAll, Discriminator, TransferCrcOf, Descriptor;
    InsertAllNothing(m.queue);
    match e
    case Received(f, now, accept) =>
      HandleRxOnlyFor(m, f, now, accept);
    case Broadcasted(_, _, _, _, _) =>
      if Requests(m, e).Some? {
        SendEnters(m, Requests(m, e).value);
      }
    case Requested(_, _, _, _, _, _, _) =>
      if Requests(m, e).Some? {
        SendEnters(m, Requests(m, e).value);
      }
    case Transmitted =>
    case CleanedUp(_) =>
  }

  /** All frames of a transfer carry its identifier and its transfer ID. */
  lemma {:induction false} MultiFramesMarked(id: Id, payload: seq<u8>, crc: Register, tid: Tid, index: nat, toggle: bool, f: Frame)
    requires index <= |payload| && f in MultiFrames(id, payload, crc, tid, index, toggle)
    ensures f.id == id && TransferId(Tail(f)) == tid
    decreases |payload| - index
  {
    hide CrcBytes;
    if index < |payload| {
      var first := MultiFrame(id, payload, crc, tid, index, toggle);
      if f == first {
        var next := index + FrameShare(|payload|, index);
        TailByteFields(if next == |payload| then END else if index == 0 then START else 0, toggle, tid);
      } else {
        MultiFramesMarked(id, payload, crc, tid, index + FrameShare(|payload|, index), !toggle, f);
      }
    }
  }

  lemma FramesMarked(r: Asked, free: nat, f: Frame)
    requires f in Entering(free, r)
    ensures f.id == r.id && TransferId(Tail(f)) == r.tid
  {
    hide MultiFrames;
    if |r.payload| < FRAME_DATA_MAX {
      TailByteFields(START + END, false, r.tid);
    } else {
      MultiFramesMarked(r.id, r.payload, r.crc, r.tid, 0, false, f);
    }
  }

  /** Whoever receives a frame that a send request put into the queue is told the sender's own data type, priority, node
      and transfer ID; a service frame, for a destination that is a node identifier, also tells it and the direction. */
  lemma SentIsTold(m: Model, e: Event, f: Frame, now: u64)
    requires f in EnteringBy(m, e) && (e.Requested? ==> e.destination < 0x80)
    ensures e.Broadcasted? || e.Requested?
    ensures e.Broadcasted? ==>
      InfoOf(f, now) == TransferInfo(now, e.dataTypeId, Broadcast, e.tid % 32, e.priority, m.nodeId)
    ensures e.Requested? ==>
      InfoOf(f, now) == TransferInfo(now, e.serviceId, if e.request then Request else Response, e.tid % 32, e.priority, m.nodeId) &&
      DestinationOf(f.id) == e.destination
  {
    hide Entering, TransferCrcOf, Discriminator, DataTypeOf, TransferTypeOf, PriorityOf, SourceOf, DestinationOf, Tail;
    FramesMarked(Requests(m, e).value, m.free, f);
    if e.Requested? {
      ServiceIdFields(e.priority, e.serviceId, e.request, e.destination, m.nodeId);
    } else if m.nodeId != 0 {
      BroadcastIdFields(e.priority, e.dataTypeId, m.nodeId);
    } else {
      AnonymousIdFields(e.priority, Discriminator(Crc(INITIAL, e.payload)), e.dataTypeId);
    }
  }

  lemma {:induction false} EventOrdered(m: Model, e: Event, id: Id)
    requires Sized(e) && Sorted(m.queue)
    ensures Sorted(Apply(m, e).queue)
    ensures Select(LeavingBy(m, e), id) + Select(Apply(m, e).queue, id) == Select(m.queue, id) + Select(EnteringBy(m, e), id)
  {
    hide Apply, Sorted, InsertAll, Entering, Requests;
    QueueChanges(m, e);
    if e.Transmitted? {
      Nothing(Select(m.queue, id));
      SelectNothing(id);
      RequestsNothing(m, e);
      if m.queue != [] {
        TailSorted(m.queue);
        assert m.queue == [m.queue[0]] + m.queue[1..];
        SelectConcat([m.queue[0]], m.queue[1..], id);
      } else {
        assert m.queue[0..] == m.queue;
      }
    } else {
      InsertAllOrder(m.queue, EnteringBy(m, e), id);
      SelectNothing(id);
      Nothing(Select(InsertAll(m.queue, EnteringBy(m, e)), id));
    }
  }

  lemma SelectNothing(id: Id)
    ensures Select([], id) == []
  {
  }

  lemma RequestsNothing(m: Model, e: Event)
    requires e.Transmitted?
    ensures EnteringBy(m, e) == []
  {
  }

  lemma Nothing(a: seq<Frame>)
    ensures [] + a == a && a + [] == a
  {
  }

  /** Over every run: the queue is in arbitration order, and for each identifier the frames transmitted, followed by
      those still queued, are those queued before, followed by those that entered. Nothing is lost, repeated or
      reordered within an identifier. */
  lemma {:induction false} TrafficOrdered(m: Model, es: seq<Event>, id: Id)
    requires Sorted(m.queue) && forall e :: e in es ==> Sized(e)
    ensures Sorted(ApplyAll(m, es).queue)
    ensures Select(LeavingAll(m, es), id) + Select(ApplyAll(m, es).queue, id) ==
            Select(m.queue, id) + Select(EnteringAll(m, es), id)
    decreases es
  {
    hide Sorted, Apply, Select, EnteringBy, LeavingBy;
    if es == [] {
      SelectNothing(id);
      Nothing(Select(m.queue, id));
    } else {
      var m1, rest := Apply(m, es[0]), es[1..];
      EventOrdered(m, es[0], id);
      TrafficOrdered(m1, rest, id);
      var (out, more) := (LeavingBy(m, es[0]), LeavingAll(m1, rest));
      var (enter, later) := (EnteringBy(m, es[0]), EnteringAll(m1, rest));
      SelectConcat(out, more, id);
      SelectConcat(enter, later, id);
      Chain(Select(out, id), Select(more, id), Select(ApplyAll(m1, rest).queue, id), Select(m1.queue, id),
            Select(later, id), Select(m.queue, id), Select(enter, id));
    }
  }

  lemma Chain(out: seq<Frame>, more: seq<Frame>, end: seq<Frame>, middle: seq<Frame>, later: seq<Frame>, begin: seq<Frame>,
              enter: seq<Frame>)
    requires more + end == middle + later && out + middle == begin + enter
    ensures (out + more) + end == begin + (enter + later)
  {
    assert (out + more) + end == out + (more + end);
    assert out + (middle + later) == (out + middle) + later;
    assert (begin + enter) + later == begin + (enter + later);
  }

  // ---------- Consecutive transfer IDs ----------

  /** One data type broadcast with one transfer ID counter, and anything else in between. */
  datatype Action = Send(priority: u8, payload: seq<u8>) | Other(event: Event)

  /** The instance, the caller's counter, and the accepted broadcasts with the frames that entered for each. */
  datatype Sender = Sender(model: Model, tid: u8, accepted: seq<(u8, seq<u8>)>, frames: seq<seq<Frame>>)

  function Act(s: Sender, signature: u64, dataTypeId: u16, a: Action): Sender {
    match a
    case Send(priority, payload) =>
      var r := SendBroadcast(s.model, signature, dataTypeId, s.tid, priority, payload);
      if r.outcome.code.Queued? then
        Sender(r.outcome.model, r.tid, s.accepted + [(priority, payload)],
               s.frames + [EnteringBy(s.model, Broadcasted(signature, dataTypeId, s.tid, priority, payload))])
      else Sender(r.outcome.model, r.tid, s.accepted, s.frames)
    case Other(e) => s.(model := Apply(s.model, e))
  }

  function ActAll(s: Sender, signature: u64, dataTypeId: u16, actions: seq<Action>): Sender
    decreases actions
  {
    if actions == [] then s else ActAll(Act(s, signature, dataTypeId, actions[0]), signature, dataTypeId, actions[1..])
  }

  /** The k-th transfer of a counter that started at `first`. */
  function TidAt(first: Tid, k: nat): Tid { (first + k) % 32 }

  function BroadcastFrames(node: NodeId, signature: u64, dataTypeId: u16, x: (u8, seq<u8>), tid: Tid): seq<Frame>
    requires x.0 < 32
  {
    TransferFrames(BroadcastId(x.0, dataTypeId, node) + FLAG_EFF, x.1, PayloadCrc(signature, x.1), tid)
  }

  /** The counter is where the number of accepted broadcasts puts it, and each entered whole with its own ID. */
  ghost predicate Counted(s: Sender, node: NodeId, signature: u64, dataTypeId: u16, first: Tid) {
    && s.model.nodeId == node && |s.frames| == |s.accepted| && s.tid == TidAt(first, |s.accepted|)
    && forall k :: 0 <= k < |s.accepted| ==>
         s.accepted[k].0 < 32 &&
         s.frames[k] == BroadcastFrames(node, signature, dataTypeId, s.accepted[k], TidAt(first, k))
  }

  predicate SizedAction(a: Action) {
    match a
    case Send(_, payload) => |payload| < 0x1_0000
    case Other(_) => true
  }

  lemma CrcUnused(id: Id, payload: seq<u8>, signature: u64, tid: Tid)
    ensures TransferFrames(id, payload, TransferCrcOf(signature, payload), tid) ==
            TransferFrames(id, payload, PayloadCrc(signature, payload), tid)
  {
  }

  lemma SendCounted(s: Sender, node: NodeId, signature: u64, dataTypeId: u16, first: Tid, priority: u8, payload: seq<u8>)
    requires node != 0 && |payload| < 0x1_0000 && Counted(s, node, signature, dataTypeId, first)
    ensures Counted(Act(s, signature, dataTypeId, Send(priority, payload)), node, signature, dataTypeId, first)
  {
    hide SendFrames, MultiFrames, PayloadCrc, BroadcastId, TransferFrames, TransferCrcOf;
    var r := SendBroadcast(s.model, signature, dataTypeId, s.tid, priority, payload);
    BroadcastSends(s.model, signature, dataTypeId, s.tid, priority, payload);
    if r.outcome.code.Queued? {
      BroadcastIdFields(priority, dataTypeId, node);
      var id := BroadcastId(priority, dataTypeId, node) + FLAG_EFF;
      AllOrNothing(s.model, id, payload, TransferCrcOf(signature, payload), s.tid % 32);
      CrcUnused(id, payload, signature, s.tid % 32);
      NextCount(first, |s.accepted|);
    }
  }

  lemma NextCount(first: Tid, k: nat)
    ensures AdvanceTid(TidAt(first, k)) == TidAt(first, k + 1) && TidAt(first, k) % 32 == TidAt(first, k)
    ensures NextTid(TidAt(first, k)) == TidAt(first, k + 1)
  {
  }

  lemma BroadcastSends(m: Model, signature: u64, dataTypeId: u16, tid: u8, priority: u8, payload: seq<u8>)
    requires m.nodeId != 0
    ensures
      var r := SendBroadcast(m, signature, dataTypeId, tid, priority, payload);
      r.outcome.code.Queued? ==>
        priority < 32 && r.tid == AdvanceTid(tid) &&
        r.outcome == SendFrames(m, BroadcastId(priority, dataTypeId, m.nodeId) + FLAG_EFF, payload,
                                TransferCrcOf(signature, payload), tid % 32)
    ensures var r := SendBroadcast(m, signature, dataTypeId, tid, priority, payload);
      r.outcome.model.nodeId == m.nodeId && (!r.outcome.code.Queued? ==> r.tid == tid)
  {
    hide MultiFrames, Insert, InsertAll;
  }

  /** Over every run, the broadcasts accepted with one counter carry consecutive transfer IDs, as StreamReceived asks
      for; those refused use none up. */
  lemma {:induction false} ConsecutiveIds(s: Sender, node: NodeId, signature: u64, dataTypeId: u16, first: Tid, actions: seq<Action>)
    requires node != 0 && Counted(s, node, signature, dataTypeId, first) && forall a :: a in actions ==> SizedAction(a)
    ensures Counted(ActAll(s, signature, dataTypeId, actions), node, signature, dataTypeId, first)
    decreases actions
  {
    hide Counted, Act;
    if actions != [] {
      ActCounted(s, node, signature, dataTypeId, first, actions[0]);
      ConsecutiveIds(Act(s, signature, dataTypeId, actions[0]), node, signature, dataTypeId, first, actions[1..]);
    }
  }

  lemma ActCounted(s: Sender, node: NodeId, signature: u64, dataTypeId: u16, first: Tid, a: Action)
    requires node != 0 && Counted(s, node, signature, dataTypeId, first) && SizedAction(a)
    ensures Counted(Act(s, signature, dataTypeId, a), node, signature, dataTypeId, first)
  {
    hide Apply, BroadcastFrames;
    match a
    case Send(priority, payload) =>
      hide Act, Counted;
      SendCounted(s, node, signature, dataTypeId, first, priority, payload);
    case Other(e) =>
      NodeKept(s.model, e);
  }

  // ---------- From broadcasts to deliveries ----------

  /** The arrival times of each transfer's frames, at a receiver that gets all of them in order. */
  function Arrivals(node: NodeId, dataTypeId: u16, accepted: seq<(u8, seq<u8>)>, times: seq<seq<Moment>>): seq<Sent>
    requires |times| == |accepted| && forall k :: 0 <= k < |accepted| ==> accepted[k].0 < 32
  {
    seq(|accepted|, k requires 0 <= k < |accepted| =>
      Sent(BroadcastId(accepted[k].0, dataTypeId, node) + FLAG_EFF, accepted[k].1, times[k]))
  }

  function FeedTransfers(r: Reception, transfers: seq<seq<Frame>>, times: seq<seq<Moment>>, signature: u64): Reception
    requires |times| == |transfers| && forall k :: 0 <= k < |times| ==> |times[k]| == |transfers[k]|
    decreases transfers
  {
    if transfers == [] then r
    else FeedTransfers(Feed(r, transfers[0], times[0], signature), transfers[1..], times[1..], signature)
  }

  /** End to end for the transport: whatever else the sender does, the broadcasts it accepts, with their frames fed to a
      receiver that awaits the first, are delivered in order and byte for byte, if and only if none of them is longer
      than a session can count. */
  lemma {:induction false} BroadcastsReceived(r: Reception, s: Sender, node: NodeId, signature: u64, dataTypeId: u16, first: Tid,
                                              actions: seq<Action>, times: seq<seq<Moment>>)
    requires node != 0 && s.model.nodeId == node && s.tid == first && s.accepted == [] && s.frames == []
    requires forall a :: a in actions ==> SizedAction(a)
    requires var s' := ActAll(s, signature, dataTypeId, actions);
      |times| == |s'.frames| && forall k :: 0 <= k < |times| ==>
        |times[k]| == |s'.frames[k]| > 0 && times[k][0].time != 0 && Timely(times[k], times[k][0].time) &&
        r.free >= Demand(if k < |s'.accepted| then s'.accepted[k].1 else [])
    requires Awaits(r.session, first)
    ensures
      var s' := ActAll(s, signature, dataTypeId, actions);
      |s'.accepted| == |times| &&
      var payloads := seq(|times|, k requires 0 <= k < |times| => s'.accepted[k].1);
      (FeedTransfers(r, s'.frames, times, signature).delivered == r.delivered + payloads <==>
       forall k :: 0 <= k < |times| ==> |s'.accepted[k].1| <= RX_PAYLOAD_MAX)
  {
    hide Feed, TransferFrames, PayloadCrc, Demand, Awaits, Timely;
    StartCounted(s, node, signature, dataTypeId, first);
    ConsecutiveIds(s, node, signature, dataTypeId, first, actions);
    var s' := ActAll(s, signature, dataTypeId, actions);
    hide ActAll;
    var xs := Arrivals(node, dataTypeId, s'.accepted, times);
    ArrivalsConsecutive(s'.frames, s'.accepted, times, node, signature, dataTypeId, first, xs);
    FedAlike(r, s'.frames, times, signature, first, xs);
    PayloadsOf(xs);
    StreamReceived(r, xs, signature, first);
    assert Payloads(xs) == seq(|times|, k requires 0 <= k < |times| => s'.accepted[k].1);
  }

  lemma StartCounted(s: Sender, node: NodeId, signature: u64, dataTypeId: u16, first: Tid)
    requires s.model.nodeId == node && s.tid == first && s.accepted == [] && s.frames == []
    ensures Counted(s, node, signature, dataTypeId, first)
  {
  }

  /** Transfer k of xs is the k-th list of frames, under the k-th ID after the first. */
  ghost predicate Matches(transfers: seq<seq<Frame>>, times: seq<seq<Moment>>, signature: u64, first: Tid, xs: seq<Sent>) {
    |xs| == |transfers| == |times| && forall k :: 0 <= k < |xs| ==>
      && xs[k].times == times[k]
      && transfers[k] == TransferFrames(xs[k].id, xs[k].payload, PayloadCrc(signature, xs[k].payload), TidAt(first, k))
      && |times[k]| == |transfers[k]| > 0 && times[k][0].time != 0 && Timely(times[k], times[k][0].time)
  }

  lemma ArrivalsConsecutive(transfers: seq<seq<Frame>>, accepted: seq<(u8, seq<u8>)>, times: seq<seq<Moment>>, node: NodeId,
                            signature: u64, dataTypeId: u16, first: Tid, xs: seq<Sent>)
    requires |times| == |accepted| == |transfers|
    requires forall k :: 0 <= k < |accepted| ==> accepted[k].0 < 32
    requires forall k :: 0 <= k < |accepted| ==>
      transfers[k] == BroadcastFrames(node, signature, dataTypeId, accepted[k], TidAt(first, k))
    requires forall k :: 0 <= k < |times| ==>
      |times[k]| == |transfers[k]| > 0 && times[k][0].time != 0 && Timely(times[k], times[k][0].time)
    requires xs == Arrivals(node, dataTypeId, accepted, times)
    ensures Matches(transfers, times, signature, first, xs)
    ensures forall k :: 0 <= k < |xs| ==> xs[k].payload == accepted[k].1
  {
    hide TransferFrames, PayloadCrc, Timely;
  }

  lemma MatchesRest(transfers: seq<seq<Frame>>, times: seq<seq<Moment>>, signature: u64, first: Tid, xs: seq<Sent>)
    requires Matches(transfers, times, signature, first, xs) && xs != []
    ensures Matches(transfers[1..], times[1..], signature, NextTid(first), xs[1..])
    ensures Arrives(xs[0], signature, first)
    ensures transfers[0] == TransferFrames(xs[0].id, xs[0].payload, PayloadCrc(signature, xs[0].payload), first)
  {
    hide TransferFrames, PayloadCrc, Timely;
    assert TidAt(first, 0) == first;
    forall k | 0 <= k < |xs| - 1 ensures TidAt(NextTid(first), k) == TidAt(first, k + 1) {
    }
  }

  lemma {:induction false} FedAlike(r: Reception, transfers: seq<seq<Frame>>, times: seq<seq<Moment>>, signature: u64, first: Tid,
                                    xs: seq<Sent>)
    requires Matches(transfers, times, signature, first, xs)
    ensures AllArrive(xs, signature, first)
    ensures (forall k :: 0 <= k < |times| ==> |times[k]| == |transfers[k]|) &&
            FeedTransfers(r, transfers, times, signature) == FeedAll(r, xs, signature, first)
    decreases xs
  {
    hide Feed, TransferFrames, PayloadCrc, Arrives, Matches, NextTid;
    MatchesLengths(transfers, times, signature, first, xs);
    if xs != [] {
      MatchesRest(transfers, times, signature, first, xs);
      ArrivesLength(xs[0], signature, first);
      var r1 := Feed(r, transfers[0], times[0], signature);
      FedAlike(r1, transfers[1..], times[1..], signature, NextTid(first), xs[1..]);
    }
  }

  lemma MatchesLengths(transfers: seq<seq<Frame>>, times: seq<seq<Moment>>, signature: u64, first: Tid, xs: seq<Sent>)
    requires Matches(transfers, times, signature, first, xs)
    ensures |xs| == |transfers| == |times|
    ensures forall k :: 0 <= k < |times| ==> |times[k]| == |transfers[k]| && xs[k].times == times[k]
  {
    hide TransferFrames, PayloadCrc, Timely;
  }

  lemma ArrivesLength(x: Sent, signature: u64, tid: Tid)
    requires Arrives(x, signature, tid)
    ensures |x.times| == |TransferFrames(x.id, x.payload, PayloadCrc(signature, x.payload), tid)|
  {
    hide TransferFrames, PayloadCrc, Timely;
  }

  lemma {:induction false} PayloadsOf(xs: seq<Sent>)
    ensures |Payloads(xs)| == |xs| && forall k :: 0 <= k < |xs| ==> Payloads(xs)[k] == xs[k].payload
    decreases xs
  {
    if xs != [] {
      PayloadsOf(xs[1..]);
    }
  }
}
