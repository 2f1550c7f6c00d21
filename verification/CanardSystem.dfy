/** Whole runs of one Canard instance: sending, transmitting, receiving and cleaning up in any order. */
module CanardSystem {
  import opened Bits
  import opened CanardFrame
  import opened TransferCrc
  import opened CanardTransport
  import opened CanardTxQueue
  import opened CanardModel

  /** What happens to an instance. The application gives the blocks of a delivered transfer back before
      the next frame is handled. */
  datatype Event =
    | Received(frame: Frame, now: Moment, accept: Option<u64>)
    | Broadcasted(signature: u64, dataTypeId: u16, tid: u8, priority: u8, payload: seq<u8>)
    | Requested(destination: u8, signature: u64, serviceId: u8, tid: u8, priority: u8, request: bool, payload: seq<u8>)
    | Transmitted
    | CleanedUp(time: u64)

  function Released(m: Model): Model { m.(free := m.free + m.held, held := 0) }

  function Apply(m: Model, e: Event): Model {
    match e
    case Received(f, now, accept) => Released(HandleRx(m, f, now, accept).model)
    case Broadcasted(signature, dataTypeId, tid, priority, payload) =>
      SendBroadcast(m, signature, dataTypeId, tid, priority, payload).outcome.model
    case Requested(destination, signature, serviceId, tid, priority, request, payload) =>
      SendService(m, destination, signature, serviceId, tid, priority, request, payload).outcome.model
    case Transmitted => if m.queue == [] then m else m.(free := m.free + 1, queue := m.queue[1..])
    case CleanedUp(time) => Cleanup(m, time)
  }

  function ApplyAll(m: Model, es: seq<Event>): Model
    decreases es
  {
    if es == [] then m else ApplyAll(Apply(m, es[0]), es[1..])
  }

  // ---------- Conservation of blocks ----------

  function SessionBlocks(sessions: seq<Session>): nat {
    if sessions == [] then 0 else 1 + sessions[0].blocks + SessionBlocks(sessions[1..])
  }

  /** All blocks: free, queued, in sessions, or lent. */
  function Total(m: Model): nat { m.free + |m.queue| + SessionBlocks(m.sessions) + m.held }

  lemma {:induction false} BlocksConcat(a: seq<Session>, b: seq<Session>)
    ensures SessionBlocks(a + b) == SessionBlocks(a) + SessionBlocks(b)
    decreases a
  {
    if a == [] {
      assert a + b == b;
    } else {
      assert (a + b)[0] == a[0] && (a + b)[1..] == a[1..] + b;
      BlocksConcat(a[1..], b);
    }
  }

  lemma BlocksReplaced(sessions: seq<Session>, k: nat, s: Session)
    requires k < |sessions|
    ensures SessionBlocks(sessions[k := s]) + sessions[k].blocks == SessionBlocks(sessions) + s.blocks
  {
    var a, b := sessions[..k], sessions[k + 1..];
    assert sessions == a + ([sessions[k]] + b);
    assert sessions[k := s] == a + ([s] + b);
    BlocksConcat(a, [sessions[k]] + b);
    BlocksConcat(a, [s] + b);
    assert ([sessions[k]] + b)[1..] == b && ([s] + b)[1..] == b;
  }

  /** One frame through a session neither loses nor creates blocks. */
  lemma {:induction false} ReceiveConserves(s: Session, f: Frame, now: Moment, signature: u64, free: nat)
    ensures var o := Receive(s, f, now, signature, free);
      o.free + o.session.blocks + o.held == free + s.blocks && o.session.descriptor == s.descriptor
  {
    if NeedRestart(s, f, now) {
      AcceptConserves(Restarted(s, f), f, now, signature, free + s.blocks);
    } else {
      FirstNotMidway(s, f, now);
      AcceptConserves(s, f, now, signature, free);
    }
  }

  lemma AcceptConserves(s: Session, f: Frame, now: Moment, signature: u64, free: nat)
    requires IsStart(Tail(f)) && f.iface == s.iface ==> s.blocks == 0
    ensures var o := Accept(s, f, now, signature, free);
      o.free + o.session.blocks + o.held == free + s.blocks && o.session.descriptor == s.descriptor
  {
    hide BlocksAfter, Elapsed;
  }

  lemma InSessionConserves(m: Model, k: nat, f: Frame, now: Moment, signature: u64)
    requires k < |m.sessions| && m.held == 0
    ensures Total(Released(InSession(m, k, f, now, signature).model)) == Total(m)
  {
    hide Receive, SessionBlocks;
    var o := Receive(m.sessions[k], f, now, signature, m.free);
    ReceiveConserves(m.sessions[k], f, now, signature, m.free);
    BlocksReplaced(m.sessions, k, o.session);
  }

  lemma OpenedConserves(m: Model, descriptor: nat)
    requires m.free > 0
    ensures Total(Opened(m, descriptor)) == Total(m)
  {
    assert ([Fresh(descriptor)] + m.sessions)[1..] == m.sessions;
  }

  lemma ReceivedConserves(m: Model, f: Frame, now: Moment, accept: Option<u64>)
    requires m.held == 0
    ensures Total(Released(HandleRx(m, f, now, accept).model)) == Total(m)
  {
    hide InSession, Total, Opened, Compatible, Descriptor;
    var d := Descriptor(f.id);
    var k := FindSession(m.sessions, d);
    if k < |m.sessions| {
      InSessionConserves(m, k, f, now, 0);
      if accept.Some? {
        InSessionConserves(m, k, f, now, accept.value);
      }
    } else if m.free > 0 && accept.Some? {
      OpenedConserves(m, d);
      OpenedShape(m, d);
      InSessionConserves(Opened(m, d), 0, f, now, accept.value);
    }
    ReleasedNothing(m);
  }

  lemma OpenedShape(m: Model, descriptor: nat)
    ensures Opened(m, descriptor).held == m.held && |Opened(m, descriptor).sessions| > 0
  {
  }

  lemma ReleasedNothing(m: Model)
    requires m.held == 0
    ensures Released(m) == m
  {
  }

  lemma SendConserves(m: Model, id: Id, payload: seq<u8>, crc: Register, tid: Tid)
    ensures Total(SendFrames(m, id, payload, crc, tid).model) == Total(m)
    ensures SendFrames(m, id, payload, crc, tid).model.held == m.held
  {
    hide Insert, InsertAll, MultiFrames, SingleFrame;
    var fs := TransferFrames(id, payload, crc, tid);
    if |payload| < FRAME_DATA_MAX {
      InsertLength(m.queue, fs[0]);
    } else {
      InsertAllLength(m.queue, fs);
      if m.free < |fs| {
        InsertAllLength(m.queue, fs[..m.free]);
      }
    }
  }

  lemma BroadcastConserves(m: Model, signature: u64, dataTypeId: u16, tid: u8, priority: u8, payload: seq<u8>)
    ensures var m' := SendBroadcast(m, signature, dataTypeId, tid, priority, payload).outcome.model;
      Total(m') == Total(m) && m'.held == m.held
  {
    hide SendFrames, Total, TransferCrcOf, Discriminator;
    if priority <= 31 && (m.nodeId != 0 || (|payload| <= 7 && dataTypeId < 4)) {
      var id := if m.nodeId == 0 then AnonymousId(priority, Discriminator(Crc(INITIAL, payload)), dataTypeId)
                else BroadcastId(priority, dataTypeId, m.nodeId);
      SendConserves(m, id + FLAG_EFF, payload, TransferCrcOf(signature, payload), tid % 32);
    }
  }

  lemma ServiceConserves(m: Model, destination: u8, signature: u64, serviceId: u8, tid: u8, priority: u8, request: bool,
                         payload: seq<u8>)
    ensures var m' := SendService(m, destination, signature, serviceId, tid, priority, request, payload).outcome.model;
      Total(m') == Total(m) && m'.held == m.held
  {
    hide SendFrames, Total, TransferCrcOf;
    if priority <= 31 && m.nodeId != 0 {
      var id := ServiceId(priority, serviceId, request, destination, m.nodeId);
      SendConserves(m, id + FLAG_EFF, payload, TransferCrcOf(signature, payload), tid % 32);
    }
  }

  lemma InsertLength(q: seq<Frame>, f: Frame)
    ensures |Insert(q, f)| == |q| + 1
  {
    InsertMembers(q, f);
    assert |multiset(Insert(q, f))| == |q| + 1;
  }

  lemma {:induction false} InsertAllLength(q: seq<Frame>, fs: seq<Frame>)
    ensures |InsertAll(q, fs)| == |q| + |fs|
    decreases fs
  {
    if fs != [] {
      InsertLength(q, fs[0]);
      InsertAllLength(Insert(q, fs[0]), fs[1..]);
    }
  }

  lemma {:induction false} LiveBlocks(sessions: seq<Session>, now: u64)
    ensures SessionBlocks(Live(sessions, now)) + StaleBlocks(sessions, now) == SessionBlocks(sessions)
  {
    hide Stale;
    if sessions != [] {
      LiveBlocks(sessions[1..], now);
      var rest := Live(sessions[1..], now);
      assert [] + rest == rest && ([sessions[0]] + rest)[1..] == rest;
    }
  }

  lemma ApplyConserves(m: Model, e: Event)
    requires m.held == 0
    ensures Total(Apply(m, e)) == Total(m) && Apply(m, e).held == 0
  {
    hide HandleRx, SendBroadcast, SendService;
    match e
    case Received(f, now, accept) => ReceivedConserves(m, f, now, accept);
    case Broadcasted(signature, dataTypeId, tid, priority, payload) =>
      BroadcastConserves(m, signature, dataTypeId, tid, priority, payload);
    case Requested(destination, signature, serviceId, tid, priority, request, payload) =>
      ServiceConserves(m, destination, signature, serviceId, tid, priority, request, payload);
    case Transmitted =>
    case CleanedUp(time) => LiveBlocks(m.sessions, time);
  }

  /** Over every run, out-of-memory paths included: free blocks, queued frames, session blocks and their
      chunks always add up to the pool, so no path leaks a block or frees one twice. */
  lemma {:induction false} BlocksConserved(m: Model, es: seq<Event>)
    requires m.held == 0
    ensures Total(ApplyAll(m, es)) == Total(m)
    decreases es
  {
    hide Total, Apply;
    if es != [] {
      ApplyConserves(m, es[0]);
      BlocksConserved(Apply(m, es[0]), es[1..]);
    }
  }

  // ---------- One session per descriptor ----------

  ghost predicate Unique(sessions: seq<Session>) {
    forall i, j :: 0 <= i < j < |sessions| ==> sessions[i].descriptor != sessions[j].descriptor
  }

  lemma {:induction false} NotFound(sessions: seq<Session>, descriptor: nat)
    requires FindSession(sessions, descriptor) == |sessions|
    ensures forall s :: s in sessions ==> s.descriptor != descriptor
  {
    if sessions != [] {
      NotFound(sessions[1..], descriptor);
      assert sessions == [sessions[0]] + sessions[1..];
    }
  }

  lemma {:induction false} LiveUnique(sessions: seq<Session>, now: u64)
    requires Unique(sessions)
    ensures Unique(Live(sessions, now))
    ensures forall s :: s in Live(sessions, now) ==> s in sessions
  {
    hide Stale;
    if sessions != [] {
      var rest := Live(sessions[1..], now);
      LiveUnique(sessions[1..], now);
      assert sessions == [sessions[0]] + sessions[1..];
      forall s | s in rest ensures s.descriptor != sessions[0].descriptor {
        var i :| 0 <= i < |sessions[1..]| && sessions[1..][i] == s;
        assert sessions[i + 1] == s;
      }
      assert forall i :: 0 <= i < |rest| ==> rest[i] in rest;
    }
  }

  /** Everything a frame can do to the sessions keeps descriptors unique. */
  lemma OnlyForUnique(m: Model, m': Model, descriptor: nat)
    requires Unique(m.sessions) && OnlyFor(m, m', descriptor)
    ensures Unique(m'.sessions)
  {
    var k := FindSession(m.sessions, descriptor);
    if k == |m.sessions| && m'.sessions != m.sessions {
      NotFound(m.sessions, descriptor);
      forall i, j | 0 <= i < j < |m'.sessions| ensures m'.sessions[i].descriptor != m'.sessions[j].descriptor {
        assert m'.sessions[1..][j - 1] == m'.sessions[j];
        if i > 0 {
          assert m'.sessions[1..][i - 1] == m'.sessions[i];
        } else {
          assert m.sessions[j - 1] in m.sessions;
        }
      }
    }
  }

  lemma HandleRxOnlyFor(m: Model, f: Frame, now: Moment, accept: Option<u64>)
    ensures OnlyFor(m, HandleRx(m, f, now, accept).model, Descriptor(f.id))
  {
    hide Receive, Compatible, Descriptor;
    var d := Descriptor(f.id);
    var k := FindSession(m.sessions, d);
    if k < |m.sessions| {
      ReceiveConserves(m.sessions[k], f, now, 0, m.free);
      if accept.Some? {
        ReceiveConserves(m.sessions[k], f, now, accept.value, m.free);
      }
    } else if accept.Some? {
      ReceiveConserves(Fresh(d), f, now, accept.value, Opened(m, d).free);
    }
  }

  lemma ApplyUnique(m: Model, e: Event)
    requires Unique(m.sessions)
    ensures Unique(Apply(m, e).sessions)
  {
    hide HandleRx, Unique, OnlyFor;
    match e
    case Received(f, now, accept) =>
      HandleRxOnlyFor(m, f, now, accept);
      OnlyForUnique(m, HandleRx(m, f, now, accept).model, Descriptor(f.id));
    case Broadcasted(_, _, _, _, _) =>
    case Requested(_, _, _, _, _, _, _) =>
    case Transmitted =>
    case CleanedUp(time) => LiveUnique(m.sessions, time);
  }

  /** Over every run no two sessions have the same descriptor. */
  lemma {:induction false} SessionsUnique(m: Model, es: seq<Event>)
    requires Unique(m.sessions)
    ensures Unique(ApplyAll(m, es).sessions)
    decreases es
  {
    hide Unique, Apply;
    if es != [] {
      ApplyUnique(m, es[0]);
      SessionsUnique(Apply(m, es[0]), es[1..]);
    }
  }

  // ---------- Other traffic does not disturb a session ----------

  /** The first session with this descriptor. */
  function Lookup(sessions: seq<Session>, descriptor: nat): Option<Session> {
    if sessions == [] then None
    else if sessions[0].descriptor == descriptor then Some(sessions[0])
    else Lookup(sessions[1..], descriptor)
  }

  lemma {:induction false} LookupFinds(sessions: seq<Session>, descriptor: nat)
    ensures var k := FindSession(sessions, descriptor);
      Lookup(sessions, descriptor) == if k < |sessions| then Some(sessions[k]) else None
  {
    if sessions != [] {
      LookupFinds(sessions[1..], descriptor);
    }
  }

  lemma {:induction false} LookupElsewhere(sessions: seq<Session>, k: nat, s: Session, descriptor: nat)
    requires k < |sessions| && s.descriptor == sessions[k].descriptor != descriptor
    ensures Lookup(sessions[k := s], descriptor) == Lookup(sessions, descriptor)
  {
    if k > 0 {
      LookupElsewhere(sessions[1..], k - 1, s, descriptor);
      assert sessions[k := s][1..] == sessions[1..][k - 1 := s];
    } else {
      assert sessions[0 := s][1..] == sessions[1..];
    }
  }

  /** Frames of one descriptor leave the sessions of every other descriptor as they are. */
  lemma NoInterference(m: Model, m': Model, changed: nat, descriptor: nat)
    requires OnlyFor(m, m', changed) && descriptor != changed
    ensures Lookup(m'.sessions, descriptor) == Lookup(m.sessions, descriptor)
  {
    var k := FindSession(m.sessions, changed);
    if k < |m.sessions| == |m'.sessions| {
      LookupElsewhere(m.sessions, k, m'.sessions[k], descriptor);
    }
  }

  lemma {:induction false} LookupLive(sessions: seq<Session>, now: u64, descriptor: nat)
    requires Lookup(sessions, descriptor).Some? && !Stale(Lookup(sessions, descriptor).value, now)
    ensures Lookup(Live(sessions, now), descriptor) == Lookup(sessions, descriptor)
  {
    hide Stale;
    if sessions != [] {
      var rest := Live(sessions[1..], now);
      assert [] + rest == rest && ([sessions[0]] + rest)[1..] == rest;
      if sessions[0].descriptor != descriptor {
        LookupLive(sessions[1..], now, descriptor);
      }
    }
  }

  /** How long ago, on a 64-bit clock that may have wrapped around once. */
  function Ago(now: u64, then': u64): nat { if now >= then' then now - then' else 0x1_0000_0000_0000_0000 + now - then' }

  lemma {:induction false} LookupAbsent(sessions: seq<Session>, descriptor: nat)
    requires forall i :: 0 <= i < |sessions| ==> sessions[i].descriptor != descriptor
    ensures Lookup(sessions, descriptor).None?
  {
    if sessions != [] {
      LookupAbsent(sessions[1..], descriptor);
    }
  }

  /** A cleanup ends the sessions that were last used more than two seconds ago, and no others. */
  lemma {:induction false} CleanedExactly(m: Model, now: u64, descriptor: nat)
    requires Unique(m.sessions)
    ensures
      Lookup(Cleanup(m, now).sessions, descriptor) ==
      match Lookup(m.sessions, descriptor)
      case None => None
      case Some(s) => if Ago(now, s.timestamp) <= 2_000_000 then Some(s) else None
    decreases |m.sessions|
  {
    if m.sessions != [] {
      var head, rest := m.sessions[0], m.sessions[1..];
      CleanedExactly(m.(sessions := rest), now, descriptor);
      if head.descriptor == descriptor {
        LookupAbsent(rest, descriptor);
      }
      var live := Live(rest, now);
      assert [] + live == live && ([head] + live)[1..] == live;
    }
  }

  // ---------- A transfer among other traffic ----------

  /** The event is a frame that reaches the sessions with this descriptor. */
  predicate Reaches(e: Event, nodeId: NodeId, descriptor: nat) {
    e.Received? && Compatible(e.frame) && Descriptor(e.frame.id) == descriptor &&
    (TransferTypeOf(e.frame.id) != Broadcast ==> DestinationOf(e.frame.id) == nodeId)
  }

  function FramesTo(es: seq<Event>, nodeId: NodeId, descriptor: nat): seq<Frame> {
    if es == [] then []
    else (if Reaches(es[0], nodeId, descriptor) then [es[0].frame] else []) + FramesTo(es[1..], nodeId, descriptor)
  }

  /** Payloads delivered from the session with this descriptor, in order. */
  function Deliveries(m: Model, es: seq<Event>, descriptor: nat): seq<seq<u8>>
    decreases es
  {
    if es == [] then []
    else DeliveredBy(m, es[0], descriptor) + Deliveries(Apply(m, es[0]), es[1..], descriptor)
  }

  function DeliveredBy(m: Model, e: Event, descriptor: nat): seq<seq<u8>> {
    if !Reaches(e, m.nodeId, descriptor) then []
    else
      var h := HandleRx(m, e.frame, e.now, e.accept);
      if h.delivered.Some? then [h.delivered.value] else []
  }

  /** The pool has the block the frame is going to ask for, if it asks for one. */
  predicate HasBlocks(m: Model, f: Frame, descriptor: nat) {
    match Lookup(m.sessions, descriptor)
    case None => m.free > 0
    case Some(s) =>
      IsStart(Tail(f)) || IsEnd(Tail(f)) || BlocksAfter(|s.payload|, s.blocks, |Body(f)|) <= s.blocks + m.free
  }

  /** One event of a run that leaves the transfer started at `start` a chance: its frames are wanted, come within
      two seconds and find the blocks they need, and no cleanup considers its session stale. */
  predicate Fair(m: Model, e: Event, descriptor: nat, signature: u64, start: u64) {
    match e
    case Received(f, now, accept) =>
      Reaches(e, m.nodeId, descriptor) ==>
        accept == Some(signature) && HasBlocks(m, f, descriptor) && Elapsed(now.time, start) <= TRANSFER_TIMEOUT
    case Broadcasted(_, _, _, _, _) => true
    case Requested(_, _, _, _, _, _, _) => true
    case Transmitted => true
    case CleanedUp(time) => Elapsed(time, start) <= TRANSFER_TIMEOUT
  }

  ghost predicate AllFair(m: Model, es: seq<Event>, descriptor: nat, signature: u64, start: u64)
    decreases es
  {
    es == [] ||
    (Fair(m, es[0], descriptor, signature, start) && AllFair(Apply(m, es[0]), es[1..], descriptor, signature, start))
  }

  /** An event that does not reach the session leaves it alone and delivers nothing from it. */
  lemma OtherEvent(m: Model, e: Event, descriptor: nat, signature: u64, start: u64)
    requires Lookup(m.sessions, descriptor).Some? && Lookup(m.sessions, descriptor).value.timestamp == start
    requires Fair(m, e, descriptor, signature, start) && !Reaches(e, m.nodeId, descriptor)
    ensures Lookup(Apply(m, e).sessions, descriptor) == Lookup(m.sessions, descriptor)
    ensures DeliveredBy(m, e, descriptor) == [] && Apply(m, e).nodeId == m.nodeId
  {
    hide InSession, Descriptor, Live, Compatible;
    match e
    case Received(f, now, accept) =>
      if Compatible(f) && (TransferTypeOf(f.id) != Broadcast ==> DestinationOf(f.id) == m.nodeId) {
        HandleRxOnlyFor(m, f, now, accept);
        NoInterference(m, HandleRx(m, f, now, accept).model, Descriptor(f.id), descriptor);
      }
    case Broadcasted(_, _, _, _, _) =>
    case Requested(_, _, _, _, _, _, _) =>
    case Transmitted =>
    case CleanedUp(time) => LookupLive(m.sessions, time, descriptor);
  }

  /** A frame that reaches the session acts on it as Receive says. */
  lemma OwnFrame(m: Model, e: Event, descriptor: nat, signature: u64)
    requires Lookup(m.sessions, descriptor).Some? && m.held == 0
    requires Reaches(e, m.nodeId, descriptor) && e.accept == Some(signature)
    ensures
      var o := Receive(Lookup(m.sessions, descriptor).value, e.frame, e.now, if IsStart(Tail(e.frame)) then signature else 0, m.free);
      Lookup(Apply(m, e).sessions, descriptor) == Some(o.session) && Apply(m, e).held == 0 &&
      Apply(m, e).nodeId == m.nodeId &&
      DeliveredBy(m, e, descriptor) == if o.delivered.Some? then [o.delivered.value] else []
  {
    hide Descriptor, Compatible, Receive;
    var k := FindSession(m.sessions, descriptor);
    LookupFinds(m.sessions, descriptor);
    var s := m.sessions[k];
    var o := Receive(s, e.frame, e.now, if IsStart(Tail(e.frame)) then signature else 0, m.free);
    ReceiveConserves(s, e.frame, e.now, if IsStart(Tail(e.frame)) then signature else 0, m.free);
    LookupReplaced(m.sessions, k, o.session, descriptor);
  }

  lemma {:induction false} LookupReplaced(sessions: seq<Session>, k: nat, s: Session, descriptor: nat)
    requires k == FindSession(sessions, descriptor) < |sessions| && s.descriptor == descriptor
    ensures Lookup(sessions[k := s], descriptor) == Some(s)
  {
    if k > 0 {
      LookupReplaced(sessions[1..], k - 1, s, descriptor);
      assert sessions[k := s][1..] == sessions[1..][k - 1 := s];
    }
  }

  lemma SignatureUnused(s: Session, f: Frame, now: Moment, a: u64, b: u64, free: nat)
    requires !IsStart(Tail(f))
    ensures Receive(s, f, now, a, free) == Receive(s, f, now, b, free)
  {
    hide NeedRestart, Push, Finish;
  }

  lemma {:induction false} LookupDescriptor(sessions: seq<Session>, descriptor: nat)
    ensures Lookup(sessions, descriptor).Some? ==> Lookup(sessions, descriptor).value.descriptor == descriptor
  {
    if sessions != [] {
      LookupDescriptor(sessions[1..], descriptor);
    }
  }

  /** The next frame of a transfer that is being collected. */
  lemma NextFrame(m: Model, e: Event, payload: seq<u8>, signature: u64, tid: Tid, index: nat, toggle: bool, d: nat, start: u64)
    requires m.held == 0 && HEAD_SIZE <= index < |payload| <= RX_PAYLOAD_MAX && index % 7 == 5 && start != 0
    requires Reaches(e, m.nodeId, d) && Fair(m, e, d, signature, start)
    requires Carries(e.frame, payload, PayloadCrc(signature, payload), tid, index, toggle)
    requires Lookup(m.sessions, d) == Some(Collecting(d, start, payload, signature, tid, index, toggle))
    ensures Apply(m, e).held == 0 && Apply(m, e).nodeId == m.nodeId
    ensures index + 7 < |payload| ==>
      Lookup(Apply(m, e).sessions, d) == Some(Collecting(d, start, payload, signature, tid, index + 7, !toggle)) &&
      DeliveredBy(m, e, d) == []
    ensures index + 7 >= |payload| ==> DeliveredBy(m, e, d) == [payload]
  {
    hide Receive, Carries, Collecting, PayloadCrc, Reaches, Apply, DeliveredBy, Lookup, Elapsed, Fair, BlocksFor;
    var s := Collecting(d, start, payload, signature, tid, index, toggle);
    var r := Reception(s, m.free, []);
    NotFirst(m, e, payload, signature, tid, index, toggle, d, start);
    OwnFrame(m, e, d, signature);
    SignatureUnused(s, e.frame, e.now, 0, signature, m.free);
    LimitKept(index, |payload|);
    if index + 7 < |payload| {
      EnoughBlocks(m, e.frame, payload, signature, tid, index, toggle, d, start);
      var r1 := StepMiddle(r, e.frame, payload, signature, tid, index, toggle, e.now, d, start);
    } else {
      var r1 := StepLast(r, e.frame, payload, signature, tid, index, toggle, e.now, d, start);
      assert [] + [payload] == [payload];
    }
  }

  lemma LimitKept(index: nat, total: nat)
    requires index < total <= RX_PAYLOAD_MAX && index % 7 == 5
    ensures index < PAYLOAD_LEN_LIMIT
    ensures index + 7 < total ==> index + 7 < PAYLOAD_LEN_LIMIT
  {
    assert index != 1024 && index != 1025 && index != 1026;
    assert index + 7 != 1024 && index + 7 != 1025 && index + 7 != 1026;
  }

  lemma EnoughBlocks(m: Model, f: Frame, payload: seq<u8>, signature: u64, tid: Tid, index: nat, toggle: bool, d: nat, start: u64)
    requires HEAD_SIZE <= index < PAYLOAD_LEN_LIMIT && index + 7 < |payload| && HasBlocks(m, f, d)
    requires Carries(f, payload, PayloadCrc(signature, payload), tid, index, toggle)
    requires Lookup(m.sessions, d) == Some(Collecting(d, start, payload, signature, tid, index, toggle))
    ensures Collecting(d, start, payload, signature, tid, index, toggle).blocks + m.free >= BlocksFor(index + 7)
  {
    hide PayloadCrc, BlocksFor, BlocksAfter, Lookup;
    BlocksGrow(index, 7);
  }

  lemma CollectingFields(d: nat, start: u64, payload: seq<u8>, signature: u64, tid: Tid, index: nat, toggle: bool)
    requires index <= |payload|
    ensures Collecting(d, start, payload, signature, tid, index, toggle).blocks == BlocksFor(index)
    ensures Collecting(d, start, payload, signature, tid, index, toggle).timestamp == start
  {
  }

  lemma NotFirst(m: Model, e: Event, payload: seq<u8>, signature: u64, tid: Tid, index: nat, toggle: bool, d: nat, start: u64)
    requires 0 < index < |payload| && Reaches(e, m.nodeId, d) && Fair(m, e, d, signature, start)
    requires Carries(e.frame, payload, PayloadCrc(signature, payload), tid, index, toggle)
    ensures e.Received? && !IsStart(Tail(e.frame)) && e.accept == Some(signature) && HasBlocks(m, e.frame, d)
    ensures Elapsed(e.now.time, start) <= TRANSFER_TIMEOUT
  {
    hide HasBlocks, PayloadCrc;
  }

  /** The next frame of a transfer that the session can no longer count. */
  lemma NextUncounted(m: Model, e: Event, payload: seq<u8>, signature: u64, tid: Tid, index: nat, toggle: bool, d: nat, start: u64)
    requires m.held == 0 && 0 < index < |payload| && |payload| > RX_PAYLOAD_MAX && index % 7 == 5 && start != 0
    requires Reaches(e, m.nodeId, d) && Fair(m, e, d, signature, start)
    requires Carries(e.frame, payload, PayloadCrc(signature, payload), tid, index, toggle)
    requires Lookup(m.sessions, d).Some? && Follows(Lookup(m.sessions, d).value, tid, index, toggle, start)
    ensures Apply(m, e).held == 0 && Apply(m, e).nodeId == m.nodeId
    ensures index + 7 >= |payload| ==> Misses([], DeliveredBy(m, e, d), payload)
    ensures index + 7 < |payload| ==>
      DeliveredBy(m, e, d) == [] && Lookup(Apply(m, e).sessions, d).Some? &&
      Follows(Lookup(Apply(m, e).sessions, d).value, tid, index + 7, !toggle, start)
  {
    hide Receive, Carries, PayloadCrc, Reaches, Apply, DeliveredBy, Lookup, Elapsed, Fair, HasBlocks, Follows, BlocksAfter;
    var s := Lookup(m.sessions, d).value;
    var r := Reception(s, m.free, []);
    NotFirst(m, e, payload, signature, tid, index, toggle, d, start);
    OwnFrame(m, e, d, signature);
    SignatureUnused(s, e.frame, e.now, 0, signature, m.free);
    if index + 7 < |payload| {
      AsksFor(m, e.frame, payload, signature, tid, index, toggle, d);
    }
    var r1 := StepFollowed(r, e.frame, payload, signature, tid, index, toggle, e.now, start);
  }

  lemma AsksFor(m: Model, f: Frame, payload: seq<u8>, signature: u64, tid: Tid, index: nat, toggle: bool, d: nat)
    requires 0 < index && index + 7 < |payload| && HasBlocks(m, f, d) && Lookup(m.sessions, d).Some?
    requires Carries(f, payload, PayloadCrc(signature, payload), tid, index, toggle)
    ensures var s := Lookup(m.sessions, d).value;
      BlocksAfter(|s.payload|, s.blocks, 7) <= s.blocks + m.free
  {
    hide PayloadCrc, BlocksAfter, Lookup;
  }

  lemma NodeKept(m: Model, e: Event)
    ensures Apply(m, e).nodeId == m.nodeId
  {
    hide Receive, Compatible, Descriptor, Live, StaleBlocks, Insert, InsertAll, MultiFrames;
  }

  /** Without frames for its descriptor nothing is delivered from a session. */
  lemma {:induction false} Silent(m: Model, es: seq<Event>, d: nat)
    requires FramesTo(es, m.nodeId, d) == []
    ensures Deliveries(m, es, d) == []
    decreases es
  {
    hide Apply, Reaches;
    if es != [] {
      NodeKept(m, es[0]);
      Silent(Apply(m, es[0]), es[1..], d);
    }
  }

  /** The first of some events is not for the session, or brings the first of the frames. */
  lemma FramesSplit(es: seq<Event>, n: NodeId, d: nat)
    requires es != []
    ensures var fs := FramesTo(es, n, d);
      if Reaches(es[0], n, d) then fs != [] && fs[0] == es[0].frame && fs[1..] == FramesTo(es[1..], n, d)
      else fs == FramesTo(es[1..], n, d)
  {
    hide Reaches;
  }

  /** The rest of a transfer, among any other events, delivers it exactly once. */
  lemma {:induction false} InterleavedRest(m: Model, es: seq<Event>, payload: seq<u8>, signature: u64, tid: Tid,
                                           index: nat, toggle: bool, d: nat, start: u64)
    requires m.held == 0 && HEAD_SIZE <= index < |payload| <= RX_PAYLOAD_MAX && index % 7 == 5 && start != 0
    requires AllFair(m, es, d, signature, start)
    requires Carried(FramesTo(es, m.nodeId, d), payload, PayloadCrc(signature, payload), tid, index, toggle)
    requires Lookup(m.sessions, d) == Some(Collecting(d, start, payload, signature, tid, index, toggle))
    ensures Deliveries(m, es, d) == [payload]
    decreases es
  {
    hide Carries, Collecting, PayloadCrc, Reaches, Fair, Apply, DeliveredBy, Lookup, FramesTo;
    CarriedNext(FramesTo(es, m.nodeId, d), payload, PayloadCrc(signature, payload), tid, index, toggle);
    FramesNothing(m.nodeId, d);
    FramesSplit(es, m.nodeId, d);
    var m1, rest := Apply(m, es[0]), es[1..];
    if !Reaches(es[0], m.nodeId, d) {
      CollectingFields(d, start, payload, signature, tid, index, toggle);
      OtherEvent(m, es[0], d, signature, start);
      OtherEventHeld(m, es[0]);
      InterleavedRest(m1, rest, payload, signature, tid, index, toggle, d, start);
    } else {
      NextFrame(m, es[0], payload, signature, tid, index, toggle, d, start);
      if index + 7 < |payload| {
        InterleavedRest(m1, rest, payload, signature, tid, index + 7, !toggle, d, start);
      } else {
        Silent(m1, rest, d);
      }
    }
  }

  lemma FramesNothing(n: NodeId, d: nat)
    ensures FramesTo([], n, d) == []
  {
  }

  /** The rest of a transfer too long to be counted does not deliver it. */
  lemma {:induction false} InterleavedOverflow(m: Model, es: seq<Event>, payload: seq<u8>, signature: u64, tid: Tid,
                                               index: nat, toggle: bool, d: nat, start: u64)
    requires m.held == 0 && 0 < index < |payload| && |payload| > RX_PAYLOAD_MAX && index % 7 == 5 && start != 0
    requires AllFair(m, es, d, signature, start)
    requires Carried(FramesTo(es, m.nodeId, d), payload, PayloadCrc(signature, payload), tid, index, toggle)
    requires Lookup(m.sessions, d).Some? && Follows(Lookup(m.sessions, d).value, tid, index, toggle, start)
    ensures Misses([], Deliveries(m, es, d), payload)
    decreases es
  {
    hide Carries, PayloadCrc, Reaches, Fair, Apply, DeliveredBy, Lookup, FramesTo, Misses;
    CarriedNext(FramesTo(es, m.nodeId, d), payload, PayloadCrc(signature, payload), tid, index, toggle);
    FramesNothing(m.nodeId, d);
    FramesSplit(es, m.nodeId, d);
    var m1, rest := Apply(m, es[0]), es[1..];
    if !Reaches(es[0], m.nodeId, d) {
      OtherEvent(m, es[0], d, signature, start);
      OtherEventHeld(m, es[0]);
      assert [] + Deliveries(m1, rest, d) == Deliveries(m1, rest, d);
      InterleavedOverflow(m1, rest, payload, signature, tid, index, toggle, d, start);
    } else {
      NextUncounted(m, es[0], payload, signature, tid, index, toggle, d, start);
      assert Deliveries(m, es, d) == DeliveredBy(m, es[0], d) + Deliveries(m1, rest, d);
      assert [] + Deliveries(m1, rest, d) == Deliveries(m1, rest, d);
      if index + 7 < |payload| {
        InterleavedOverflow(m1, rest, payload, signature, tid, index + 7, !toggle, d, start);
      } else {
        Silent(m1, rest, d);
        assert DeliveredBy(m, es[0], d) + [] == DeliveredBy(m, es[0], d);
      }
    }
  }

  lemma OtherEventHeld(m: Model, e: Event)
    requires m.held == 0
    ensures Apply(m, e).held == 0
  {
    ApplyConserves(m, e);
  }

  /** A start frame for a descriptor without session: HandleRx opens one for it. */
  lemma OpeningFrame(m: Model, e: Event, d: nat, signature: u64)
    requires Lookup(m.sessions, d) == None && m.held == 0 && m.free > 0
    requires Reaches(e, m.nodeId, d) && IsStart(Tail(e.frame)) && e.accept == Some(signature)
    ensures
      var o := Receive(Fresh(d), e.frame, e.now, signature, Opened(m, d).free);
      Lookup(Apply(m, e).sessions, d) == Some(o.session) && Apply(m, e).held == 0 &&
      Apply(m, e).nodeId == m.nodeId &&
      DeliveredBy(m, e, d) == if o.delivered.Some? then [o.delivered.value] else []
  {
    hide Receive, Descriptor, Compatible, Lookup;
    LookupFinds(m.sessions, d);
    var o := Receive(Fresh(d), e.frame, e.now, signature, Opened(m, d).free);
    ReceiveConserves(Fresh(d), e.frame, e.now, signature, Opened(m, d).free);
    LookupHead(Opened(m, d).sessions[0 := o.session], d);
  }

  lemma LookupHead(sessions: seq<Session>, d: nat)
    requires sessions != [] && sessions[0].descriptor == d
    ensures Lookup(sessions, d) == Some(sessions[0])
  {
  }

  /** The first frame of a transfer opens a session, or takes over the one there is. */
  lemma FirstFrame(m: Model, e: Event, payload: seq<u8>, signature: u64, tid: Tid, d: nat)
    requires m.held == 0 && FRAME_DATA_MAX <= |payload|
    requires Reaches(e, m.nodeId, d) && e.accept == Some(signature) && e.now.time != 0 && HasBlocks(m, e.frame, d)
    requires Carries(e.frame, payload, PayloadCrc(signature, payload), tid, 0, false)
    requires Lookup(m.sessions, d).Some? ==> Welcomes(Lookup(m.sessions, d).value, e.frame, e.now)
    ensures Lookup(Apply(m, e).sessions, d) == Some(Collecting(d, e.now.time, payload, signature, tid, 5, true))
    ensures DeliveredBy(m, e, d) == [] && Apply(m, e).held == 0 && Apply(m, e).nodeId == m.nodeId
  {
    assert IsStart(Tail(e.frame));
    hide Receive, Carries, Collecting, PayloadCrc, Opens, Welcomes, Reaches, Apply, DeliveredBy, Lookup, Fresh;
    LookupDescriptor(m.sessions, d);
    if Lookup(m.sessions, d).Some? {
      OwnFrame(m, e, d, signature);
      OpensFirst(Lookup(m.sessions, d).value, e.frame, payload, PayloadCrc(signature, payload), tid, e.now);
      ReceiveFirst(Lookup(m.sessions, d).value, e.frame, payload, signature, tid, e.now, m.free);
    } else {
      OpeningFrame(m, e, d, signature);
      FreshOpens(d, e.frame, e.now);
      ReceiveFirst(Fresh(d), e.frame, payload, signature, tid, e.now, Opened(m, d).free);
    }
  }

  lemma FreshOpens(d: nat, f: Frame, now: Moment)
    ensures Opens(Fresh(d), f, now) && Fresh(d).descriptor == d
  {
  }

  /** Whatever else the instance does in between (other transfers received or sent, frames transmitted, stale sessions
      cleaned up), a multi-frame transfer whose frames come in order, within two seconds, and find the blocks they need
      is delivered exactly once, byte for byte, if and only if the session, which must welcome it, can count its bytes. */
  lemma {:induction false} InterleavedTransfer(m: Model, es: seq<Event>, id: Id, payload: seq<u8>, signature: u64, tid: Tid, d: nat)
    requires m.held == 0 && FRAME_DATA_MAX <= |payload|
    requires es != [] && Reaches(es[0], m.nodeId, d) && es[0].now.time != 0
    requires FramesTo(es, m.nodeId, d) == TransferFrames(id, payload, PayloadCrc(signature, payload), tid)
    requires AllFair(m, es, d, signature, es[0].now.time)
    requires Lookup(m.sessions, d).Some? ==> Welcomes(Lookup(m.sessions, d).value, es[0].frame, es[0].now)
    ensures Deliveries(m, es, d) == [payload] <==> |payload| <= RX_PAYLOAD_MAX
    ensures |payload| > RX_PAYLOAD_MAX ==> Misses([], Deliveries(m, es, d), payload)
  {
    var crc, start := PayloadCrc(signature, payload), es[0].now.time;
    hide Carries, Collecting, PayloadCrc, Reaches, Welcomes, Apply, DeliveredBy, Lookup, MultiFrames, Elapsed, Follows, Misses;
    FramesCarried(id, payload, crc, tid, 0, false);
    FramesSplit(es, m.nodeId, d);
    FirstFrame(m, es[0], payload, signature, tid, d);
    var m1 := Apply(m, es[0]);
    assert [] + Deliveries(m1, es[1..], d) == Deliveries(m1, es[1..], d);
    if |payload| <= RX_PAYLOAD_MAX {
      InterleavedRest(m1, es[1..], payload, signature, tid, 5, true, d, start);
    } else {
      CollectingFollows(d, start, payload, signature, tid, 5, true);
      InterleavedOverflow(m1, es[1..], payload, signature, tid, 5, true, d, start);
      MissesNot([], Deliveries(m1, es[1..], d), payload);
    }
    assert [] + [payload] == [payload];
  }

  lemma CollectingFollows(d: nat, start: u64, payload: seq<u8>, signature: u64, tid: Tid, index: nat, toggle: bool)
    requires index <= |payload| && index < PAYLOAD_LEN_LIMIT
    ensures Follows(Collecting(d, start, payload, signature, tid, index, toggle), tid, index, toggle, start)
  {
    hide PayloadCrc, BlocksFor;
  }

  // ---------- Sessions that hold their bytes without a gap ----------

  ghost predicate AllRegular(sessions: seq<Session>) {
    forall i :: 0 <= i < |sessions| ==> Regular(sessions[i])
  }

  /** A frame of at most eight bytes that does not overflow the length field of its session. */
  predicate Countable(m: Model, e: Event) {
    e.Received? ==>
      |e.frame.data| <= FRAME_DATA_MAX &&
      var k := FindSession(m.sessions, Descriptor(e.frame.id));
      k < |m.sessions| ==> Storable(m.sessions[k], e.frame)
  }

  ghost predicate AllCountable(m: Model, es: seq<Event>)
    decreases es
  {
    es == [] || (Countable(m, es[0]) && AllCountable(Apply(m, es[0]), es[1..]))
  }

  lemma RegularKept(s: Session, f: Frame, now: Moment, signature: u64, free: nat)
    requires Regular(s) && Storable(s, f) && |f.data| <= FRAME_DATA_MAX
    ensures Regular(Receive(s, f, now, signature, free).session)
  {
    hide NeedRestart;
    if NeedRestart(s, f, now) {
      AcceptRegular(Restarted(s, f), f, now, signature, free + s.blocks);
    } else {
      if IsStart(Tail(f)) && f.iface == s.iface {
        FirstNotMidway(s, f, now);
      }
      AcceptRegular(s, f, now, signature, free);
    }
  }

  lemma AcceptRegular(s: Session, f: Frame, now: Moment, signature: u64, free: nat)
    requires Regular(s) && |f.data| <= FRAME_DATA_MAX
    requires IsStart(Tail(f)) && f.iface == s.iface ==> s.blocks == 0
    requires !IsStart(Tail(f)) && !IsEnd(Tail(f)) ==> |s.payload| + |Body(f)| < PAYLOAD_LEN_LIMIT
    ensures Regular(Accept(s, f, now, signature, free).session)
  {
    hide Push, Finish;
    if f.iface == s.iface && Toggle(Tail(f)) == s.nextToggle && TransferId(Tail(f)) == s.transferId {
      if IsStart(Tail(f)) && !IsEnd(Tail(f)) && |f.data| > 3 {
        PushRegular(s.(timestamp := now.time, payload := [], payloadCrc := CrcFromBytes(f.data[0], f.data[1])), Body(f)[2..],
                    Crc(INITIAL, SignatureBytes(signature)), free, now.memory);
      } else if !IsStart(Tail(f)) && !IsEnd(Tail(f)) {
        PushRegular(s, Body(f), s.calculatedCrc, free, now.memory);
      } else if !IsStart(Tail(f)) {
        FinishRegular(s, Body(f), free, now.memory);
      }
    }
  }

  lemma FinishRegular(s: Session, bytes: seq<u8>, free: nat, memory: seq<u8>)
    ensures Regular(Finish(s, bytes, free, memory).session)
  {
  }

  lemma PushRegular(s: Session, bytes: seq<u8>, crc: Register, free: nat, memory: seq<u8>)
    requires Regular(s) && |bytes| <= 7 && |s.payload| + |bytes| < PAYLOAD_LEN_LIMIT
    ensures Regular(Push(s, bytes, crc, free, memory).session)
  {
    hide Crc, BlocksAfter;
    if BlocksAfter(|s.payload|, s.blocks, |bytes|) <= s.blocks + free {
      PushWithin(s, bytes, crc, free, memory);
      BlocksHold(|s.payload|, s.blocks, |bytes|);
    }
  }

  /** The chunks reach exactly as far as the bytes. */
  lemma BlocksHold(length: nat, blocks: nat, n: nat)
    requires n <= 7 && length + n < PAYLOAD_LEN_LIMIT
    requires if blocks == 0 then length <= HEAD_SIZE
             else HEAD_SIZE + BLOCK_SIZE * (blocks - 1) <= length <= HEAD_SIZE + BLOCK_SIZE * blocks
    ensures var after := BlocksAfter(length, blocks, n);
      if after == 0 then length + n <= HEAD_SIZE
      else HEAD_SIZE + BLOCK_SIZE * (after - 1) <= length + n <= HEAD_SIZE + BLOCK_SIZE * after
  {
    if blocks > 0 {
      var full := if length == HEAD_SIZE + BLOCK_SIZE * blocks then blocks else blocks - 1;
      var last := length - HEAD_SIZE - BLOCK_SIZE * full;
      BlocksInChain(length, full, last);
      if last + n < BLOCK_SIZE {
        BlocksInChain(length + n, full, last + n);
      } else {
        BlocksInChain(length + n, full + 1, last + n - BLOCK_SIZE);
      }
    }
  }

  /** As long as no session counts beyond its ten bits, all of them hold their bytes without a gap. */
  lemma ApplyRegular(m: Model, e: Event)
    requires AllRegular(m.sessions) && Countable(m, e)
    ensures AllRegular(Apply(m, e).sessions)
  {
    hide Regular, Storable, Receive, Descriptor, Compatible, SendBroadcast, SendService, Live, StaleBlocks;
    match e
    case Received(f, now, accept) =>
      var k := FindSession(m.sessions, Descriptor(f.id));
      if k < |m.sessions| {
        RegularKept(m.sessions[k], f, now, 0, m.free);
        if accept.Some? {
          RegularKept(m.sessions[k], f, now, accept.value, m.free);
        }
      } else if accept.Some? {
        FreshRegular(Descriptor(f.id), f, now, accept.value, Opened(m, Descriptor(f.id)).free);
      }
    case Broadcasted(signature, dataTypeId, tid, priority, payload) =>
      OnlySends(m, e);
    case Requested(_, _, _, _, _, _, _) =>
      OnlySends(m, e);
    case Transmitted =>
    case CleanedUp(time) =>
      var live := Live(m.sessions, time);
      LiveMembers(m.sessions, time);
      forall i | 0 <= i < |live| ensures Regular(live[i]) {
        assert live[i] in m.sessions;
      }
  }

  lemma FreshRegular(d: nat, f: Frame, now: Moment, signature: u64, free: nat)
    requires |f.data| <= FRAME_DATA_MAX
    ensures Regular(Receive(Fresh(d), f, now, signature, free).session)
  {
    hide Receive;
    RegularKept(Fresh(d), f, now, signature, free);
  }

  lemma OnlySends(m: Model, e: Event)
    requires e.Broadcasted? || e.Requested?
    ensures Apply(m, e).sessions == m.sessions
  {
    hide Insert, InsertAll, MultiFrames;
  }

  lemma {:induction false} LiveMembers(sessions: seq<Session>, now: u64)
    ensures forall s :: s in Live(sessions, now) ==> s in sessions
  {
    hide Stale;
    if sessions != [] {
      LiveMembers(sessions[1..], now);
      assert sessions == [sessions[0]] + sessions[1..];
    }
  }

  lemma {:induction false} RunRegular(m: Model, es: seq<Event>)
    requires AllRegular(m.sessions) && AllCountable(m, es)
    ensures AllRegular(ApplyAll(m, es).sessions)
    decreases es
  {
    hide AllRegular, Countable, Apply;
    if es != [] {
      ApplyRegular(m, es[0]);
      RunRegular(Apply(m, es[0]), es[1..]);
    }
  }

  // ---------- Sending is all or nothing ----------

  predicate EntirelyQueued(m: Model, m': Model, fs: seq<Frame>) {
    m'.free + |fs| == m.free && m' == m.(free := m'.free, queue := InsertAll(m.queue, fs))
  }

  /** A transfer enters the queue completely, or the instance stays as it was; the one exception is a payload
      so long that its length with the CRC wraps around in sixteen bits while some blocks, but fewer than
      needed, are free. */
  lemma AllOrNothing(m: Model, id: Id, payload: seq<u8>, crc: Register, tid: Tid)
    requires |payload| < 0x1_0000
    ensures
      var o := SendFrames(m, id, payload, crc, tid);
      (o.code.Queued? <==> FrameCount(|payload|) <= m.free) &&
      (o.code.Queued? ==> o.code.frames == FrameCount(|payload|) &&
                          EntirelyQueued(m, o.model, TransferFrames(id, payload, crc, tid))) &&
      (!o.code.Queued? ==> (o.model != m <==> |payload| >= 0xFFFE && 0 < m.free))
  {
    hide MultiFrames, Insert;
    if |payload| >= FRAME_DATA_MAX {
      MultiFrameCount(id, payload, crc, tid, 0, false);
    } else {
      var fs := TransferFrames(id, payload, crc, tid);
      assert fs[1..] == [];
      InsertAllNothing(Insert(m.queue, fs[0]));
    }
  }

  /** For instance, one free block and a payload of 65534 bytes leave a single orphaned frame in the queue. */
  lemma TornTransfer(crc: Register)
    ensures
      var m := Model(1, 1, [], [], 0);
      var o := SendFrames(m, 0x80000000, seq(0xFFFE, _ => 0), crc, 0);
      o.code == NoMemory && |o.model.queue| == 1 && o.model.free == 0
  {
    hide MultiFrames;
    var payload: seq<u8> := seq(0xFFFE, _ => 0);
    var fs := TransferFrames(0x80000000, payload, crc, 0);
    MultiFrameCount(0x80000000, payload, crc, 0, 0, false);
    InsertAllLength([], fs[..1]);
  }
}
