/** The tunnel's queues and its sending loop (components/airlink_can/airlink_can.c): two priority classes, the
    oldest normal packet giving way to a new one, and packets broadcast in pieces. */
module Tunnel {
  import opened Bits

  const HIGH_QUEUE_DEPTH := 16
  const NORMAL_QUEUE_DEPTH := 32
  const HIGH_BURST_LIMIT := 8
  const PACKET_MAX := 280
  const CHUNK_MAX := 120

  datatype Packet = Packet(bytes: seq<u8>, high: bool)

  predicate Sendable(p: Packet) { 0 < |p.bytes| <= PACKET_MAX }

  /** A send in progress: the normal queue was full, and its oldest packet has not, or has, been thrown away. */
  datatype Pending = Nothing | Discarding(packet: Packet) | Retrying(packet: Packet)

  /** A packet taken from a queue, and whether a normal and whether a high packet was waiting at that moment. */
  datatype Take = Take(packet: Packet, waiting: bool, urgent: bool)

  /** The queues and the loop's variables, and the history: what was offered to each queue, what was taken, what
      of each taken packet has been broadcast, and the pieces broadcast. */
  datatype State = State(
    high: seq<Packet>, normal: seq<Packet>, pending: Pending, burst: u32, active: bool, drops: nat,
    offeredHigh: seq<Packet>, offeredNormal: seq<Packet>,
    taken: seq<Take>, carried: seq<seq<u8>>, pieces: seq<seq<u8>>)

  // ---------- can_router_send, in the three steps between which the sending loop may run ----------

  function Offer(s: State, p: Packet): State {
    if p.high then
      var next := s.(offeredHigh := s.offeredHigh + [p]);
      if |s.high| < HIGH_QUEUE_DEPTH then next.(high := s.high + [p]) else next
    else
      var next := s.(offeredNormal := s.offeredNormal + [p]);
      if |s.normal| < NORMAL_QUEUE_DEPTH then next.(normal := s.normal + [p]) else next.(pending := Discarding(p))
  }

  function Discard(s: State): State {
    if !s.pending.Discarding? then s
    else if s.normal == [] then s.(pending := Nothing, drops := s.drops + 1)
    else s.(normal := s.normal[1..], pending := Retrying(s.pending.packet))
  }

  function Retry(s: State): State {
    if !s.pending.Retrying? then s
    else
      s.(normal := if |s.normal| < NORMAL_QUEUE_DEPTH then s.normal + [s.pending.packet] else s.normal,
         pending := Nothing, drops := s.drops + 1)
  }

  // ---------- One turn of the sending loop ----------

  function TakeNormal(s: State): State
    requires s.normal != []
  {
    s.(normal := s.normal[1..], burst := 0, active := true,
       taken := s.taken + [Take(s.normal[0], true, s.high != [])], carried := s.carried + [[]])
  }

  function TakeHigh(s: State): State
    requires s.high != []
  {
    s.(high := s.high[1..], burst := (s.burst + 1) % 0x1_0000_0000, active := true,
       taken := s.taken + [Take(s.high[0], s.normal != [], true)], carried := s.carried + [[]])
  }

  /** dequeue_tunnel_packet. */
  function Dequeue(s: State): State {
    if s.burst >= HIGH_BURST_LIMIT && s.normal != [] then TakeNormal(s)
    else if s.high != [] then TakeHigh(s)
    else if s.normal != [] then TakeNormal(s)
    else s
  }

  /** airlink_dronecan_chunk_size. */
  function ChunkSize(remaining: nat): nat { if remaining > CHUNK_MAX then CHUNK_MAX else remaining }

  /** The next piece of the packet in hand is broadcast, or the broadcast fails and the packet is given up. */
  function Broadcast(s: State, sent: bool): State
    requires s.active && s.taken != [] && |s.carried| == |s.taken|
    requires |s.carried[|s.carried| - 1]| <= |s.taken[|s.taken| - 1].packet.bytes|
  {
    var bytes, n := s.taken[|s.taken| - 1].packet.bytes, |s.carried| - 1;
    var offset := |s.carried[n]|;
    if !sent then s.(active := false)
    else
      var piece := bytes[offset..offset + ChunkSize(|bytes| - offset)];
      s.(carried := s.carried[..n] + [s.carried[n] + piece], pieces := s.pieces + [piece],
         active := offset + |piece| < |bytes|)
  }

  /** A turn with an empty CAN transmit queue. */
  function Pump(s: State, sent: bool): State
    requires Handling(s)
  {
    var next := if s.active then s else Dequeue(s);
    if next.active then Broadcast(next, sent) else next
  }

  /** What is in hand is the last packet taken, and part of it has been broadcast. */
  ghost predicate Handling(s: State) {
    && |s.carried| == |s.taken|
    && (forall i :: 0 <= i < |s.taken| ==> s.carried[i] <= s.taken[i].packet.bytes)
    && (s.active ==> s.taken != [] && s.carried[|s.taken| - 1] < s.taken[|s.taken| - 1].packet.bytes)
  }

  datatype Event = Offering(packet: Packet) | Discarded | Retried | Pumped(sent: bool)

  /** A further send waits for the router's mutex while one is in progress. */
  function Step(s: State, e: Event): State
    requires Handling(s)
  {
    match e
    case Offering(p) => if s.pending.Nothing? && Sendable(p) then Offer(s, p) else s
    case Discarded => Discard(s)
    case Retried => Retry(s)
    case Pumped(sent) => Pump(s, sent)
  }

  // ---------- What holds in every state ----------

  ghost predicate Queues(s: State) {
    && |s.high| <= HIGH_QUEUE_DEPTH && |s.normal| <= NORMAL_QUEUE_DEPTH
    && (s.pending.Retrying? ==> |s.normal| < NORMAL_QUEUE_DEPTH)
    && (forall i :: 0 <= i < |s.high| ==> s.high[i].high && Sendable(s.high[i]))
    && (forall i :: 0 <= i < |s.normal| ==> !s.normal[i].high && Sendable(s.normal[i]))
    && (!s.pending.Nothing? ==> !s.pending.packet.high && Sendable(s.pending.packet))
  }

  /** A high packet taken while a normal one was waiting. */
  predicate Overtakes(t: Take) { t.packet.high && t.waiting }

  /** How many of the latest packets taken overtook a waiting normal packet without a break. */
  function Overtaking(taken: seq<Take>): (n: nat)
    ensures n <= |taken|
  {
    if taken == [] || !Overtakes(taken[|taken| - 1]) then 0 else 1 + Overtaking(taken[..|taken| - 1])
  }

  /** Never more than HIGH_BURST_LIMIT in a row. */
  ghost predicate Fair(taken: seq<Take>) {
    forall i :: 0 <= i <= |taken| ==> Overtaking(taken[..i]) <= HIGH_BURST_LIMIT
  }

  /** How many of the latest packets taken were high ones, without a break. */
  function HighRun(taken: seq<Take>): (n: nat)
    ensures n <= |taken|
  {
    if taken == [] || !taken[|taken| - 1].packet.high then 0 else 1 + HighRun(taken[..|taken| - 1])
  }

  /** A normal packet goes before a waiting high one only after HIGH_BURST_LIMIT high ones. */
  ghost predicate Deferring(taken: seq<Take>) {
    forall i :: 0 <= i < |taken| && !taken[i].packet.high && taken[i].urgent ==> HighRun(taken[..i]) >= HIGH_BURST_LIMIT
  }

  ghost predicate Burst(s: State) {
    Overtaking(s.taken) <= s.burst <= HighRun(s.taken) && Fair(s.taken) && Deferring(s.taken)
  }

  function TakenOf(taken: seq<Take>, high: bool): seq<Packet> {
    if taken == [] then []
    else
      var t := taken[|taken| - 1];
      TakenOf(taken[..|taken| - 1], high) + if t.packet.high == high then [t.packet] else []
  }

  function Awaiting(p: Pending): seq<Packet> { if p.Nothing? then [] else [p.packet] }

  /** a consists of elements of b at strictly increasing positions. */
  ghost predicate Picks(a: seq<Packet>, b: seq<Packet>, at: seq<nat>) {
    && |at| == |a| && (forall i, j :: 0 <= i < j < |at| ==> at[i] < at[j])
    && (forall i :: 0 <= i < |at| ==> at[i] < |b| && a[i] == b[at[i]])
  }

  ghost predicate InOrder(a: seq<Packet>, b: seq<Packet>) { exists at: seq<nat> :: Picks(a, b, at) }

  /** Each class is first in, first out: what was taken, then what is queued, in the order it was offered. */
  ghost predicate Fifo(s: State) {
    && InOrder(TakenOf(s.taken, true) + s.high, s.offeredHigh)
    && InOrder(TakenOf(s.taken, false) + s.normal + Awaiting(s.pending), s.offeredNormal)
  }

  /** Every normal packet offered was taken, is queued, is being sent, or was counted as dropped. */
  ghost predicate Accounted(s: State) {
    |s.offeredNormal| == |TakenOf(s.taken, false)| + |s.normal| + s.drops
      + match s.pending { case Nothing => 0 case Discarding(_) => 1 case Retrying(_) => 2 }
  }

  function Flat(blocks: seq<seq<u8>>): seq<u8> {
    if blocks == [] then [] else Flat(blocks[..|blocks| - 1]) + blocks[|blocks| - 1]
  }

  /** The pieces on the bus, one after the other, are what was broadcast of each packet. */
  ghost predicate OnBus(s: State) {
    && Flat(s.pieces) == Flat(s.carried)
    && forall i :: 0 <= i < |s.pieces| ==> 0 < |s.pieces[i]| <= CHUNK_MAX
  }

  ghost predicate Inv(s: State) { Handling(s) && Queues(s) && Burst(s) && Fifo(s) && Accounted(s) && OnBus(s) }

  // ---------- Sequences in order ----------

  lemma OrderedMore(a: seq<Packet>, b: seq<Packet>, p: Packet)
    requires InOrder(a, b)
    ensures InOrder(a + [p], b + [p]) && InOrder(a, b + [p])
  {
    var at: seq<nat> :| Picks(a, b, at);
    assert Picks(a, b + [p], at);
    assert Picks(a + [p], b + [p], at + [|b|]);
  }

  lemma OrderedLess(a: seq<Packet>, k: nat, b: seq<Packet>)
    requires k < |a| && InOrder(a, b)
    ensures InOrder(a[..k] + a[k + 1..], b)
  {
    var at: seq<nat> :| Picks(a, b, at);
    assert Picks(a[..k] + a[k + 1..], b, at[..k] + at[k + 1..]);
  }

  lemma OrderedNothing()
    ensures InOrder([], [])
  {
    assert Picks([], [], []);
  }

  lemma {:induction false} TakenMore(taken: seq<Take>, t: Take, high: bool)
    ensures TakenOf(taken + [t], high) == TakenOf(taken, high) + if t.packet.high == high then [t.packet] else []
  {
    assert (taken + [t])[..|taken|] == taken;
  }

  // ---------- Sending ----------

  lemma OfferKeeps(s: State, p: Packet)
    requires Inv(s) && s.pending.Nothing? && Sendable(p)
    ensures Inv(Offer(s, p))
  {
    hide TakenOf, InOrder, Flat, Overtaking, Fair, Sendable;
    var high, normal := TakenOf(s.taken, true) + s.high, TakenOf(s.taken, false) + s.normal;
    assert normal + [] == normal;
    if p.high {
      OrderedMore(high, s.offeredHigh, p);
      assert high + [p] == TakenOf(s.taken, true) + (s.high + [p]);
    } else {
      OrderedMore(normal, s.offeredNormal, p);
      assert normal + [p] == TakenOf(s.taken, false) + (s.normal + [p]) + [];
    }
  }

  lemma DiscardKeeps(s: State)
    requires Inv(s)
    ensures Inv(Discard(s))
  {
    hide TakenOf, InOrder, Flat, Overtaking, Fair, Sendable;
    if s.pending.Discarding? {
      var before := TakenOf(s.taken, false);
      var all := before + s.normal + [s.pending.packet];
      OrderedLess(all, |before|, s.offeredNormal);
      if s.normal == [] {
        assert all[..|before|] + all[|before| + 1..] == before + s.normal + [];
      } else {
        assert all[..|before|] + all[|before| + 1..] == before + s.normal[1..] + [s.pending.packet];
      }
    }
  }

  lemma RetryKeeps(s: State)
    requires Inv(s)
    ensures Inv(Retry(s))
  {
    hide TakenOf, InOrder, Flat, Overtaking, Fair, Sendable;
    if s.pending.Retrying? {
      assert TakenOf(s.taken, false) + s.normal + [s.pending.packet] ==
             TakenOf(s.taken, false) + (s.normal + [s.pending.packet]) + [];
    }
  }

  // ---------- Taking ----------

  lemma FairMore(taken: seq<Take>, t: Take)
    requires Fair(taken) && Overtaking(taken + [t]) <= HIGH_BURST_LIMIT
    ensures Fair(taken + [t])
  {
    var more := taken + [t];
    forall i | 0 <= i <= |more| ensures Overtaking(more[..i]) <= HIGH_BURST_LIMIT {
      if i <= |taken| {
        assert more[..i] == taken[..i];
      } else {
        assert more[..i] == more;
      }
    }
  }

  lemma {:induction false} OvertakingMore(taken: seq<Take>, t: Take)
    ensures Overtaking(taken + [t]) == if Overtakes(t) then 1 + Overtaking(taken) else 0
  {
    assert (taken + [t])[..|taken|] == taken;
  }

  lemma {:induction false} FlatMore(blocks: seq<seq<u8>>, block: seq<u8>)
    ensures Flat(blocks + [block]) == Flat(blocks) + block
  {
    assert (blocks + [block])[..|blocks|] == blocks;
  }

  lemma {:induction false} HighRunMore(taken: seq<Take>, t: Take)
    ensures HighRun(taken + [t]) == if t.packet.high then 1 + HighRun(taken) else 0
  {
    assert (taken + [t])[..|taken|] == taken;
  }

  lemma DeferringMore(taken: seq<Take>, t: Take)
    requires Deferring(taken) && (!t.packet.high && t.urgent ==> HighRun(taken) >= HIGH_BURST_LIMIT)
    ensures Deferring(taken + [t])
  {
    var more := taken + [t];
    forall i | 0 <= i < |more| && !more[i].packet.high && more[i].urgent ensures HighRun(more[..i]) >= HIGH_BURST_LIMIT {
      assert more[..i] == if i < |taken| then taken[..i] else taken;
    }
  }

  lemma TakeNormalKeeps(s: State)
    requires Inv(s) && !s.active && s.normal != [] && (s.high != [] ==> s.burst >= HIGH_BURST_LIMIT)
    ensures Inv(TakeNormal(s))
  {
    hide Fifo, Accounted, Flat, Overtaking, Fair, HighRun, Deferring;
    var t := Take(s.normal[0], true, s.high != []);
    OvertakingMore(s.taken, t);
    FairMore(s.taken, t);
    HighRunMore(s.taken, t);
    DeferringMore(s.taken, t);
    TakeNormalFifo(s);
    FlatMore(s.carried, []);
    assert Flat(s.carried) + [] == Flat(s.carried);
  }

  lemma TakeNormalFifo(s: State)
    requires Queues(s) && Fifo(s) && Accounted(s) && s.normal != []
    ensures Fifo(TakeNormal(s)) && Accounted(TakeNormal(s))
  {
    hide TakenOf, InOrder, Sendable;
    var t := Take(s.normal[0], true, s.high != []);
    TakenMore(s.taken, t, false);
    TakenMore(s.taken, t, true);
    assert TakenOf(s.taken, true) + [] == TakenOf(s.taken, true);
    assert TakenOf(s.taken, false) + s.normal == TakenOf(s.taken, false) + [s.normal[0]] + s.normal[1..];
  }

  lemma TakeHighKeeps(s: State)
    requires Inv(s) && !s.active && s.high != [] && (s.normal != [] ==> s.burst < HIGH_BURST_LIMIT)
    ensures Inv(TakeHigh(s))
  {
    hide TakenOf, InOrder, Flat, Overtaking, Fair, HighRun, Deferring;
    var t := Take(s.high[0], s.normal != [], true);
    OvertakingMore(s.taken, t);
    FairMore(s.taken, t);
    HighRunMore(s.taken, t);
    DeferringMore(s.taken, t);
    TakenMore(s.taken, t, false);
    TakenMore(s.taken, t, true);
    assert TakenOf(s.taken, false) + [] == TakenOf(s.taken, false);
    assert TakenOf(s.taken, true) + s.high == TakenOf(s.taken, true) + [s.high[0]] + s.high[1..];
    FlatMore(s.carried, []);
    assert Flat(s.carried) + [] == Flat(s.carried);
  }

  lemma BroadcastKeeps(s: State, sent: bool)
    requires Inv(s) && s.active
    ensures Inv(Broadcast(s, sent))
  {
    hide Queues, Burst, Fifo, Accounted, Flat;
    if sent {
      var bytes, n := s.taken[|s.taken| - 1].packet.bytes, |s.carried| - 1;
      var offset := |s.carried[n]|;
      var piece := bytes[offset..offset + ChunkSize(|bytes| - offset)];
      FlatMore(s.pieces, piece);
      FlatMore(s.carried[..n], s.carried[n]);
      assert s.carried == s.carried[..n] + [s.carried[n]];
      FlatMore(s.carried[..n], s.carried[n] + piece);
      assert Flat(s.carried[..n]) + s.carried[n] + piece == Flat(s.carried[..n]) + (s.carried[n] + piece);
      assert s.carried[n] + piece == bytes[..offset + |piece|];
    }
    SameHistory(s, Broadcast(s, sent));
  }

  lemma SameHistory(s: State, r: State)
    requires r == s.(active := r.active, carried := r.carried, pieces := r.pieces)
    requires Queues(s) && Burst(s) && Fifo(s) && Accounted(s)
    ensures Queues(r) && Burst(r) && Fifo(r) && Accounted(r)
  {
    hide TakenOf, InOrder, Overtaking, Fair, Sendable;
  }

  lemma StepKeeps(s: State, e: Event)
    requires Inv(s)
    ensures Inv(Step(s, e))
  {
    hide Inv;
    InvHandles(s);
    match e
    case Offering(p) =>
      if s.pending.Nothing? && Sendable(p) {
        OfferKeeps(s, p);
      }
    case Discarded =>
      DiscardKeeps(s);
    case Retried =>
      RetryKeeps(s);
    case Pumped(sent) =>
      if !s.active {
        if s.burst >= HIGH_BURST_LIMIT && s.normal != [] {
          TakeNormalKeeps(s);
        } else if s.high != [] {
          TakeHighKeeps(s);
        } else if s.normal != [] {
          TakeNormalKeeps(s);
        }
      }
      var next := if s.active then s else Dequeue(s);
      if next.active {
        InvHandles(next);
        BroadcastKeeps(next, sent);
      }
  }

  lemma InvHandles(s: State)
    requires Inv(s)
    ensures Handling(s)
  {
  }

  ghost function Run(s: State, events: seq<Event>): (r: State)
    requires Inv(s)
    ensures Inv(r)
    decreases |events|
  {
    if events == [] then s
    else
      StepKeeps(s, events[0]);
      Run(Step(s, events[0]), events[1..])
  }

  ghost function Init(): (s: State)
    ensures Inv(s)
  {
    OrderedNothing();
    assert TakenOf([], true) + [] == [] && TakenOf([], false) + [] + [] == [];
    State([], [], Nothing, 0, false, 0, [], [], [], [], [])
  }

  // ---------- What this means ----------

  lemma {:induction false} OvertakingAll(taken: seq<Take>, n: nat)
    requires n <= |taken| && forall i :: |taken| - n <= i < |taken| ==> Overtakes(taken[i])
    ensures Overtaking(taken) >= n
    decreases n
  {
    if n > 0 {
      OvertakingAll(taken[..|taken| - 1], n - 1);
    }
  }

  /** Among any nine packets taken in a row there is a normal one, or one taken while no normal packet waited: at
      most eight high packets in a row overtake, whatever is sent meanwhile, and also when the counter wraps. */
  lemma StarvationFree(events: seq<Event>, i: nat)
    requires i + HIGH_BURST_LIMIT < |Run(Init(), events).taken|
    ensures exists j :: i <= j <= i + HIGH_BURST_LIMIT && !Overtakes(Run(Init(), events).taken[j])
  {
    hide Init, Run;
    var taken := Run(Init(), events).taken;
    if forall j :: i <= j <= i + HIGH_BURST_LIMIT ==> Overtakes(taken[j]) {
      var front := taken[..i + HIGH_BURST_LIMIT + 1];
      OvertakingAll(front, HIGH_BURST_LIMIT + 1);
      assert false;
    }
  }

  /** And high packets come first: a normal packet is taken while a high one waits only after eight high ones in a row. */
  lemma HighFirst(events: seq<Event>, i: nat)
    requires i < |Run(Init(), events).taken|
    requires var t := Run(Init(), events).taken[i]; !t.packet.high && t.urgent
    ensures i >= HIGH_BURST_LIMIT
    ensures forall j :: i - HIGH_BURST_LIMIT <= j < i ==> Run(Init(), events).taken[j].packet.high
  {
    hide Init, Run;
    var taken := Run(Init(), events).taken;
    HighRunHigh(taken[..i]);
    forall j | i - HIGH_BURST_LIMIT <= j < i ensures taken[j].packet.high {
      assert taken[..i][j] == taken[j];
    }
  }

  lemma {:induction false} HighRunHigh(taken: seq<Take>)
    ensures forall j :: |taken| - HighRun(taken) <= j < |taken| ==> taken[j].packet.high
  {
    if taken != [] && taken[|taken| - 1].packet.high {
      var front := taken[..|taken| - 1];
      HighRunHigh(front);
      forall j | |taken| - HighRun(taken) <= j < |taken| ensures taken[j].packet.high {
        if j < |front| {
          assert front[j] == taken[j];
        }
      }
    }
  }

  // ---------- Progress ----------

  /** Messages that carry n bytes. */
  function Messages(n: nat): nat { (n + CHUNK_MAX - 1) / CHUNK_MAX }

  /** Messages for the queued packets. */
  function Queued(q: seq<Packet>): nat {
    if q == [] then 0 else Messages(|q[0].bytes|) + Queued(q[1..])
  }

  /** Messages that wait for transmission, those for the rest of the packet in hand included. */
  ghost function Backlog(s: State): nat
    requires Handling(s)
  {
    Queued(s.high) + Queued(s.normal) +
    if s.active then Messages(|s.taken[|s.taken| - 1].packet.bytes| - |s.carried[|s.taken| - 1]|) else 0
  }

  /** Every turn with a backlog broadcasts one message of it. */
  lemma TurnProgresses(s: State)
    requires Inv(s)
    ensures Inv(Pump(s, true)) && Pump(s, true).pending == s.pending
    ensures Backlog(s) > 0 ==> Backlog(Pump(s, true)) == Backlog(s) - 1
    ensures Backlog(s) == 0 ==> s.high == [] && s.normal == [] && !s.active
  {
    StepKeeps(s, Pumped(true));
    hide Burst, Fifo, Accounted, OnBus, Inv, Messages;
    InvParts(s);
    if s.active {
      BroadcastProgresses(s);
    } else {
      TakingKeepsBacklog(s);
      InvHandles(s);
      if Dequeue(s).active {
        BroadcastProgresses(Dequeue(s));
      }
    }
  }

  lemma InvParts(s: State)
    requires Inv(s)
    ensures Handling(s) && Queues(s)
  {
  }

  lemma BroadcastProgresses(s: State)
    requires Handling(s) && s.active
    ensures Handling(Broadcast(s, true)) && Backlog(Broadcast(s, true)) == Backlog(s) - 1
    ensures Broadcast(s, true).pending == s.pending
  {
    hide Queued, Messages, ChunkSize;
    OneMessage(|s.taken[|s.taken| - 1].packet.bytes| - |s.carried[|s.taken| - 1]|);
  }

  /** A message takes as much as fits. */
  lemma OneMessage(n: nat)
    requires n > 0
    ensures 0 < ChunkSize(n) <= n && Messages(n - ChunkSize(n)) == Messages(n) - 1 && Messages(0) == 0
  {
  }

  lemma TakingKeepsBacklog(s: State)
    requires Handling(s) && Queues(s) && !s.active
    ensures Handling(Dequeue(s)) && Backlog(Dequeue(s)) == Backlog(s) && Dequeue(s).pending == s.pending
    ensures Dequeue(s).active <==> s.high != [] || s.normal != []
    ensures Backlog(s) == 0 <==> s.high == [] && s.normal == []
  {
  }

  function Turns(n: nat): seq<Event> { seq(n, _ => Pumped(true)) }

  lemma {:induction false} BacklogAfter(s: State, n: nat)
    requires Inv(s) && Handling(s) && n <= Backlog(s)
    ensures Handling(Run(s, Turns(n))) && Backlog(Run(s, Turns(n))) == Backlog(s) - n
    decreases n
  {
    hide Inv, Pump, Handling, Backlog;
    if n > 0 {
      TurnProgresses(s);
      InvHandles(Pump(s, true));
      BacklogAfter(Pump(s, true), n - 1);
      assert Turns(n)[1..] == Turns(n - 1);
    }
  }

  lemma IdleExactly(s: State)
    requires Inv(s)
    ensures Handling(s) && (Backlog(s) == 0 <==> s.high == [] && s.normal == [] && !s.active)
  {
    InvParts(s);
    TurnProgresses(s);
  }

  /** Left alone, the loop has emptied both queues after exactly as many turns as messages are needed when every message
      but a packet's last is full, and not before. */
  lemma {:induction false} Drains(s: State, n: nat)
    requires Inv(s) && Handling(s) && n <= Backlog(s)
    ensures var r := Run(s, Turns(n)); r.high == [] && r.normal == [] && !r.active <==> n == Backlog(s)
  {
    hide Inv, Handling, Backlog;
    BacklogAfter(s, n);
    IdleExactly(Run(s, Turns(n)));
  }

  /** Each class leaves first in, first out, and every normal packet is accounted for. */
  lemma FirstInFirstOut(events: seq<Event>)
    ensures
      var r := Run(Init(), events);
      && InOrder(TakenOf(r.taken, true), r.offeredHigh) && InOrder(TakenOf(r.taken, false), r.offeredNormal)
      && (r.pending.Nothing? ==> |r.offeredNormal| == |TakenOf(r.taken, false)| + |r.normal| + r.drops)
  {
    hide Init, Run, TakenOf, InOrder;
    var r := Run(Init(), events);
    Prefix(TakenOf(r.taken, true), r.high, r.offeredHigh);
    assert TakenOf(r.taken, false) + r.normal + Awaiting(r.pending) ==
           TakenOf(r.taken, false) + (r.normal + Awaiting(r.pending));
    Prefix(TakenOf(r.taken, false), r.normal + Awaiting(r.pending), r.offeredNormal);
  }

  lemma Prefix(a: seq<Packet>, rest: seq<Packet>, b: seq<Packet>)
    requires InOrder(a + rest, b)
    ensures InOrder(a, b)
  {
    var at: seq<nat> :| Picks(a + rest, b, at);
    assert forall i :: 0 <= i < |a| ==> a[i] == (a + rest)[i];
    assert Picks(a, b, at[..|a|]);
  }

  /** A send that is not interrupted: a full normal queue gives up its oldest packet for the new one; a full high
      queue refuses the new one. */
  function Sent(s: State, p: Packet): State { Retry(Discard(Offer(s, p))) }

  lemma QueueBounds(s: State)
    requires Inv(s)
    ensures |s.high| <= HIGH_QUEUE_DEPTH && |s.normal| <= NORMAL_QUEUE_DEPTH
  {
  }

  /** The queues after a send. */
  predicate QueuedNewest(s: State, r: State, p: Packet) {
    if p.high then
      r.normal == s.normal && r.high == if |s.high| < HIGH_QUEUE_DEPTH then s.high + [p] else s.high
    else
      r.high == s.high && s.normal + [p] != [] &&
      r.normal == if |s.normal| < NORMAL_QUEUE_DEPTH then s.normal + [p] else (s.normal + [p])[1..]
  }

  lemma SentQueues(s: State, p: Packet)
    requires |s.high| <= HIGH_QUEUE_DEPTH && |s.normal| <= NORMAL_QUEUE_DEPTH && s.pending.Nothing?
    ensures Sent(s, p).pending.Nothing? && QueuedNewest(s, Sent(s, p), p)
  {
  }

  lemma NewestKept(s: State, p: Packet)
    requires Inv(s) && s.pending.Nothing? && Sendable(p)
    ensures Inv(Sent(s, p)) && Sent(s, p).pending.Nothing? && QueuedNewest(s, Sent(s, p), p)
  {
    hide Inv, QueuedNewest;
    OfferKeeps(s, p);
    DiscardKeeps(Offer(s, p));
    RetryKeeps(Discard(Offer(s, p)));
    QueueBounds(s);
    SentQueues(s, p);
  }

  // ---------- Packets on the bus ----------

  ghost predicate AllSent(events: seq<Event>) { forall i :: 0 <= i < |events| ==> events[i] != Pumped(false) }

  /** Every packet taken so far has been broadcast whole, except the one in hand. */
  ghost predicate Whole(s: State) {
    |s.carried| == |s.taken| &&
    forall i :: 0 <= i < |s.taken| && !(s.active && i == |s.taken| - 1) ==> s.carried[i] == s.taken[i].packet.bytes
  }

  lemma TakenHandles(s: State)
    requires Inv(s) && !s.active
    ensures Handling(Dequeue(s))
  {
    InvParts(s);
    TakingKeepsBacklog(s);
  }

  lemma WholeTaken(s: State)
    requires Handling(s) && Whole(s) && !s.active
    ensures Whole(Dequeue(s))
  {
  }

  lemma WholeBroadcast(s: State)
    requires Handling(s) && Whole(s) && s.active
    ensures Whole(Broadcast(s, true))
  {
  }

  lemma WholeStep(s: State, e: Event)
    requires Inv(s) && Whole(s) && e != Pumped(false)
    ensures Whole(Step(s, e))
  {
    hide Queues, Burst, Fifo, Accounted, OnBus, Inv;
    InvHandles(s);
    if e.Pumped? {
      if !s.active {
        WholeTaken(s);
        TakenHandles(s);
      }
      var next := if s.active then s else Dequeue(s);
      if next.active {
        WholeBroadcast(next);
      }
    }
  }

  lemma {:induction false} WholeRun(s: State, events: seq<Event>)
    requires Inv(s) && Whole(s) && AllSent(events)
    ensures Whole(Run(s, events))
    decreases |events|
  {
    hide Inv, Step, Whole;
    if events != [] {
      InvHandles(s);
      StepKeeps(s, events[0]);
      WholeStep(s, events[0]);
      WholeRun(Step(s, events[0]), events[1..]);
    }
  }

  function Bytes(taken: seq<Take>): seq<u8> {
    if taken == [] then [] else Bytes(taken[..|taken| - 1]) + taken[|taken| - 1].packet.bytes
  }

  lemma {:induction false} FlatIsBytes(taken: seq<Take>, carried: seq<seq<u8>>)
    requires |carried| == |taken| && forall i :: 0 <= i < |taken| ==> carried[i] == taken[i].packet.bytes
    ensures Flat(carried) == Bytes(taken)
    decreases |taken|
  {
    if taken != [] {
      FlatIsBytes(taken[..|taken| - 1], carried[..|carried| - 1]);
    }
  }

  /** As long as every broadcast succeeds, the pieces on the bus, none empty and none longer than a message's
      buffer, make up exactly the packets taken, in the order they were taken. */
  lemma PacketsWhole(events: seq<Event>)
    requires AllSent(events) && !Run(Init(), events).active
    ensures
      var r := Run(Init(), events);
      && Flat(r.pieces) == Bytes(r.taken)
      && forall i :: 0 <= i < |r.pieces| ==> 0 < |r.pieces[i]| <= CHUNK_MAX
  {
    hide Run, Flat, Bytes, Queues, Burst, Fifo, Accounted;
    WholeRun(Init(), events);
    var r := Run(Init(), events);
    FlatIsBytes(r.taken, r.carried);
  }

  // ---------- The queues and the loop's variables themselves ----------

  class Port {
    var high: seq<Packet>
    var normal: seq<Packet>
    var burst: u32
    var packet: Packet
    var packetOffset: nat
    var packetActive: bool
    /** The same state, with its history. */
    ghost var state: State

    ghost predicate Valid()
      reads this
    {
      && Inv(state) && state.pending.Nothing?
      && state.high == high && state.normal == normal && state.burst == burst && state.active == packetActive
      && (packetActive ==>
            packet == state.taken[|state.taken| - 1].packet && packetOffset == |state.carried[|state.taken| - 1]|)
    }

    constructor ()
      ensures Valid() && state == Init()
    {
      hide Inv;
      high, normal, burst, packet, packetOffset, packetActive := [], [], 0, Packet([], false), 0, false;
      state := Init();
    }

    /** can_router_send, not interrupted: refuses what does not fit a packet and a high packet for a full queue. */
    method RouterSend(data: seq<u8>, highPriority: bool) returns (accepted: bool)
      requires Valid()
      modifies this
      ensures Valid() && packetActive == old(packetActive)
      ensures state == if Sendable(Packet(data, highPriority)) then Sent(old(state), Packet(data, highPriority)) else old(state)
      ensures accepted == (Sendable(Packet(data, highPriority)) && (highPriority ==> |old(high)| < HIGH_QUEUE_DEPTH))
    {
      hide Inv;
      var p := Packet(data, highPriority);
      if |data| == 0 || |data| > PACKET_MAX {
        return false;
      }
      NewestKept(state, p);
      state := Sent(state, p);
      if highPriority {
        if |high| < HIGH_QUEUE_DEPTH {
          high := high + [p];
          return true;
        }
        return false;
      }
      if |normal| < NORMAL_QUEUE_DEPTH {
        normal := normal + [p];
        return true;
      }
      normal := normal[1..];
      normal := normal + [p];
      return true;
    }

    /** dequeue_tunnel_packet. */
    method DequeuePacket() returns (found: bool)
      requires Valid() && !packetActive
      modifies this
      ensures Valid() && state == Dequeue(old(state)) && found == packetActive
      ensures found <==> old(high) != [] || old(normal) != []
    {
      hide Queues, Burst, Fifo, Accounted, OnBus;
      if normal != [] && (burst >= HIGH_BURST_LIMIT || high == []) {
        TakeNormalKeeps(state);
      } else if high != [] {
        TakeHighKeeps(state);
      }
      state := Dequeue(state);
      packetOffset := 0;
      if burst >= HIGH_BURST_LIMIT && normal != [] {
        packet, normal, burst, packetActive := normal[0], normal[1..], 0, true;
        return true;
      }
      if high != [] {
        packet, high, burst, packetActive := high[0], high[1..], (burst + 1) % 0x1_0000_0000, true;
        return true;
      }
      if normal != [] {
        packet, normal, burst, packetActive := normal[0], normal[1..], 0, true;
        return true;
      }
      return false;
    }

    /** The sending part of can_task's loop, for a turn with an empty transmit queue; `sent` is what
        broadcast_targetted returns. */
    method Turn(sent: bool) returns (piece: Option<seq<u8>>)
      requires Valid()
      modifies this
      ensures Valid() && state == Pump(old(state), sent)
      ensures piece.Some? && sent ==> state.pieces == old(state.pieces) + [piece.value]
      ensures piece.None? || !sent ==> state.pieces == old(state.pieces)
      ensures piece.Some? <==> old(packetActive) || old(high) != [] || old(normal) != []
    {
      hide Inv, Handling, Broadcast;
      piece := None;
      InvHandles(state);
      if !packetActive {
        packetActive := DequeuePacket();
      }
      if packetActive {
        piece := BroadcastChunk(sent);
      }
    }

    method BroadcastChunk(sent: bool) returns (piece: Option<seq<u8>>)
      requires Valid() && packetActive
      modifies this
      ensures Valid() && piece.Some? && state == Broadcast(old(state), sent)
      ensures state.pieces == if sent then old(state.pieces) + [piece.value] else old(state.pieces)
    {
      hide Queues, Burst, Fifo, Accounted, OnBus;
      BroadcastKeeps(state, sent);
      state := Broadcast(state, sent);
      var remaining := |packet.bytes| - packetOffset;
      var chunk := ChunkSize(remaining);
      piece := Some(packet.bytes[packetOffset..packetOffset + chunk]);
      if sent {
        packetOffset := packetOffset + chunk;
        packetActive := packetOffset < |packet.bytes|;
      } else {
        packetActive := false;
      }
    }
  }
}
