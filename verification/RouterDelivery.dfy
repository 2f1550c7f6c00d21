/** What the router's endpoints are offered, over every run (components/airlink_router/airlink_router.c). */
module RouterDelivery {
  import opened Bits
  import opened MavlinkParser
  import opened MavlinkFrame
  import opened RouterModel
  import opened RouterLatch

  // ---------- What each endpoint is offered ----------

  /** The blocks offered to one endpoint, in order. */
  function OfferedTo(offers: seq<Offer>, id: u8): seq<seq<u8>> {
    if offers == [] then []
    else
      OfferedTo(offers[..|offers| - 1], id)
      + if offers[|offers| - 1].to == id then [offers[|offers| - 1].bytes] else []
  }

  lemma {:induction false} OfferedToBoth(a: seq<Offer>, b: seq<Offer>, id: u8)
    ensures OfferedTo(a + b, id) == OfferedTo(a, id) + OfferedTo(b, id)
    decreases |b|
  {
    if b == [] {
      assert a + b == a;
    } else {
      assert (a + b)[..|a + b| - 1] == a + b[..|b| - 1];
      OfferedToBoth(a, b[..|b| - 1], id);
    }
  }

  lemma OfferedNone(id: u8)
    ensures OfferedTo([], id) == []
  {
  }

  lemma {:induction false} OfferedSnoc(offers: seq<Offer>, offer: Offer, id: u8)
    ensures OfferedTo(offers + [offer], id) ==
            if offer.to == id then OfferedTo(offers, id) + [offer.bytes] else OfferedTo(offers, id)
  {
    assert (offers + [offer])[..|offers|] == offers;
    assert OfferedTo(offers, id) + [] == OfferedTo(offers, id);
  }

  /** Routing offers a block once to an endpoint on the other side, and not at all to any other. */
  lemma {:induction false} RoutedOnce(slots: seq<Slot>, n: nat, source: Direction, bytes: seq<u8>, high: bool, d: nat)
    requires n <= |slots| && d < |slots| && slots[d].Used? && DistinctIds(slots)
    ensures OfferedTo(RouteTo(slots, n, source, bytes, high), slots[d].id) ==
            if d < n && Receives(source, slots[d]) then [bytes] else []
    ensures Receives(source, slots[d]) <==>
            (source.Vehicle? && slots[d].direction.Gcs?) || (source.Gcs? && slots[d].direction.Vehicle?)
    decreases n
  {
    hide OfferedTo;
    if n == 0 {
      OfferedNone(slots[d].id);
    } else {
      RoutedOnce(slots, n - 1, source, bytes, high, d);
      var before := RouteTo(slots, n - 1, source, bytes, high);
      if Receives(source, slots[n - 1]) {
        OfferedSnoc(before, Offer(slots[n - 1].id, bytes, high), slots[d].id);
      } else {
        assert before + [] == before;
      }
    }
  }

  function Accepted(k: Sums, frames: seq<seq<u8>>): seq<seq<u8>>
    requires AllFrames(frames)
  {
    if frames == [] then []
    else
      var f := frames[|frames| - 1];
      Accepted(k, frames[..|frames| - 1]) + if Acceptable(Describe(k.accumulate, f)) then [f] else []
  }

  lemma {:induction false} AcceptedSnoc(k: Sums, frames: seq<seq<u8>>, f: seq<u8>)
    requires AllFrames(frames) && IsFrame(f)
    ensures Accepted(k, frames + [f]) ==
            Accepted(k, frames) + if Acceptable(Describe(k.accumulate, f)) then [f] else []
  {
    assert (frames + [f])[..|frames|] == frames;
  }

  lemma {:induction false} AcceptedBoth(k: Sums, a: seq<seq<u8>>, b: seq<seq<u8>>)
    requires AllFrames(a) && AllFrames(b)
    ensures AllFrames(a + b) && Accepted(k, a + b) == Accepted(k, a) + Accepted(k, b)
    decreases |b|
  {
    hide Describe, IsFrame;
    if b == [] {
      assert a + b == a;
      assert Accepted(k, a) + [] == Accepted(k, a);
    } else {
      var most, f := b[..|b| - 1], b[|b| - 1];
      AcceptedBoth(k, a, most);
      assert a + b == (a + most) + [f] && b == most + [f];
      AcceptedSnoc(k, a + most, f);
    }
  }

  /** What a vehicle endpoint's frame adds to the offers of the endpoint at d. */
  lemma FrameOffered(k: Sums, s: Router, f: seq<u8>, now: int, d: nat)
    requires Valid(s) && IsFrame(f) && d < MAX_ENDPOINTS && s.slots[d].Used?
    ensures OfferedTo(OnFrame(k, s, Vehicle, f, now).offers, s.slots[d].id) ==
            OfferedTo(s.offers, s.slots[d].id)
            + if Acceptable(Describe(k.accumulate, f)) && s.slots[d].direction.Gcs? then [f] else []
  {
    hide CrcExtra, CrcValid, Priority, OfferedTo, RouteTo;
    var info := Describe(k.accumulate, f);
    OfferedToBoth(s.offers, Route(s.slots, Vehicle, f, info.high), s.slots[d].id);
    RoutedOnce(s.slots, MAX_ENDPOINTS, Vehicle, f, info.high, d);
    assert OfferedTo(s.offers, s.slots[d].id) + [] == OfferedTo(s.offers, s.slots[d].id);
  }

  lemma {:induction false} InputsOffered(k: Sums, s: Router, at: nat, data: seq<u8>, times: seq<int>, n: nat, d: nat)
    requires Valid(s) && at < MAX_ENDPOINTS && s.slots[at].Used? && s.slots[at].direction.Vehicle?
    requires |data| == |times| && n <= |data| && d < MAX_ENDPOINTS && s.slots[d].Used?
    ensures
      var r := OnInputs(k, s, at, data, times, n);
      var p := Feed(s.slots[at].held, data[..n]);
      && AllFrames(p.frames) && r.slots[at].held == p.held
      && OfferedTo(r.offers, s.slots[d].id) ==
         OfferedTo(s.offers, s.slots[d].id) + if s.slots[d].direction.Gcs? then Accepted(k, p.frames) else []
    decreases n
  {
    hide Feed, Unfinished, OnByte, Describe, IsFrame, OnFrame, OfferedTo, Acceptable;
    var held, id := s.slots[at].held, s.slots[d].id;
    assert Parsing(s.slots[at]);
    FramesFed(held, data[..n]);
    var start := OfferedTo(s.offers, id);
    assert start + [] == start;
    if n == 0 {
      FeedNone(held);
      assert data[..0] == [];
    } else {
      InputsOffered(k, s, at, data, times, n - 1, d);
      FeedSnoc(held, data, n - 1);
      var r, p := OnInputs(k, s, at, data, times, n - 1), Feed(held, data[..n - 1]);
      var b := OnByte(p.held, data[n - 1]);
      FeedKeeps(held, data[..n - 1]);
      UnfinishedKept(p.held, data[n - 1]);
      ByteFrames(p.held, data[n - 1]);
      if b.frames == [] {
        assert p.frames + [] == p.frames;
      } else {
        var f := b.frames[0];
        assert IsFrame(f);
        AcceptedSnoc(k, p.frames, f);
        var next := r.(slots := r.slots[at := r.slots[at].(held := b.held)]);
        NextValid(r, at, b.held);
        FrameOffered(k, next, f, times[n - 1], d);
        Joined(start, Accepted(k, p.frames), [f]);
        Joined(start, Accepted(k, p.frames), []);
      }
    }
  }

  lemma NextValid(s: Router, at: nat, held: seq<u8>)
    requires Valid(s) && at < MAX_ENDPOINTS && s.slots[at].Used? && Unfinished(held)
    ensures Valid(s.(slots := s.slots[at := s.slots[at].(held := held)]))
  {
  }

  /** A frame from an endpoint that is not a vehicle is never offered to a ground station. */
  lemma FrameWithheld(k: Sums, s: Router, source: Direction, f: seq<u8>, now: int, d: nat)
    requires Valid(s) && IsFrame(f) && d < MAX_ENDPOINTS && s.slots[d].Used?
    requires !source.Vehicle? && !s.slots[d].direction.Vehicle?
    ensures OfferedTo(OnFrame(k, s, source, f, now).offers, s.slots[d].id) == OfferedTo(s.offers, s.slots[d].id)
  {
    hide CrcExtra, CrcValid, Priority, OfferedTo, RouteTo, Duplicate;
    var info := Describe(k.accumulate, f);
    OfferedToBoth(s.offers, Route(s.slots, source, f, info.high), s.slots[d].id);
    RoutedOnce(s.slots, MAX_ENDPOINTS, source, f, info.high, d);
    assert OfferedTo(s.offers, s.slots[d].id) + [] == OfferedTo(s.offers, s.slots[d].id);
  }

  lemma {:induction false} InputsWithheld(k: Sums, s: Router, at: nat, data: seq<u8>, times: seq<int>, n: nat, d: nat)
    requires Valid(s) && at < MAX_ENDPOINTS && s.slots[at].Used? && !s.slots[at].direction.Vehicle?
    requires |data| == |times| && n <= |data|
    requires d < MAX_ENDPOINTS && s.slots[d].Used? && !s.slots[d].direction.Vehicle?
    ensures OfferedTo(OnInputs(k, s, at, data, times, n).offers, s.slots[d].id) == OfferedTo(s.offers, s.slots[d].id)
    decreases n
  {
    hide OnByte, OnFrame, OfferedTo, Unfinished, IsFrame;
    if n > 0 {
      InputsWithheld(k, s, at, data, times, n - 1, d);
      var r := OnInputs(k, s, at, data, times, n - 1);
      assert Parsing(r.slots[at]);
      var b := OnByte(r.slots[at].held, data[n - 1]);
      UnfinishedKept(r.slots[at].held, data[n - 1]);
      NextValid(r, at, b.held);
      if b.frames != [] {
        assert IsFrame(b.frames[0]);
        FrameWithheld(k, r.(slots := r.slots[at := r.slots[at].(held := b.held)]), r.slots[at].direction, b.frames[0],
                      times[n - 1], d);
      }
    }
  }

  /** The endpoint keeps its place, and the router stays in MAVLink mode. */
  ghost predicate Leaves(e: Event, id: u8) { e == Unregister(id) || e == SetMode(Transparent) }

  ghost predicate NoneLeaves(events: seq<Event>, id: u8) { forall i :: 0 <= i < |events| ==> !Leaves(events[i], id) }

  lemma PlaceKept(k: Sums, s: Router, e: Event, d: nat)
    requires Valid(s) && Timed(e) && d < MAX_ENDPOINTS && s.slots[d].Used? && e != Unregister(s.slots[d].id)
    ensures
      var slot := Step(k, s, e).slots[d];
      slot.Used? && slot.id == s.slots[d].id && slot.direction == s.slots[d].direction
  {
    hide WatchAll, RouteChunks, Unfinished;
    if e.Unregister? {
      var n := Find(s.slots, e.id);
      assert n < MAX_ENDPOINTS ==> s.slots[n].id == e.id;
    }
  }

  lemma StepOffered(k: Sums, s: Router, e: Event, d: nat)
    requires Valid(s) && Timed(e) && s.mode.Mavlink?
    requires d < MAX_ENDPOINTS && s.slots[d].Used? && s.slots[d].direction.Gcs?
    ensures OfferedTo(Step(k, s, e).offers, s.slots[d].id) ==
            OfferedTo(s.offers, s.slots[d].id) + Accepted(k, VehicleFrames(s, e))
  {
    hide OnInputs, OfferedTo, Feed, Describe, Unfinished, Find;
    var start := OfferedTo(s.offers, s.slots[d].id);
    assert start + [] == start;
    if e.Ingest? {
      var at := Find(s.slots, e.id);
      if at < MAX_ENDPOINTS {
        assert e.data[..|e.data|] == e.data;
        if s.slots[at].direction.Vehicle? {
          InputsOffered(k, s, at, e.data, e.times, |e.data|, d);
        } else {
          InputsWithheld(k, s, at, e.data, e.times, |e.data|, d);
        }
      }
    }
  }

  /** All frames accepted from vehicle endpoints during a run, in the order they were completed. */
  ghost function RunAccepted(k: Sums, s: Router, events: seq<Event>): seq<seq<u8>>
    requires Valid(s) && AllTimed(events)
  {
    if events == [] then []
    else
      var before := events[..|events| - 1];
      RunAccepted(k, s, before) + Accepted(k, VehicleFrames(Run(k, s, before), events[|events| - 1]))
  }

  /** Over any run in MAVLink mode, a ground station that stays registered is offered every accepted vehicle frame
      exactly once, in order, and nothing else, whatever other endpoints come, go and send. */
  lemma {:induction false} OfferedExactlyOnce(k: Sums, s: Router, events: seq<Event>, d: nat)
    requires Valid(s) && AllTimed(events) && s.mode.Mavlink?
    requires d < MAX_ENDPOINTS && s.slots[d].Used? && s.slots[d].direction.Gcs? && NoneLeaves(events, s.slots[d].id)
    ensures
      var r := Run(k, s, events);
      && r.mode.Mavlink? && r.slots[d].Used? && r.slots[d].direction.Gcs? && r.slots[d].id == s.slots[d].id
      && OfferedTo(r.offers, s.slots[d].id) == OfferedTo(s.offers, s.slots[d].id) + RunAccepted(k, s, events)
    decreases |events|
  {
    hide OfferedTo, Accepted, VehicleFrames, OnIngest, OnRegister, OnUnregister;
    var start := OfferedTo(s.offers, s.slots[d].id);
    if events == [] {
      assert start + [] == start;
    } else {
      var before, e := events[..|events| - 1], events[|events| - 1];
      OfferedExactlyOnce(k, s, before, d);
      assert !Leaves(e, s.slots[d].id);
      PlaceKept(k, Run(k, s, before), e, d);
      StepOffered(k, Run(k, s, before), e, d);
      ModeKept(k, Run(k, s, before), e);
      Joined(start, RunAccepted(k, s, before), Accepted(k, VehicleFrames(Run(k, s, before), e)));
    }
  }

  lemma ModeKept(k: Sums, s: Router, e: Event)
    requires Valid(s) && Timed(e)
    ensures Step(k, s, e).mode == if e.SetMode? then e.mode else s.mode
  {
  }

  // ---------- One vehicle's stream, cut into any pieces ----------

  ghost predicate AllFrom(events: seq<Event>, id: u8) {
    forall i :: 0 <= i < |events| ==> events[i].Ingest? && events[i].id == id && Timed(events[i])
  }

  function RunData(events: seq<Event>): seq<u8> {
    if events == [] then []
    else
      var e := events[|events| - 1];
      RunData(events[..|events| - 1]) + if e.Ingest? then e.data else []
  }

  lemma {:induction false} FindAt(slots: seq<Slot>, v: nat)
    requires v < |slots| && slots[v].Used? && DistinctIds(slots)
    ensures Find(slots, slots[v].id) == v
  {
    var n := Find(slots, slots[v].id);
    assert n == v;
  }

  lemma {:induction false} PiecesParsed(k: Sums, s: Router, events: seq<Event>, v: nat)
    requires Valid(s) && s.mode.Mavlink? && v < MAX_ENDPOINTS && s.slots[v].Used? && s.slots[v].direction.Vehicle?
    requires AllTimed(events) && AllFrom(events, s.slots[v].id)
    ensures
      var r := Run(k, s, events);
      var p := Feed(s.slots[v].held, RunData(events));
      && AllFrames(p.frames) && r.mode.Mavlink?
      && r.slots[v].Used? && r.slots[v].id == s.slots[v].id && r.slots[v].direction.Vehicle?
      && r.slots[v].held == p.held && RunAccepted(k, s, events) == Accepted(k, p.frames)
    decreases |events|
  {
    hide Feed, Accepted, Unfinished, OnInputs, Find, Describe;
    var held := s.slots[v].held;
    assert Parsing(s.slots[v]);
    FramesFed(held, RunData(events));
    if events == [] {
      FeedNone(held);
      AcceptedNone(k);
    } else {
      var before, e := events[..|events| - 1], events[|events| - 1];
      PiecesParsed(k, s, before, v);
      var r := Run(k, s, before);
      FindAt(r.slots, v);
      assert e.Ingest? && e.id == r.slots[v].id;
      assert e.data[..|e.data|] == e.data;
      InputsOffered(k, r, v, e.data, e.times, |e.data|, v);
      SplitFeeds(held, RunData(before), e.data);
      AcceptedBoth(k, Feed(held, RunData(before)).frames, VehicleFrames(r, e));
    }
  }

  lemma AcceptedNone(k: Sums)
    ensures Accepted(k, []) == []
  {
  }

  /** A vehicle's frames, with marker-free bytes between them, cut into any reads: each ground station is offered
      exactly those frames that are acceptable, byte for byte and in order. */
  lemma VehicleStreamDelivered(k: Sums, s: Router, events: seq<Event>, v: nat, d: nat,
                               gaps: seq<seq<u8>>, frames: seq<seq<u8>>, last: seq<u8>)
    requires Valid(s) && s.mode.Mavlink? && AllTimed(events)
    requires v < MAX_ENDPOINTS && s.slots[v].Used? && s.slots[v].direction.Vehicle? && s.slots[v].held == []
    requires d < MAX_ENDPOINTS && s.slots[d].Used? && s.slots[d].direction.Gcs?
    requires AllFrom(events, s.slots[v].id)
    requires |gaps| == |frames| && AllGaps(gaps) && AllFrames(frames) && IsGap(last)
    requires RunData(events) == Stream(gaps, frames) + last
    ensures OfferedTo(Run(k, s, events).offers, s.slots[d].id) ==
            OfferedTo(s.offers, s.slots[d].id) + Accepted(k, frames)
  {
    hide Feed, Accepted, OfferedTo, RunAccepted, Run;
    assert NoneLeaves(events, s.slots[d].id);
    OfferedExactlyOnce(k, s, events, d);
    PiecesParsed(k, s, events, v);
    FramesRecovered(gaps, frames, last);
  }

  // ---------- Transparent mode ----------

  function Join(blocks: seq<seq<u8>>): seq<u8> {
    if blocks == [] then [] else Join(blocks[..|blocks| - 1]) + blocks[|blocks| - 1]
  }

  lemma {:induction false} JoinBoth(a: seq<seq<u8>>, b: seq<seq<u8>>)
    ensures Join(a + b) == Join(a) + Join(b)
    decreases |b|
  {
    if b == [] {
      assert a + b == a;
    } else {
      assert (a + b)[..|a + b| - 1] == a + b[..|b| - 1];
      JoinBoth(a, b[..|b| - 1]);
    }
  }

  ghost predicate QueueSafe(blocks: seq<seq<u8>>) {
    forall i :: 0 <= i < |blocks| ==> 0 < |blocks[i]| <= MAX_FRAME_SIZE
  }

  /** The pieces of a block are offered to the endpoints on the other side and make up the block again. */
  lemma {:induction false} ChunksOffered(slots: seq<Slot>, source: Direction, data: seq<u8>, d: nat)
    requires d < |slots| && slots[d].Used? && DistinctIds(slots)
    ensures
      var blocks := OfferedTo(RouteChunks(slots, source, data), slots[d].id);
      QueueSafe(blocks) && Join(blocks) == if Receives(source, slots[d]) then data else []
    decreases |data|
  {
    hide OfferedTo, RouteTo, Join, Opposed;
    if data == [] {
      OfferedNone(slots[d].id);
      JoinNone();
    } else {
      var n := if |data| > MAX_FRAME_SIZE then MAX_FRAME_SIZE else |data|;
      ChunksOffered(slots, source, data[n..], d);
      OfferedToBoth(Route(slots, source, data[..n], false), RouteChunks(slots, source, data[n..]), slots[d].id);
      RoutedOnce(slots, |slots|, source, data[..n], false, d);
      var rest := OfferedTo(RouteChunks(slots, source, data[n..]), slots[d].id);
      if Receives(source, slots[d]) {
        JoinBoth([data[..n]], rest);
        JoinOne(data[..n]);
        assert data == data[..n] + data[n..];
      } else {
        assert [] + rest == rest;
      }
    }
  }

  lemma JoinNone()
    ensures Join([]) == []
  {
  }

  lemma JoinOne(block: seq<u8>)
    ensures Join([block]) == block
  {
    assert [block][..0] == [];
    assert [] + block == block;
  }

  /** In transparent mode every byte of every read passes to the other side exactly once and in order. */
  lemma {:induction false} BytesPassed(k: Sums, s: Router, events: seq<Event>, v: nat, d: nat)
    requires Valid(s) && s.mode.Transparent? && AllTimed(events)
    requires v < MAX_ENDPOINTS && s.slots[v].Used? && d < MAX_ENDPOINTS && s.slots[d].Used?
    requires AllFrom(events, s.slots[v].id) && Opposed(s.slots[v].direction, s.slots[d].direction)
    ensures
      var r := Run(k, s, events);
      && r.mode.Transparent?
      && r.slots[v].Used? && r.slots[v].id == s.slots[v].id && r.slots[v].direction == s.slots[v].direction
      && r.slots[d].Used? && r.slots[d].id == s.slots[d].id && r.slots[d].direction == s.slots[d].direction
      && Join(OfferedTo(r.offers, s.slots[d].id)) == Join(OfferedTo(s.offers, s.slots[d].id)) + RunData(events)
    decreases |events|
  {
    hide OfferedTo, Join, Opposed, WatchAll, RouteChunks, Find, Unfinished;
    var start := Join(OfferedTo(s.offers, s.slots[d].id));
    if events == [] {
      assert start + [] == start;
    } else {
      var before, e := events[..|events| - 1], events[|events| - 1];
      BytesPassed(k, s, before, v, d);
      var r := Run(k, s, before);
      FindAt(r.slots, v);
      assert e.Ingest? && e.id == r.slots[v].id;
      var offers := RouteChunks(r.slots, r.slots[v].direction, e.data);
      ChunksOffered(r.slots, r.slots[v].direction, e.data, d);
      OfferedToBoth(r.offers, offers, s.slots[d].id);
      JoinBoth(OfferedTo(r.offers, s.slots[d].id), OfferedTo(offers, s.slots[d].id));
      Joined(start, RunData(before), e.data);
    }
  }

  // ---------- Duplicates from the network ----------

  /** No two network frames with the same checksum were let through within the window, unless more than a table's
      length of others came between them. */
  ghost predicate SpacedOut(seen: seq<Seen>) {
    forall i, j :: 0 <= i < j < |seen| && j >= DEDUP_ENTRIES && j - i <= DEDUP_ENTRIES && seen[i].crc == seen[j].crc ==>
      seen[j].time - seen[i].time >= DEDUP_WINDOW_US
  }

  lemma SpacedOutMore(seen: seq<Seen>, crc: u32, now: int)
    requires SpacedOut(seen) && |seen| >= DEDUP_ENTRIES && !Duplicate(seen, crc, now)
    ensures SpacedOut(seen + [Seen(crc, now)])
  {
    var more := seen + [Seen(crc, now)];
    forall i, j | 0 <= i < j < |more| && j >= DEDUP_ENTRIES && j - i <= DEDUP_ENTRIES && more[i].crc == more[j].crc
      ensures more[j].time - more[i].time >= DEDUP_WINDOW_US {
      if j < |seen| {
        assert more[i] == seen[i] && more[j] == seen[j];
      } else {
        assert more[i] == seen[i] && more[j] == Seen(crc, now);
      }
    }
  }

  lemma {:induction false} SpacedAfterInputs(k: Sums, s: Router, at: nat, data: seq<u8>, times: seq<int>, n: nat)
    requires Valid(s) && at < MAX_ENDPOINTS && s.slots[at].Used? && |data| == |times| && n <= |data|
    requires SpacedOut(s.seen)
    ensures SpacedOut(OnInputs(k, s, at, data, times, n).seen)
    decreases n
  {
    hide SpacedOut, Duplicate, Route, Describe, Unfinished, OnByte;
    if n > 0 {
      SpacedAfterInputs(k, s, at, data, times, n - 1);
      var r := OnInputs(k, s, at, data, times, n - 1);
      assert Parsing(r.slots[at]);
      UnfinishedKept(r.slots[at].held, data[n - 1]);
      var b := OnByte(r.slots[at].held, data[n - 1]);
      if b.frames != [] && !Duplicate(r.seen, k.crc32(b.frames[0]), times[n - 1]) {
        SpacedOutMore(r.seen, k.crc32(b.frames[0]), times[n - 1]);
      }
    }
  }

  /** Over every run, repeats of a network frame are kept apart. */
  lemma {:induction false} RepeatsSpaced(k: Sums, mode: Mode, events: seq<Event>)
    requires AllTimed(events)
    ensures SpacedOut(Run(k, Init(mode), events).seen)
    decreases |events|
  {
    hide SpacedOut, OnInputs, Init, WatchAll;
    if events == [] {
      SpacedAtInit(mode);
    } else {
      RepeatsSpaced(k, mode, events[..|events| - 1]);
      var s, e := Run(k, Init(mode), events[..|events| - 1]), events[|events| - 1];
      if e.Ingest? && Find(s.slots, e.id) < MAX_ENDPOINTS && s.mode.Mavlink? {
        SpacedAfterInputs(k, s, Find(s.slots, e.id), e.data, e.times, |e.data|);
      }
    }
  }

  lemma SpacedAtInit(mode: Mode)
    ensures SpacedOut(Init(mode).seen)
  {
  }

  /** A frame is taken for a repeat exactly if letting it through would put two equal ones too close together. */
  lemma RepeatExactly(seen: seq<Seen>, crc: u32, now: int)
    requires SpacedOut(seen) && |seen| >= DEDUP_ENTRIES
    ensures Duplicate(seen, crc, now) <==> !SpacedOut(seen + [Seen(crc, now)])
  {
    var more := seen + [Seen(crc, now)];
    if Duplicate(seen, crc, now) {
      var i :| |seen| - DEDUP_ENTRIES <= i < |seen| && seen[i].crc == crc && now - seen[i].time < DEDUP_WINDOW_US;
      assert more[i] == seen[i] && more[|seen|] == Seen(crc, now);
    } else {
      SpacedOutMore(seen, crc, now);
    }
  }

  /** In every reachable state an acceptable network frame reaches each vehicle endpoint once, unless that would bring two
      equal frames closer together than repeats may be; every other frame is withheld. */
  lemma {:induction false} NetworkFrameOffered(k: Sums, mode: Mode, events: seq<Event>, f: seq<u8>, now: int, d: nat)
    requires AllTimed(events) && IsFrame(f) && d < MAX_ENDPOINTS
    requires Run(k, Init(mode), events).slots[d].Used? && Run(k, Init(mode), events).slots[d].direction.Vehicle?
    ensures
      var s := Run(k, Init(mode), events);
      var id := s.slots[d].id;
      |s.seen| >= DEDUP_ENTRIES &&
      var fits := Acceptable(Describe(k.accumulate, f)) && SpacedOut(s.seen + [Seen(k.crc32(f), now)]);
      OfferedTo(OnFrame(k, s, Gcs, f, now).offers, id) == OfferedTo(s.offers, id) + if fits then [f] else []
  {
    hide CrcExtra, CrcValid, Priority, OfferedTo, RouteTo, Duplicate, SpacedOut;
    var s := Run(k, Init(mode), events);
    RepeatsSpaced(k, mode, events);
    RepeatExactly(s.seen, k.crc32(f), now);
    var info := Describe(k.accumulate, f);
    OfferedToBoth(s.offers, Route(s.slots, Gcs, f, info.high), s.slots[d].id);
    RoutedOnce(s.slots, MAX_ENDPOINTS, Gcs, f, info.high, d);
    assert OfferedTo(s.offers, s.slots[d].id) + [] == OfferedTo(s.offers, s.slots[d].id);
  }
}
