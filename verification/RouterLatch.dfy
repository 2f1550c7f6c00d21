/** The armed latch over every run of the router (components/airlink_router/airlink_router.c). */
module RouterLatch {
  import opened Bits
  import opened MavlinkParser
  import opened MavlinkFrame
  import opened MavlinkSender
  import opened RouterModel

  // ---------- The armed latch over whole runs ----------

  /** What an intact heartbeat of a primary autopilot says. */
  datatype Beat = Beat(system: u8, armed: bool)

  /** The frame is the heartbeat that the primary component of such a system builds, with the right checksum: message 0,
      component 1, an autopilot type other than 8, and the armed flag in the highest bit of base mode. */
  ghost predicate Says(k: Sums, f: seq<u8>, b: Beat) {
    exists p: Packet, v: Version, checksum: u16 :: Buildable(p, v) && f == Built(p, v, checksum) && Beating(k, p, v, checksum, b)
  }

  predicate Beating(k: Sums, p: Packet, v: Version, checksum: u16, b: Beat)
    requires Buildable(p, v)
  {
    && Intact(k.accumulate, p, v, checksum)
    && p.messageId == 0 && p.componentId == 1 && |p.payload| >= 9 && p.payload[5] != 8
    && b == Beat(p.systemId, BitsOf(p.payload[6])[0])
  }

  ghost function BeatOf(k: Sums, f: seq<u8>): seq<Beat>
    requires IsFrame(f)
  {
    if exists b :: Says(k, f, b) then
      var b :| Says(k, f, b);
      [b]
    else []
  }

  /** What the parser reports of it. */
  function BeatRead(k: Sums, f: seq<u8>): seq<Beat>
    requires IsFrame(f)
  {
    var info := Describe(k.accumulate, f);
    if info.crcValid && IsAutopilot(info) then [Beat(info.systemId, info.heartbeat.value.armed)] else []
  }

  lemma SaidIsRead(k: Sums, f: seq<u8>, b: Beat)
    requires IsFrame(f) && Says(k, f, b)
    ensures BeatRead(k, f) == [b]
  {
    hide Built, Describe, BitsOf, Intact, Buildable, Priority, Seed;
    var p, v, checksum: u16 :| Buildable(p, v) && f == Built(p, v, checksum) && Beating(k, p, v, checksum, b);
    BuiltDescribed(k.accumulate, p, v, checksum);
  }

  /** The parser reports exactly what was sent. */
  lemma BeatIsRead(k: Sums, f: seq<u8>)
    requires IsFrame(f)
    ensures BeatOf(k, f) == BeatRead(k, f)
  {
    hide Built, Describe, BitsOf, Intact, Buildable, Priority, Seed, Says, BeatRead;
    if b :| Says(k, f, b) {
      SaidIsRead(k, f, BeatOf(k, f)[0]);
    } else {
      ReadIsSaid(k, f);
    }
  }

  lemma ReadIsSaid(k: Sums, f: seq<u8>)
    requires IsFrame(f)
    ensures BeatRead(k, f) == [] || exists b :: Says(k, f, b)
  {
    hide Built, Describe, BitsOf, Intact, Buildable, Priority, Seed;
    var p, v, checksum := FrameBuilt(f);
    BuiltDescribed(k.accumulate, p, v, checksum);
    if BeatRead(k, f) != [] {
      var b := Beat(p.systemId, BitsOf(p.payload[6])[0]);
      assert Beating(k, p, v, checksum, b);
      assert Says(k, f, b);
    }
  }

  ghost function Beats(k: Sums, frames: seq<seq<u8>>): seq<Beat>
    requires AllFrames(frames)
  {
    if frames == [] then []
    else Beats(k, frames[..|frames| - 1]) + BeatOf(k, frames[|frames| - 1])
  }

  /** The i-th heartbeat is the last one of the first system, and it says armed. */
  ghost predicate ArmedBy(beats: seq<Beat>, i: nat) {
    && i < |beats| && beats[i].system == beats[0].system && beats[i].armed
    && forall j :: i < j < |beats| ==> beats[j].system != beats[0].system
  }

  /** The latch is what the heartbeats so far demand, stated without following them one by one. */
  ghost predicate LatchSays(latch: Latch, beats: seq<Beat>) {
    && latch.system == (if beats == [] then None else Some(beats[0].system))
    && (latch.armed <==> exists i: nat :: ArmedBy(beats, i))
  }

  /** The frames completed at a vehicle endpoint by one call, in either routing mode. */
  ghost function VehicleFrames(s: Router, e: Event): (frames: seq<seq<u8>>)
    requires Valid(s)
    ensures AllFrames(frames)
  {
    if !e.Ingest? then []
    else
      var at := Find(s.slots, e.id);
      if at == MAX_ENDPOINTS || !s.slots[at].direction.Vehicle? then []
      else
        assert Parsing(s.slots[at]);
        FramesFed(s.slots[at].held, e.data);
        Feed(s.slots[at].held, e.data).frames
  }

  lemma {:induction false} FramesFed(held: seq<u8>, bytes: seq<u8>)
    requires Unfinished(held)
    ensures AllFrames(Feed(held, bytes).frames)
    decreases |bytes|
  {
    if bytes != [] {
      UnfinishedKept(held, bytes[0]);
      FramesFed(OnByte(held, bytes[0]).held, bytes[1..]);
    }
  }

  /** All heartbeats that reached vehicle endpoints during a run. */
  ghost function RunBeats(k: Sums, s: Router, events: seq<Event>): seq<Beat>
    requires Valid(s) && AllTimed(events)
  {
    if events == [] then []
    else
      var before := events[..|events| - 1];
      RunBeats(k, s, before) + Beats(k, VehicleFrames(Run(k, s, before), events[|events| - 1]))
  }

  lemma LatchStep(k: Sums, latch: Latch, beats: seq<Beat>, f: seq<u8>)
    requires IsFrame(f) && LatchSays(latch, beats)
    ensures
      var info := Describe(k.accumulate, f);
      LatchSays(if Acceptable(info) then Observe(latch, info) else latch, beats + BeatOf(k, f))
  {
    hide CrcExtra, CrcValid, Priority;
    var info := Describe(k.accumulate, f);
    BeatIsRead(k, f);
    hide BeatOf;
    if BeatOf(k, f) == [] {
      assert beats + BeatOf(k, f) == beats;
    } else {
      LatchBeat(latch, beats, info);
    }
  }

  lemma LatchBeat(latch: Latch, beats: seq<Beat>, info: Info)
    requires LatchSays(latch, beats) && IsAutopilot(info)
    ensures LatchSays(Observe(latch, info), beats + [Beat(info.systemId, info.heartbeat.value.armed)])
  {
    var beat := Beat(info.systemId, info.heartbeat.value.armed);
    var more := beats + [beat];
    if more[0].system == beat.system {
      assert more[|beats|] == beat;
      assert beat.armed ==> ArmedBy(more, |beats|);
    } else {
      forall i: nat ensures ArmedBy(more, i) <==> ArmedBy(beats, i) {
        if ArmedBy(more, i) {
          assert forall j :: i < j < |beats| ==> more[j] == beats[j];
        }
      }
    }
  }

  lemma {:induction false} BeatsSnoc(k: Sums, frames: seq<seq<u8>>, f: seq<u8>)
    requires AllFrames(frames) && IsFrame(f)
    ensures Beats(k, frames + [f]) == Beats(k, frames) + BeatOf(k, f)
  {
    assert (frames + [f])[..|frames|] == frames;
  }

  /** One more byte in front of the parser. */
  lemma FeedSnoc(held: seq<u8>, data: seq<u8>, n: nat)
    requires n < |data|
    ensures
      var p := OnByte(Feed(held, data[..n]).held, data[n]);
      Feed(held, data[..n + 1]) == Parsed(p.held, Feed(held, data[..n]).frames + p.frames)
  {
    assert data[..n + 1] == data[..n] + [data[n]];
    SplitFeeds(held, data[..n], [data[n]]);
    OneFed(Feed(held, data[..n]).held, data[n]);
  }

  lemma {:induction false} LatchAfterInputs(k: Sums, s: Router, at: nat, data: seq<u8>, times: seq<int>, n: nat, beats: seq<Beat>)
    requires Valid(s) && at < MAX_ENDPOINTS && s.slots[at].Used? && |data| == |times| && n <= |data|
    requires LatchSays(s.latch, beats)
    ensures
      var r := OnInputs(k, s, at, data, times, n);
      var p := Feed(s.slots[at].held, data[..n]);
      && r.slots[at].held == p.held && AllFrames(p.frames)
      && (s.slots[at].direction.Vehicle? ==> LatchSays(r.latch, beats + Beats(k, p.frames)))
      && (!s.slots[at].direction.Vehicle? ==> r.latch == s.latch)
    decreases n
  {
    hide LatchSays, Observe, Feed, Unfinished, OnByte, Describe, BeatOf, IsFrame, Duplicate, Route;
    var held := s.slots[at].held;
    assert Parsing(s.slots[at]);
    FramesFed(held, data[..n]);
    if n == 0 {
      FeedNone(held);
      assert data[..0] == [];
      assert beats + Beats(k, []) == beats;
    } else {
      LatchAfterInputs(k, s, at, data, times, n - 1, beats);
      FeedSnoc(held, data, n - 1);
      var p, b := Feed(held, data[..n - 1]), OnByte(Feed(held, data[..n - 1]).held, data[n - 1]);
      FeedKeeps(held, data[..n - 1]);
      UnfinishedKept(p.held, data[n - 1]);
      ByteFrames(p.held, data[n - 1]);
      if b.frames == [] {
        assert p.frames + [] == p.frames;
      } else if s.slots[at].direction.Vehicle? {
        var f := b.frames[0];
        assert IsFrame(f);
        BeatsSnoc(k, p.frames, f);
        LatchStep(k, OnInputs(k, s, at, data, times, n - 1).latch, beats + Beats(k, p.frames), f);
        Joined(beats, Beats(k, p.frames), BeatOf(k, f));
      }
    }
  }

  lemma FeedNone(held: seq<u8>)
    ensures Feed(held, []) == Parsed(held, [])
  {
  }

  lemma FeedKeeps(held: seq<u8>, bytes: seq<u8>)
    requires Unfinished(held)
    ensures Unfinished(Feed(held, bytes).held)
  {
    BufferNeverFull(held, bytes);
  }

  lemma ByteFrames(held: seq<u8>, b: u8)
    ensures var p := OnByte(held, b); p.frames == [] || (|p.frames| == 1 && p.frames == [p.frames[0]])
  {
  }

  lemma {:induction false} LatchAfterWatching(k: Sums, held: seq<u8>, latch: Latch, data: seq<u8>, n: nat, beats: seq<Beat>)
    requires Unfinished(held) && n <= |data| && LatchSays(latch, beats)
    ensures
      var p := Feed(held, data[..n]);
      && AllFrames(p.frames) && WatchAll(k, held, latch, data, n).0 == p.held
      && LatchSays(WatchAll(k, held, latch, data, n).1, beats + Beats(k, p.frames))
    decreases n
  {
    hide LatchSays, Observe, Feed, Unfinished, OnByte, Describe, BeatOf, IsFrame, Acceptable;
    FramesFed(held, data[..n]);
    if n == 0 {
      FeedNone(held);
      assert data[..0] == [];
      assert beats + Beats(k, []) == beats;
    } else {
      LatchAfterWatching(k, held, latch, data, n - 1, beats);
      FeedSnoc(held, data, n - 1);
      var p, b := Feed(held, data[..n - 1]), OnByte(Feed(held, data[..n - 1]).held, data[n - 1]);
      FeedKeeps(held, data[..n - 1]);
      UnfinishedKept(p.held, data[n - 1]);
      ByteFrames(p.held, data[n - 1]);
      if b.frames == [] {
        assert p.frames + [] == p.frames;
      } else {
        var f := b.frames[0];
        assert IsFrame(f);
        BeatsSnoc(k, p.frames, f);
        LatchStep(k, WatchAll(k, held, latch, data, n - 1).1, beats + Beats(k, p.frames), f);
        Joined(beats, Beats(k, p.frames), BeatOf(k, f));
      }
    }
  }

  lemma LatchAfterStep(k: Sums, s: Router, e: Event, beats: seq<Beat>)
    requires Valid(s) && Timed(e) && LatchSays(s.latch, beats)
    ensures LatchSays(Step(k, s, e).latch, beats + Beats(k, VehicleFrames(s, e)))
  {
    hide LatchSays, Feed, Describe, Beats, WatchAll, OnInputs, RouteChunks;
    BeatsNone(k);
    assert beats + [] == beats;
    if e.Ingest? {
      var at := Find(s.slots, e.id);
      if at < MAX_ENDPOINTS {
        var slot := s.slots[at];
        assert Parsing(slot);
        assert e.data[..|e.data|] == e.data;
        if s.mode.Mavlink? {
          LatchAfterInputs(k, s, at, e.data, e.times, |e.data|, beats);
        } else if slot.direction.Vehicle? {
          LatchAfterWatching(k, slot.held, s.latch, e.data, |e.data|, beats);
        }
      }
    }
  }

  lemma BeatsNone(k: Sums)
    ensures Beats(k, []) == []
  {
  }

  /** Over every run, in both modes: the latch is the armed flag of the latest intact heartbeat that a primary
      autopilot of the system seen first sent through a vehicle endpoint, as its sender built it. Nothing else enters
      into it: no frame of a ground station or another system, no bad checksum, no removal of an endpoint, no silence. */
  lemma {:induction false} LatchIsLastBeat(k: Sums, mode: Mode, events: seq<Event>)
    requires AllTimed(events)
    ensures LatchSays(Run(k, Init(mode), events).latch, RunBeats(k, Init(mode), events))
    decreases |events|
  {
    hide LatchSays, Step, VehicleFrames, Beats;
    if events == [] {
      LatchSaysNothing();
    } else {
      var before := events[..|events| - 1];
      LatchIsLastBeat(k, mode, before);
      LatchAfterStep(k, Run(k, Init(mode), before), events[|events| - 1], RunBeats(k, Init(mode), before));
    }
  }

  lemma LatchSaysNothing()
    ensures LatchSays(Latch(false, None), [])
  {
  }

  /** A call changes the flag only by bringing a heartbeat of the pinned system to a vehicle endpoint. */
  lemma ChangedOnlyByOwnBeat(k: Sums, mode: Mode, events: seq<Event>, e: Event)
    requires AllTimed(events) && Timed(e)
    ensures
      var s := Run(k, Init(mode), events);
      var r := Step(k, s, e);
      r.latch.armed != s.latch.armed ==>
        exists i :: 0 <= i < |Beats(k, VehicleFrames(s, e))| && Some(Beats(k, VehicleFrames(s, e))[i].system) == r.latch.system
  {
    hide Step, VehicleFrames, Beats;
    var s := Run(k, Init(mode), events);
    var before, beats := RunBeats(k, Init(mode), events), Beats(k, VehicleFrames(s, e));
    LatchIsLastBeat(k, mode, events);
    LatchAfterStep(k, s, e, before);
    if forall i :: 0 <= i < |beats| ==> Some(beats[i].system) != Step(k, s, e).latch.system {
      SameVerdict(s.latch, before, Step(k, s, e).latch, beats);
    }
  }

  lemma SameVerdict(old': Latch, before: seq<Beat>, new': Latch, beats: seq<Beat>)
    requires LatchSays(old', before) && LatchSays(new', before + beats)
    requires forall i :: 0 <= i < |beats| ==> Some(beats[i].system) != new'.system
    ensures old'.armed == new'.armed
  {
    var all := before + beats;
    if beats == [] {
      assert all == before;
    } else {
      assert all[|before|] == beats[0];
      forall i: nat ensures ArmedBy(all, i) <==> ArmedBy(before, i) {
        assert |before| <= i < |all| ==> all[i] == beats[i - |before|];
        if ArmedBy(before, i) {
          forall j | i < j < |all| ensures all[j].system != all[0].system {
            assert j >= |before| ==> all[j] == beats[j - |before|];
          }
        }
        if ArmedBy(all, i) && i < |before| {
          assert forall j :: i < j < |before| ==> all[j] == before[j];
        }
      }
    }
  }
}
