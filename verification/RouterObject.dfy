/** The router itself (components/airlink_router/airlink_router.c): its tables are changed in place, and every call
    does what the functions of RouterModel say. The mutex makes calls happen one after the other. */
module RouterObject {
  import opened Bits
  import opened MavlinkParser
  import opened MavlinkFrame
  import opened RouterModel

  datatype Outcome = Okay | InvalidArgument | InvalidState | NoMemory | NotFound

  lemma {:induction false} FoundAt(slots: seq<Slot>, id: u8, n: nat)
    requires n <= |slots| && (n < |slots| ==> slots[n].Used? && slots[n].id == id)
    requires forall i :: 0 <= i < n ==> !(slots[i].Used? && slots[i].id == id)
    ensures Find(slots, id) == n
  {
  }

  lemma {:induction false} FreeAt(slots: seq<Slot>, n: nat)
    requires n <= |slots| && (n < |slots| ==> slots[n].Free?)
    requires forall i :: 0 <= i < n ==> slots[i].Used?
    ensures FirstFree(slots) == n
  {
  }

  lemma ResetIs(slots: seq<Slot>, r: seq<Slot>)
    requires |r| == |slots|
    requires forall i :: 0 <= i < |slots| ==> r[i] == if slots[i].Used? then slots[i].(held := []) else Free
    ensures r == Reset(slots)
  {
  }

  /** Writing at the cursor and moving it on replaces the oldest entry by the newest. */
  lemma RingAdvances(ring: seq<Seen>, c: nat, seen: seq<Seen>, e: Seen)
    requires |ring| == DEDUP_ENTRIES && c < DEDUP_ENTRIES && |seen| >= DEDUP_ENTRIES
    requires ring[c..] + ring[..c] == seen[|seen| - DEDUP_ENTRIES..]
    ensures
      var next, at := ring[c := e], (c + 1) % DEDUP_ENTRIES;
      next[at..] + next[..at] == (seen + [e])[|seen + [e]| - DEDUP_ENTRIES..]
  {
    var next := ring[c := e];
    assert (seen + [e])[|seen| + 1 - DEDUP_ENTRIES..] == (ring[c..] + ring[..c])[1..] + [e];
    if c + 1 < DEDUP_ENTRIES {
      assert next[c + 1..] + next[..c + 1] == (ring[c..] + ring[..c])[1..] + [e];
    } else {
      assert next[0..] + next[..0] == (ring[c..] + ring[..c])[1..] + [e];
    }
  }

  class Router {
    const slots: array<Slot>
    const dedup: array<Seen>
    var cursor: nat
    var armed: bool
    var identityKnown: bool
    var systemId: u8
    var mode: Mode
    /** Every call of a send function so far. */
    var offers: seq<Offer>
    /** Every entry ever put into the ring, oldest first. */
    ghost var seen: seq<Seen>

    /** The ring holds the latest entries, the oldest of them at the cursor. */
    ghost predicate RingHolds()
      reads this`cursor, this`seen, dedup
    {
      && dedup.Length == DEDUP_ENTRIES && cursor < DEDUP_ENTRIES && |seen| >= DEDUP_ENTRIES
      && dedup[cursor..] + dedup[..cursor] == seen[|seen| - DEDUP_ENTRIES..]
    }

    ghost predicate Consistent()
      reads this, slots, dedup
    {
      slots.Length == MAX_ENDPOINTS && RingHolds() && ValidSlots(slots[..])
    }

    ghost function LatchNow(): Latch
      reads this
    {
      Latch(armed, if identityKnown then Some(systemId) else None)
    }

    ghost function State(): (s: RouterModel.Router)
      requires Consistent()
      reads this, slots, dedup
      ensures Valid(s)
    {
      RouterModel.Router(slots[..], seen, LatchNow(), mode, offers)
    }

    constructor (mode: Mode)
      ensures Consistent() && fresh(slots) && fresh(dedup) && State() == Init(mode)
    {
      slots := new Slot[MAX_ENDPOINTS](_ => Free);
      dedup := new Seen[DEDUP_ENTRIES](_ => Seen(0, 0));
      cursor, armed, identityKnown, systemId := 0, false, false, 0;
      this.mode, offers := mode, [];
      seen := Blank(DEDUP_ENTRIES);
      new;
      assert slots[..] == NoSlots(MAX_ENDPOINTS);
    }

    method FindEndpoint(id: u8) returns (n: nat)
      ensures n == Find(slots[..], id)
    {
      n := 0;
      while n < slots.Length
        invariant n <= slots.Length
        invariant forall i :: 0 <= i < n ==> !(slots[i].Used? && slots[i].id == id)
      {
        if slots[n].Used? && slots[n].id == id {
          break;
        }
        n := n + 1;
      }
      FoundAt(slots[..], id, n);
    }

    /** airlink_router_register. */
    method Register(id: u8, direction: Direction) returns (outcome: Outcome)
      requires Consistent()
      modifies slots
      ensures Consistent() && State() == OnRegister(old(State()), id, direction)
      ensures outcome == (if Find(old(slots[..]), id) < MAX_ENDPOINTS then InvalidState
                          else if FirstFree(old(slots[..])) < MAX_ENDPOINTS then Okay else NoMemory)
    {
      hide Find, FirstFree;
      var present := FindEndpoint(id);
      if present < slots.Length {
        return InvalidState;
      }
      for i := 0 to slots.Length
        invariant forall j :: 0 <= j < i ==> slots[j].Used?
      {
        if slots[i].Free? {
          FreeAt(slots[..], i);
          slots[i] := Used(id, direction, []);
          assert slots[..] == old(slots[..])[i := Used(id, direction, [])];
          assert Valid(OnRegister(old(State()), id, direction));
          return Okay;
        }
      }
      FreeAt(slots[..], slots.Length);
      return NoMemory;
    }

    /** airlink_router_unregister. */
    method Unregister(id: u8)
      requires Consistent()
      modifies slots
      ensures Consistent() && State() == OnUnregister(old(State()), id)
    {
      hide Find;
      var n := FindEndpoint(id);
      if n < slots.Length {
        slots[n] := Free;
        assert slots[..] == old(slots[..])[n := Free];
        assert Valid(OnUnregister(old(State()), id));
      }
    }

    /** airlink_router_set_mode: every parser starts afresh. */
    method SetModeTo(newMode: Mode)
      requires Consistent()
      modifies this`mode, slots
      ensures Consistent()
      ensures State() == old(State()).(mode := newMode, slots := Reset(old(State()).slots))
    {
      mode := newMode;
      forall i | 0 <= i < slots.Length {
        slots[i] := if slots[i].Used? then slots[i].(held := []) else Free;
      }
      ResetIs(old(slots[..]), slots[..]);
    }

    /** duplicate_network_frame. */
    method DuplicateNetworkFrame(crc: u32, now: int) returns (duplicate: bool)
      requires Consistent()
      modifies this`cursor, this`seen, dedup
      ensures Consistent() && duplicate == Duplicate(old(seen), crc, now)
      ensures seen == if duplicate then old(seen) else old(seen) + [Seen(crc, now)]
    {
      hide ValidSlots;
      ghost var ring := dedup[..];
      var i := 0;
      while i < dedup.Length
        invariant i <= dedup.Length
        invariant forall j :: 0 <= j < i ==> !(dedup[j].crc == crc && now - dedup[j].time < DEDUP_WINDOW_US)
      {
        if dedup[i].crc == crc && now - dedup[i].time < DEDUP_WINDOW_US {
          InLatest(i);
          return true;
        }
        i := i + 1;
      }
      NotInLatest(crc, now);
      dedup[cursor] := Seen(crc, now);
      cursor := (cursor + 1) % DEDUP_ENTRIES;
      seen := seen + [Seen(crc, now)];
      assert dedup[..] == ring[old(cursor) := Seen(crc, now)];
      RingAdvances(ring, old(cursor), old(seen), Seen(crc, now));
      return false;
    }

    lemma InLatest(i: nat)
      requires RingHolds() && i < DEDUP_ENTRIES
      ensures exists j :: |seen| - DEDUP_ENTRIES <= j < |seen| && seen[j] == dedup[i]
    {
      var at := if i >= cursor then i - cursor else DEDUP_ENTRIES - cursor + i;
      assert (dedup[cursor..] + dedup[..cursor])[at] == dedup[i];
      assert seen[|seen| - DEDUP_ENTRIES + at] == dedup[i];
    }

    lemma NotInLatest(crc: u32, now: int)
      requires RingHolds()
      requires forall j :: 0 <= j < DEDUP_ENTRIES ==> !(dedup[j].crc == crc && now - dedup[j].time < DEDUP_WINDOW_US)
      ensures !Duplicate(seen, crc, now)
    {
      forall j | |seen| - DEDUP_ENTRIES <= j < |seen|
        ensures !(seen[j].crc == crc && now - seen[j].time < DEDUP_WINDOW_US) {
        var at := j - (|seen| - DEDUP_ENTRIES);
        assert seen[j] == (dedup[cursor..] + dedup[..cursor])[at];
        var i := if at < DEDUP_ENTRIES - cursor then cursor + at else at - (DEDUP_ENTRIES - cursor);
        assert seen[j] == dedup[i];
      }
    }

    /** observe_vehicle_frame, for a frame of a vehicle endpoint. */
    method ObserveVehicleFrame(info: Info)
      modifies this`armed, this`identityKnown, this`systemId
      ensures LatchNow() == Observe(old(LatchNow()), info)
    {
      if !IsAutopilot(info) {
        return;
      }
      if !identityKnown {
        identityKnown, systemId := true, info.systemId;
      }
      if info.systemId == systemId {
        armed := info.heartbeat.value.armed;
      }
    }

    /** route: one send call for each endpoint on the other side, in table order. */
    method RouteFrom(source: nat, bytes: seq<u8>, high: bool)
      requires source < slots.Length && slots[source].Used?
      modifies this`offers
      ensures offers == old(offers) + Route(slots[..], slots[source].direction, bytes, high)
    {
      var from := slots[source].direction;
      for i := 0 to slots.Length
        invariant offers == old(offers) + RouteTo(slots[..], i, from, bytes, high)
      {
        ghost var before := offers;
        // The source itself is never opposite to itself.
        if slots[i].Used? && i != source && !from.Internal? && !slots[i].direction.Internal?
           && from.Vehicle? != slots[i].direction.Vehicle? {
          offers := offers + [Offer(slots[i].id, bytes, high)];
        }
        assert offers == before + if Receives(from, slots[..][i]) then [Offer(slots[i].id, bytes, high)] else [];
      }
    }

    /** One complete frame in MAVLink mode. */
    method HandleFrame(k: Sums, at: nat, f: seq<u8>, now: int)
      requires Consistent() && at < MAX_ENDPOINTS && slots[at].Used? && IsFrame(f)
      modifies this, dedup
      ensures Consistent() && mode == old(mode)
      ensures State() == OnFrame(k, old(State()), old(slots[at]).direction, f, now)
    {
      hide Describe, Duplicate, Route, Observe, RingHolds;
      var info := Describe(k.accumulate, f);
      if !Acceptable(info) {
        return;
      }
      if slots[at].direction.Vehicle? {
        ObserveVehicleFrame(info);
      } else {
        var duplicate := DuplicateNetworkFrame(k.crc32(f), now);
        if duplicate {
          return;
        }
      }
      RouteFrom(at, f, info.high);
    }

    /** The bytes of a transparent read pass the safety observer. */
    method ObserveVehicleSafety(k: Sums, at: nat, data: seq<u8>)
      requires Consistent() && at < MAX_ENDPOINTS && slots[at].Used? && slots[at].direction.Vehicle?
      modifies this`armed, this`identityKnown, this`systemId, slots
      ensures Consistent() && slots[at].Used?
      ensures slots[..] == old(slots[..])[at := old(slots[at]).(held := slots[at].held)]
      ensures Unfinished(old(slots[at]).held)
      ensures (slots[at].held, LatchNow()) == WatchAll(k, old(slots[at]).held, old(LatchNow()), data, |data|)
    {
      hide OnByte, Describe, Observe, RingHolds, Unfinished;
      ghost var held, latch := slots[at].held, LatchNow();
      assert Parsing(slots[..][at]);
      for i := 0 to |data|
        invariant Consistent() && slots[at].Used? && Unfinished(slots[at].held)
        invariant slots[..] == old(slots[..])[at := old(slots[at]).(held := slots[at].held)]
        invariant (slots[at].held, LatchNow()) == WatchAll(k, held, latch, data, i)
      {
        var p := OnByte(slots[at].held, data[i]);
        UnfinishedKept(slots[at].held, data[i]);
        KeepsSlots(slots[..], at, p.held);
        slots[at] := slots[at].(held := p.held);
        if p.frames != [] {
          assert IsFrame(p.frames[0]);
          var info := Describe(k.accumulate, p.frames[0]);
          if Acceptable(info) {
            ObserveVehicleFrame(info);
          }
        }
      }
    }

    /** airlink_router_ingest: one read of an endpoint, with the clock at each of its bytes. */
    method Ingest(k: Sums, id: u8, data: seq<u8>, times: seq<int>) returns (outcome: Outcome)
      requires Consistent() && |data| == |times|
      modifies this, slots, dedup
      ensures Consistent()
      ensures State() == if data == [] then old(State()) else OnIngest(k, old(State()), id, data, times)
      ensures outcome == (if data == [] then InvalidArgument
                          else if Find(old(slots[..]), id) < MAX_ENDPOINTS then Okay else NotFound)
    {
      hide Find, OnFrame, Describe, Unfinished, RingHolds, RouteTo, OnByte;
      if data == [] {
        return InvalidArgument;
      }
      var at := FindEndpoint(id);
      if at == slots.Length {
        return NotFound;
      }
      outcome := Okay;
      if mode.Transparent? {
        IngestTransparent(k, at, data);
        return;
      }
      ghost var start := State();
      for i := 0 to |data|
        invariant Consistent() && State() == OnInputs(k, start, at, data, times, i)
      {
        ghost var before := State();
        var slot := slots[at];
        assert Parsing(slots[..][at]);
        var p := OnByte(slot.held, data[i]);
        UnfinishedKept(slot.held, data[i]);
        KeepsSlots(slots[..], at, p.held);
        slots[at] := slot.(held := p.held);
        assert slots[..] == before.slots[at := slot.(held := p.held)];
        if p.frames != [] {
          assert IsFrame(p.frames[0]);
          HandleFrame(k, at, p.frames[0], times[i]);
        }
        assert State() == OnInput(k, before, at, data[i], times[i]);
      }
    }

    /** The transparent branch of airlink_router_ingest: watch, then pass everything on in queue-sized pieces. */
    method IngestTransparent(k: Sums, at: nat, data: seq<u8>)
      requires Consistent() && at < MAX_ENDPOINTS && slots[at].Used?
      modifies this`armed, this`identityKnown, this`systemId, this`offers, slots
      ensures Consistent() && State() == OnTransparent(k, old(State()), at, data)
    {
      hide Unfinished, RingHolds, WatchAll, Route, ValidSlots;
      ghost var start := State();
      if slots[at].direction.Vehicle? {
        ObserveVehicleSafety(k, at, data);
      }
      ghost var watched, latch := slots[..], LatchNow();
      ghost var all := RouteChunks(watched, slots[at].direction, data);
      RoutedAlike(start.slots, watched, at, slots[at].direction, data);
      var offset := 0;
      assert data[0..] == data;
      assert offers + all == start.offers + all;
      while offset < |data|
        invariant offset <= |data| && Consistent() && slots[..] == watched && LatchNow() == latch
        invariant offers + RouteChunks(watched, slots[at].direction, data[offset..]) == start.offers + all
      {
        var chunk := if |data| - offset > MAX_FRAME_SIZE then MAX_FRAME_SIZE else |data| - offset;
        ghost var rest, before := data[offset..], offers;
        assert rest[..chunk] == data[offset..offset + chunk] && rest[chunk..] == data[offset + chunk..];
        RouteFrom(at, data[offset..offset + chunk], false);
        Joined(before, Route(watched, slots[at].direction, rest[..chunk], false),
               RouteChunks(watched, slots[at].direction, rest[chunk..]));
        offset := offset + chunk;
      }
      assert data[offset..] == [] && offers + [] == offers;
    }
  }

  lemma KeepsSlots(slots: seq<Slot>, at: nat, held: seq<u8>)
    requires ValidSlots(slots) && at < |slots| && slots[at].Used? && Unfinished(held)
    ensures ValidSlots(slots[at := slots[at].(held := held)])
  {
  }

  /** What an endpoint's parser holds does not matter for routing. */
  lemma {:induction false} RoutedAlike(a: seq<Slot>, b: seq<Slot>, at: nat, source: Direction, data: seq<u8>)
    requires at < |a| && a[at].Used? && |b| == |a| && b[at].Used? && b == a[at := a[at].(held := b[at].held)]
    ensures RouteChunks(a, source, data) == RouteChunks(b, source, data)
    decreases |data|
  {
    hide RouteTo;
    if data != [] {
      var n := if |data| > MAX_FRAME_SIZE then MAX_FRAME_SIZE else |data|;
      RoutedAlike(a, b, at, source, data[n..]);
      OneRoutedAlike(a, b, at, |a|, source, data[..n]);
    }
  }

  lemma {:induction false} OneRoutedAlike(a: seq<Slot>, b: seq<Slot>, at: nat, n: nat, source: Direction, bytes: seq<u8>)
    requires at < |a| && a[at].Used? && |b| == |a| && b[at].Used? && b == a[at := a[at].(held := b[at].held)]
    requires n <= |a|
    ensures RouteTo(a, n, source, bytes, false) == RouteTo(b, n, source, bytes, false)
    decreases n
  {
    if n > 0 {
      OneRoutedAlike(a, b, at, n - 1, source, bytes);
    }
  }
}
