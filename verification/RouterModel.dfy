/** What the router does with what its endpoints receive, as functions on its state
    (components/airlink_router/airlink_router.c). */
module RouterModel {
  import opened Bits
  import opened MavlinkParser
  import opened MavlinkFrame

  const MAX_ENDPOINTS := 16
  const DEDUP_ENTRIES := 32
  const DEDUP_WINDOW_US := 50000

  datatype Direction = Vehicle | Gcs | Internal

  datatype Mode = Mavlink | Transparent

  /** A place in the endpoint table; what its parser holds is a value, as in the source's table of structures. */
  datatype Slot = Free | Used(id: u8, direction: Direction, held: seq<u8>)

  datatype Seen = Seen(crc: u32, time: int)

  /** The armed flag, and the system whose heartbeats may change it. */
  datatype Latch = Latch(armed: bool, system: Option<u8>)

  /** One call of an endpoint's send function. */
  datatype Offer = Offer(to: u8, bytes: seq<u8>, high: bool)

  /** The checksums the router computes; their arithmetic is not modelled. */
  datatype Sums = Sums(accumulate: Accumulate, crc32: seq<u8> -> u32)

  /** `seen` lists every network frame let through, oldest first, after the zeroes of a fresh table; the table
      itself holds the last DEDUP_ENTRIES of them. */
  datatype Router = Router(slots: seq<Slot>, seen: seq<Seen>, latch: Latch, mode: Mode, offers: seq<Offer>)

  ghost predicate DistinctIds(slots: seq<Slot>) {
    forall i, j :: 0 <= i < j < |slots| && slots[i].Used? && slots[j].Used? ==> slots[i].id != slots[j].id
  }

  ghost predicate Parsing(slot: Slot) { slot.Used? ==> Unfinished(slot.held) }

  ghost predicate ValidSlots(slots: seq<Slot>) {
    && |slots| == MAX_ENDPOINTS && DistinctIds(slots)
    && forall i :: 0 <= i < |slots| ==> Parsing(slots[i])
  }

  ghost predicate Valid(s: Router) { ValidSlots(s.slots) && |s.seen| >= DEDUP_ENTRIES }

  /** Position of the endpoint with this ID, or the table's size. */
  function Find(slots: seq<Slot>, id: u8): (n: nat)
    ensures n <= |slots| && (n < |slots| ==> slots[n].Used? && slots[n].id == id)
    ensures forall i :: 0 <= i < n ==> !(slots[i].Used? && slots[i].id == id)
  {
    if slots == [] || (slots[0].Used? && slots[0].id == id) then 0 else 1 + Find(slots[1..], id)
  }

  // ---------- The armed latch ----------

  /** observe_vehicle_frame: only heartbeats of the primary autopilot count, and only of the first system seen. */
  function Observe(latch: Latch, info: Info): Latch {
    if !IsAutopilot(info) then latch
    else
      var system := if latch.system.Some? then latch.system else Some(info.systemId);
      Latch(if system == Some(info.systemId) then info.heartbeat.value.armed else latch.armed, system)
  }

  // ---------- Routing ----------

  predicate Opposed(a: Direction, b: Direction) {
    !a.Internal? && !b.Internal? && a.Vehicle? != b.Vehicle?
  }

  predicate Receives(source: Direction, slot: Slot) { slot.Used? && Opposed(source, slot.direction) }

  /** The offers of one block of bytes to the first n places of the table. */
  function RouteTo(slots: seq<Slot>, n: nat, source: Direction, bytes: seq<u8>, high: bool): seq<Offer>
    requires n <= |slots|
  {
    if n == 0 then []
    else
      RouteTo(slots, n - 1, source, bytes, high)
      + if Receives(source, slots[n - 1]) then [Offer(slots[n - 1].id, bytes, high)] else []
  }

  function Route(slots: seq<Slot>, source: Direction, bytes: seq<u8>, high: bool): seq<Offer> {
    RouteTo(slots, |slots|, source, bytes, high)
  }

  /** The same frame was let through within the window and not more than a table's length ago. */
  predicate Duplicate(seen: seq<Seen>, crc: u32, now: int)
    requires |seen| >= DEDUP_ENTRIES
  {
    exists i :: |seen| - DEDUP_ENTRIES <= i < |seen| && seen[i].crc == crc && now - seen[i].time < DEDUP_WINDOW_US
  }

  /** One complete frame in MAVLink mode. */
  function OnFrame(k: Sums, s: Router, source: Direction, f: seq<u8>, now: int): (r: Router)
    requires IsFrame(f) && |s.seen| >= DEDUP_ENTRIES
    ensures |r.seen| >= DEDUP_ENTRIES && r.slots == s.slots && r.mode == s.mode
  {
    var info := Describe(k.accumulate, f);
    if !Acceptable(info) then s
    else
      var offers := s.offers + Route(s.slots, source, f, info.high);
      if source.Vehicle? then s.(latch := Observe(s.latch, info), offers := offers)
      else if Duplicate(s.seen, k.crc32(f), now) then s
      else s.(seen := s.seen + [Seen(k.crc32(f), now)], offers := offers)
  }

  /** One byte from the endpoint at `at`, in MAVLink mode. */
  function OnInput(k: Sums, s: Router, at: nat, b: u8, now: int): (r: Router)
    requires Valid(s) && at < MAX_ENDPOINTS && s.slots[at].Used?
    ensures Valid(r) && r.mode == s.mode && r.slots == s.slots[at := r.slots[at]]
    ensures r.slots[at].Used? && r.slots[at] == s.slots[at].(held := r.slots[at].held)
  {
    var slot := s.slots[at];
    var p := OnByte(slot.held, b);
    UnfinishedKept(slot.held, b);
    var next := s.(slots := s.slots[at := slot.(held := p.held)]);
    if p.frames == [] then next else OnFrame(k, next, slot.direction, p.frames[0], now)
  }

  /** The first n bytes of one call of ingest, in MAVLink mode. */
  function OnInputs(k: Sums, s: Router, at: nat, data: seq<u8>, times: seq<int>, n: nat): (r: Router)
    requires Valid(s) && at < MAX_ENDPOINTS && s.slots[at].Used? && |data| == |times| && n <= |data|
    ensures Valid(r) && r.mode == s.mode && r.slots == s.slots[at := r.slots[at]]
    ensures r.slots[at].Used? && r.slots[at] == s.slots[at].(held := r.slots[at].held)
  {
    if n == 0 then s else OnInput(k, OnInputs(k, s, at, data, times, n - 1), at, data[n - 1], times[n - 1])
  }

  /** One byte passing by in transparent mode: frames completed at a vehicle endpoint are looked at. */
  function Watch(k: Sums, held: seq<u8>, latch: Latch, b: u8): (r: (seq<u8>, Latch))
    requires Unfinished(held)
    ensures Unfinished(r.0)
  {
    var p := OnByte(held, b);
    UnfinishedKept(held, b);
    if p.frames == [] then (p.held, latch)
    else
      var info := Describe(k.accumulate, p.frames[0]);
      (p.held, if Acceptable(info) then Observe(latch, info) else latch)
  }

  function WatchAll(k: Sums, held: seq<u8>, latch: Latch, data: seq<u8>, n: nat): (r: (seq<u8>, Latch))
    requires Unfinished(held) && n <= |data|
    ensures Unfinished(r.0)
  {
    if n == 0 then (held, latch)
    else
      var r := WatchAll(k, held, latch, data, n - 1);
      Watch(k, r.0, r.1, data[n - 1])
  }

  /** The offers of a block in transparent mode: pieces of at most a frame's length, in order. */
  function RouteChunks(slots: seq<Slot>, source: Direction, data: seq<u8>): seq<Offer>
    decreases |data|
  {
    if data == [] then []
    else
      var n := if |data| > MAX_FRAME_SIZE then MAX_FRAME_SIZE else |data|;
      Route(slots, source, data[..n], false) + RouteChunks(slots, source, data[n..])
  }

  // ---------- Whole calls ----------

  /** A call of the router. An ingest comes with the clock at each byte. */
  datatype Event =
    | Register(id: u8, direction: Direction)
    | Unregister(id: u8)
    | SetMode(mode: Mode)
    | Ingest(id: u8, data: seq<u8>, times: seq<int>)

  predicate Timed(e: Event) { e.Ingest? ==> |e.data| == |e.times| }

  function FirstFree(slots: seq<Slot>): (n: nat)
    ensures n <= |slots| && (n < |slots| ==> slots[n].Free?)
    ensures forall i :: 0 <= i < n ==> slots[i].Used?
  {
    if slots == [] || slots[0].Free? then 0 else 1 + FirstFree(slots[1..])
  }

  function Reset(slots: seq<Slot>): (r: seq<Slot>)
    ensures |r| == |slots|
    ensures forall i :: 0 <= i < |slots| ==> r[i] == if slots[i].Used? then slots[i].(held := []) else Free
  {
    if slots == [] then []
    else [if slots[0].Used? then slots[0].(held := []) else Free] + Reset(slots[1..])
  }

  function OnRegister(s: Router, id: u8, direction: Direction): (r: Router)
    requires Valid(s)
    ensures Valid(r)
  {
    var n := FirstFree(s.slots);
    if Find(s.slots, id) < MAX_ENDPOINTS || n == MAX_ENDPOINTS then s
    else s.(slots := s.slots[n := Used(id, direction, [])])
  }

  function OnUnregister(s: Router, id: u8): (r: Router)
    requires Valid(s)
    ensures Valid(r)
  {
    var n := Find(s.slots, id);
    if n == MAX_ENDPOINTS then s else s.(slots := s.slots[n := Free])
  }

  function OnTransparent(k: Sums, s: Router, at: nat, data: seq<u8>): (r: Router)
    requires Valid(s) && at < MAX_ENDPOINTS && s.slots[at].Used?
    ensures Valid(r) && r.mode == s.mode && r.slots == s.slots[at := r.slots[at]]
    ensures r.slots[at].Used? && r.slots[at] == s.slots[at].(held := r.slots[at].held)
  {
    var slot := s.slots[at];
    var offers := s.offers + RouteChunks(s.slots, slot.direction, data);
    if !slot.direction.Vehicle? then s.(offers := offers)
    else
      assert Parsing(slot);
      var w := WatchAll(k, slot.held, s.latch, data, |data|);
      s.(slots := s.slots[at := slot.(held := w.0)], latch := w.1, offers := offers)
  }

  function OnIngest(k: Sums, s: Router, id: u8, data: seq<u8>, times: seq<int>): (r: Router)
    requires Valid(s) && |data| == |times|
    ensures Valid(r) && r.mode == s.mode
  {
    var at := Find(s.slots, id);
    if at == MAX_ENDPOINTS then s
    else if s.mode.Transparent? then OnTransparent(k, s, at, data)
    else OnInputs(k, s, at, data, times, |data|)
  }

  function Step(k: Sums, s: Router, e: Event): (r: Router)
    requires Valid(s) && Timed(e)
    ensures Valid(r)
  {
    match e
    case Register(id, direction) => OnRegister(s, id, direction)
    case Unregister(id) => OnUnregister(s, id)
    case SetMode(mode) => s.(mode := mode, slots := Reset(s.slots))
    case Ingest(id, data, times) => OnIngest(k, s, id, data, times)
  }

  ghost predicate AllTimed(events: seq<Event>) { forall i :: 0 <= i < |events| ==> Timed(events[i]) }

  function Run(k: Sums, s: Router, events: seq<Event>): (r: Router)
    requires Valid(s) && AllTimed(events)
    ensures Valid(r)
  {
    if events == [] then s
    else Step(k, Run(k, s, events[..|events| - 1]), events[|events| - 1])
  }

  function Blank(n: nat): (s: seq<Seen>)
    ensures |s| == n && forall i :: 0 <= i < n ==> s[i] == Seen(0, 0)
  {
    if n == 0 then [] else [Seen(0, 0)] + Blank(n - 1)
  }

  function NoSlots(n: nat): (s: seq<Slot>)
    ensures |s| == n && forall i :: 0 <= i < n ==> s[i] == Free
  {
    if n == 0 then [] else [Free] + NoSlots(n - 1)
  }

  /** airlink_router_init. */
  function Init(mode: Mode): (s: Router)
    ensures Valid(s)
  {
    Router(NoSlots(MAX_ENDPOINTS), Blank(DEDUP_ENTRIES), Latch(false, None), mode, [])
  }
}
