/** Replay protection of the mesh (components/airlink_mesh/airlink_mesh_codec.c): a 64-packet window over the
    current session and a ring of the last three sessions before it. */
module ReplayWindow {
  import opened Bits

  type SourceId = nat
  type SessionId = nat

  const WINDOW := 64
  const RETIRED := 3

  datatype Header = Header(source: SourceId, session: SessionId, sequence: u64)

  // ---------- The unbounded picture ----------

  /** All that was accepted in the current session, and every session before it, oldest first. */
  datatype Tracker =
    | Idle
    | Following(source: SourceId, past: seq<SessionId>, current: SessionId, accepted: set<nat>, highest: nat)

  datatype Verdict = Verdict(tracker: Tracker, ok: bool)

  function Recent(past: seq<SessionId>): seq<SessionId> {
    if |past| <= RETIRED then past else past[|past| - RETIRED..]
  }

  function Started(h: Header, past: seq<SessionId>): Tracker {
    Following(h.source, past, h.session, {h.sequence}, h.sequence)
  }

  /** A new session is taken unless it is one of the last three; in the current session every sequence number
      is taken once, if it is less than 64 below the highest. */
  function Offer(t: Tracker, h: Header): Verdict {
    if t.Idle? || t.source != h.source then Verdict(Started(h, []), true)
    else if h.session != t.current then
      if h.session in Recent(t.past) then Verdict(t, false)
      else Verdict(Started(h, t.past + [t.current]), true)
    else if h.sequence !in t.accepted && h.sequence + WINDOW > t.highest then
      Verdict(t.(accepted := t.accepted + {h.sequence}, highest := if h.sequence > t.highest then h.sequence else t.highest), true)
    else Verdict(t, false)
  }

  /** The bit of distance d stands for the sequence number d below the highest. */
  ghost predicate Tracks(seen: seq<bool>, highest: nat, accepted: set<nat>) {
    && |seen| == WINDOW
    && (forall q :: q in accepted ==> q <= highest)
    && (forall d :: 0 <= d < WINDOW ==> (seen[d] <==> d <= highest && highest - d in accepted))
  }

  /** A ring of three slots holds the last sessions of `past`. */
  ghost predicate Rings(retired: seq<SessionId>, count: nat, next: nat, past: seq<SessionId>) {
    && |retired| == RETIRED && count == |Recent(past)| && next == |past| % RETIRED
    && (forall j :: |past| - count <= j < |past| ==> retired[j % RETIRED] == past[j])
  }

  lemma RingMember(retired: seq<SessionId>, count: nat, next: nat, past: seq<SessionId>, s: SessionId)
    requires Rings(retired, count, next, past)
    ensures s in retired[..count] <==> s in Recent(past)
  {
    hide Rings, Recent;
    RingSize(retired, count, next, past);
    if s in retired[..count] {
      var i :| 0 <= i < count && retired[..count][i] == s;
      SlotRecent(retired, count, next, past, i);
    }
    if s in Recent(past) {
      var i :| 0 <= i < count && Recent(past)[i] == s;
      RecentSlot(retired, count, next, past, i);
    }
  }

  lemma RingSize(retired: seq<SessionId>, count: nat, next: nat, past: seq<SessionId>)
    requires Rings(retired, count, next, past)
    ensures count == |Recent(past)| <= RETIRED == |retired|
  {
  }

  lemma SlotRecent(retired: seq<SessionId>, count: nat, next: nat, past: seq<SessionId>, i: nat)
    requires Rings(retired, count, next, past) && i < count
    ensures retired[i] in Recent(past)
  {
    var base := |past| - count;
    var j := Slot(base, count, i);
    assert Recent(past)[j - base] == past[j];
  }

  lemma RecentSlot(retired: seq<SessionId>, count: nat, next: nat, past: seq<SessionId>, i: nat)
    requires Rings(retired, count, next, past) && i < count
    ensures Recent(past)[i] in retired[..count]
  {
    var base := |past| - count;
    var k := SlotOf(base, count, base + i);
    assert Recent(past)[i] == past[base + i] && retired[..count][k] == retired[k];
  }

  /** The entry that slot i holds. */
  lemma Slot(base: nat, count: nat, i: nat) returns (j: nat)
    requires i < count <= RETIRED && (count < RETIRED ==> base == 0)
    ensures base <= j < base + count && j % RETIRED == i
  {
    j := if base % 3 <= i then base - base % 3 + i else base - base % 3 + 3 + i;
  }

  lemma SlotOf(base: nat, count: nat, j: nat) returns (k: nat)
    requires base <= j < base + count && count <= RETIRED && (count < RETIRED ==> base == 0)
    ensures k == j % RETIRED < count
  {
    k := j % RETIRED;
  }

  lemma RingsNothing(retired: seq<SessionId>)
    requires |retired| == RETIRED
    ensures Rings(retired, 0, 0, [])
  {
  }

  lemma RingGrows(retired: seq<SessionId>, count: nat, next: nat, past: seq<SessionId>, s: SessionId)
    requires Rings(retired, count, next, past)
    ensures Rings(retired[next := s], if count < RETIRED then count + 1 else count, (next + 1) % RETIRED, past + [s])
  {
    var past' := past + [s];
    var count' := if count < RETIRED then count + 1 else count;
    forall j | |past'| - count' <= j < |past'| ensures retired[next := s][j % RETIRED] == past'[j] {
      if j < |past| {
        OtherSlot(j, |past|);
      }
    }
  }

  lemma OtherSlot(j: nat, n: nat)
    requires j < n < j + 3
    ensures j % 3 != n % 3
  {
    assert n == j + 1 || n == j + 2;
  }

  // ---------- The window itself ----------

  function ShiftIn(seen: seq<bool>, distance: nat): (s: seq<bool>)
    requires |seen| == WINDOW
    ensures |s| == WINDOW
  {
    if distance >= WINDOW then First()
    else seq(WINDOW, d requires 0 <= d < WINDOW => d == 0 || (d >= distance && seen[d - distance]))
  }

  function First(): (s: seq<bool>)
    ensures |s| == WINDOW
  {
    seq(WINDOW, d => d == 0)
  }

  class Window {
    var initialized: bool
    var source: SourceId
    var session: SessionId
    var highest: u64
    var seen: seq<bool>
    const retired: array<SessionId>
    var retiredCount: nat
    var retiredNext: nat
    ghost var tracker: Tracker

    ghost predicate Valid()
      reads this, retired
    {
      && |seen| == WINDOW && retired.Length == RETIRED
      && (initialized <==> tracker.Following?)
      && (!initialized ==> retiredCount == retiredNext == 0)
      && (initialized ==>
            tracker.source == source && tracker.current == session && tracker.highest == highest &&
            Tracks(seen, highest, tracker.accepted) && Rings(retired[..], retiredCount, retiredNext, tracker.past))
    }

    constructor ()
      ensures Valid() && fresh(retired) && tracker == Idle
    {
      initialized, source, session, highest := false, 0, 0, 0;
      seen := seq(WINDOW, d => false);
      retired := new SessionId[RETIRED](i => 0);
      retiredCount, retiredNext := 0, 0;
      tracker := Idle;
    }

    /** replay_accept */
    method Accept(h: Header) returns (ok: bool)
      requires Valid()
      modifies this, retired
      ensures Valid()
      ensures Verdict(tracker, ok) == Offer(old(tracker), h)
    {
      hide Tracks, Rings;
      var newSender := !initialized || source != h.source;
      if newSender {
        Clear();
      }
      var newSession := !initialized || session != h.session;
      if newSession {
        var known := IsRetired(h.session);
        if known {
          return false;
        }
        if initialized {
          Retire();
        }
        NewlyTracked(h.sequence);
        RingsNothing(retired[..]);
        initialized, source, session, highest, seen := true, h.source, h.session, h.sequence, First();
        tracker := Offer(old(tracker), h).tracker;
        return true;
      }
      AcceptedBelow(seen, highest, tracker.accepted, h.sequence);
      if h.sequence > highest {
        Advanced(seen, highest, tracker.accepted, h.sequence);
        seen := ShiftIn(seen, h.sequence - highest);
        highest := h.sequence;
        tracker := Offer(tracker, h).tracker;
        return true;
      }
      var distance := highest - h.sequence;
      if distance >= WINDOW || seen[distance] {
        return false;
      }
      Marked(seen, highest, tracker.accepted, h.sequence);
      seen := seen[distance := true];
      tracker := Offer(tracker, h).tracker;
      return true;
    }

    /** *window = (airlink_mesh_replay_window_t){0} */
    method Clear()
      requires Valid()
      modifies this, retired
      ensures Valid() && !initialized && tracker == Idle
    {
      initialized, source, session, highest := false, 0, 0, 0;
      seen := seq(WINDOW, d => false);
      forall i | 0 <= i < retired.Length {
        retired[i] := 0;
      }
      retiredCount, retiredNext := 0, 0;
      tracker := Idle;
    }

    method IsRetired(s: SessionId) returns (known: bool)
      requires Valid()
      ensures known == (initialized && s in Recent(tracker.past))
    {
      if initialized {
        RingMember(retired[..], retiredCount, retiredNext, tracker.past, s);
      }
      for i := 0 to retiredCount
        invariant s !in retired[..i]
      {
        if retired[i] == s {
          return true;
        }
      }
      return false;
    }

    /** The current session becomes the youngest retired one. */
    method Retire()
      requires Valid() && initialized
      modifies this, retired
      ensures unchanged(`initialized, `source, `session, `highest, `seen, `tracker) && retired.Length == RETIRED
      ensures Rings(retired[..], retiredCount, retiredNext, tracker.past + [tracker.current])
    {
      RingGrows(retired[..], retiredCount, retiredNext, tracker.past, session);
      ghost var before := retired[..];
      retired[retiredNext] := session;
      assert retired[..] == before[retiredNext := session];
      if retiredCount < 3 {
        retiredCount := retiredCount + 1;
      }
      retiredNext := (retiredNext + 1) % 3;
    }
  }

  lemma NewlyTracked(q: nat)
    ensures Tracks(First(), q, {q})
  {
  }

  lemma AcceptedBelow(seen: seq<bool>, highest: nat, accepted: set<nat>, q: nat)
    requires Tracks(seen, highest, accepted)
    ensures q in accepted ==> q <= highest
    ensures q <= highest < q + WINDOW ==> (seen[highest - q] <==> q in accepted)
  {
  }

  lemma Advanced(seen: seq<bool>, highest: nat, accepted: set<nat>, q: nat)
    requires Tracks(seen, highest, accepted) && q > highest
    ensures Tracks(ShiftIn(seen, q - highest), q, accepted + {q})
  {
  }

  lemma Marked(seen: seq<bool>, highest: nat, accepted: set<nat>, q: nat)
    requires Tracks(seen, highest, accepted) && q <= highest < q + WINDOW
    ensures Tracks(seen[highest - q := true], highest, accepted + {q})
  {
  }

  // ---------- Whole runs ----------

  /** The accepted packets, in order. */
  datatype Run = Run(tracker: Tracker, log: seq<Header>)

  function Deliver(r: Run, h: Header): Run {
    var v := Offer(r.tracker, h);
    Run(v.tracker, if v.ok then r.log + [h] else r.log)
  }

  function DeliverAll(r: Run, hs: seq<Header>): Run
    decreases hs
  {
    if hs == [] then r else DeliverAll(Deliver(r, hs[0]), hs[1..])
  }

  ghost predicate Distinct<T(!new)>(s: seq<T>) {
    forall i, j :: 0 <= i < j < |s| ==> s[i] != s[j]
  }

  /** All packets come from one source and use these sessions. */
  ghost predicate FromSource(hs: seq<Header>, source: SourceId, sessions: set<SessionId>) {
    forall h :: h in hs ==> h.source == source && h.session in sessions
  }

  /** While every session ever current is still remembered, nothing accepted can come again. */
  ghost predicate Sane(r: Run, source: SourceId, sessions: set<SessionId>) {
    && Distinct(r.log)
    && (r.tracker.Idle? ==> r.log == [])
    && (r.tracker.Following? ==>
          r.tracker.source == source && Distinct(r.tracker.past + [r.tracker.current]) &&
          (forall s :: s in r.tracker.past + [r.tracker.current] ==> s in sessions) &&
          (forall h :: h in r.log ==> Remembered(r.tracker, h)))
  }

  ghost predicate Remembered(t: Tracker, h: Header)
    requires t.Following?
  {
    h.source == t.source && ((h.session == t.current && h.sequence in t.accepted) || h.session in t.past)
  }

  lemma {:induction false} DistinctSize(s: seq<SessionId>, all: set<SessionId>)
    requires Distinct(s) && forall x :: x in s ==> x in all
    ensures |s| <= |all|
  {
    if s != [] {
      var rest := all - {s[0]};
      assert s == [s[0]] + s[1..];
      assert |rest| == |all| - 1;
      DistinctSize(s[1..], rest);
    }
  }

  lemma AcceptedNew(r: Run, h: Header, source: SourceId, sessions: set<SessionId>)
    requires Sane(r, source, sessions) && r.tracker.Following? && Recent(r.tracker.past) == r.tracker.past
    requires h.source == source && Offer(r.tracker, h).ok
    ensures h !in r.log
  {
    var t := r.tracker;
    CurrentNotPast(t.past, t.current);
    forall x | x in r.log ensures x != h {
      assert Remembered(t, x);
    }
  }

  lemma CurrentNotPast(past: seq<SessionId>, current: SessionId)
    requires Distinct(past + [current])
    ensures current !in past
  {
    forall i | 0 <= i < |past| ensures past[i] != current {
      assert (past + [current])[i] == past[i] && (past + [current])[|past|] == current;
    }
  }

  lemma DeliverSane(r: Run, h: Header, source: SourceId, sessions: set<SessionId>)
    requires Sane(r, source, sessions) && |sessions| <= RETIRED + 1
    requires h.source == source && h.session in sessions
    ensures Sane(Deliver(r, h), source, sessions)
  {
    var t := r.tracker;
    if t.Following? {
      DistinctSize(t.past + [t.current], sessions);
      assert Recent(t.past) == t.past;
      if Offer(t, h).ok {
        AcceptedNew(r, h, source, sessions);
        var t' := Offer(t, h).tracker;
        forall x | x in r.log + [h] ensures Remembered(t', x) {
        }
      }
    }
  }

  /** Over every run of packets from one source in at most four sessions, no packet is accepted twice,
      however packets are lost, repeated, delayed or reordered. */
  lemma {:induction false} NoReplay(r: Run, hs: seq<Header>, source: SourceId, sessions: set<SessionId>)
    requires Sane(r, source, sessions) && FromSource(hs, source, sessions) && |sessions| <= RETIRED + 1
    ensures Distinct(DeliverAll(r, hs).log)
    decreases hs
  {
    if hs != [] {
      assert hs == [hs[0]] + hs[1..];
      DeliverSane(r, hs[0], source, sessions);
      NoReplay(Deliver(r, hs[0]), hs[1..], source, sessions);
    }
  }

  /** A packet of an earlier session is accepted again exactly when three other sessions came after it. */
  lemma OldSession(t: Tracker, h: Header, k: nat)
    requires t.Following? && h.source == t.source && Distinct(t.past + [t.current])
    requires k < |t.past| && t.past[k] == h.session
    ensures Offer(t, h).ok <==> |t.past| - k > RETIRED
  {
    var recent := Recent(t.past);
    assert (t.past + [t.current])[k] == t.past[k] && (t.past + [t.current])[|t.past|] == t.current;
    if |t.past| - k <= RETIRED {
      assert recent[|recent| - (|t.past| - k)] == h.session;
    } else {
      forall i | 0 <= i < |recent| ensures recent[i] != h.session {
        assert recent[i] == t.past[|t.past| - RETIRED + i];
        assert (t.past + [t.current])[|t.past| - RETIRED + i] == recent[i];
      }
    }
  }

  /** While one session of one source is followed, the tracker is a summary of the accepted packets. */
  ghost predicate Mirrors(r: Run, source: SourceId, session: SessionId) {
    && (forall h :: h in r.log ==> h.source == source && h.session == session)
    && (r.tracker.Idle? ==> r.log == [])
    && (r.tracker.Following? ==>
          r.tracker.source == source && r.tracker.current == session &&
          (exists h :: h in r.log && h.sequence == r.tracker.highest) &&
          (forall h :: h in r.log ==> h.sequence <= r.tracker.highest && h.sequence in r.tracker.accepted) &&
          (forall q :: q in r.tracker.accepted ==> exists h :: h in r.log && h.sequence == q))
  }

  lemma DeliverMirrors(r: Run, h: Header)
    requires Mirrors(r, h.source, h.session)
    ensures Mirrors(Deliver(r, h), h.source, h.session)
  {
    var r' := Deliver(r, h);
    if Offer(r.tracker, h).ok {
      assert r'.log[|r.log|] == h;
      assert forall x :: x in r.log ==> x in r'.log;
    }
  }

  lemma {:induction false} RunMirrors(r: Run, hs: seq<Header>, source: SourceId, session: SessionId)
    requires Mirrors(r, source, session) && FromSource(hs, source, {session})
    ensures Mirrors(DeliverAll(r, hs), source, session)
    decreases hs
  {
    hide Mirrors, Deliver;
    if hs != [] {
      assert hs[0] in hs && forall h :: h in hs[1..] ==> h in hs;
      DeliverMirrors(r, hs[0]);
      RunMirrors(Deliver(r, hs[0]), hs[1..], source, session);
    }
  }

  /** Nothing is refused without need: after any packets of a session, the next one is accepted if and only if it was
      not accepted before and no accepted packet is 64 or more ahead of it. */
  lemma AcceptedUnlessOldOrRepeated(hs: seq<Header>, h: Header)
    requires FromSource(hs, h.source, {h.session})
    ensures
      var r := DeliverAll(Run(Idle, []), hs);
      Offer(r.tracker, h).ok <==> h !in r.log && forall x :: x in r.log ==> x.sequence < h.sequence + 64
  {
    RunMirrors(Run(Idle, []), hs, h.source, h.session);
    var r := DeliverAll(Run(Idle, []), hs);
    hide DeliverAll;
    if r.tracker.Following? {
      if h.sequence in r.tracker.accepted {
        var x :| x in r.log && x.sequence == h.sequence;
        assert x == h;
      }
      var top :| top in r.log && top.sequence == r.tracker.highest;
    }
  }

  /** A session that was never seen is followed at once, wherever its numbering starts. */
  lemma NewSessionAccepted(r: Run, h: Header)
    requires r.tracker.Following? ==> h.source == r.tracker.source && h.session !in r.tracker.past + [r.tracker.current]
    ensures Deliver(r, h).log == r.log + [h]
    ensures Offer(r.tracker, h).tracker.Following? && Offer(r.tracker, h).tracker.current == h.session
  {
    if r.tracker.Following? {
      var t := r.tracker;
      assert (t.past + [t.current])[|t.past|] == t.current;
      forall i | 0 <= i < |Recent(t.past)| ensures Recent(t.past)[i] != h.session {
        assert Recent(t.past)[i] in t.past;
      }
    }
  }

  lemma NextSession(prev: Header, past: seq<SessionId>, log: seq<Header>, h: Header)
    requires h.source == prev.source && h.session != prev.session && h.session !in Recent(past)
    ensures Deliver(Run(Started(prev, past), log), h) == Run(Started(h, past + [prev.session]), log + [h])
  {
  }

  lemma DeliverOne(r: Run, hs: seq<Header>)
    requires hs != []
    ensures DeliverAll(r, hs) == DeliverAll(Deliver(r, hs[0]), hs[1..])
  {
  }

  /** Five sessions are too many: the first one's packet is accepted a second time. */
  lemma FiveSessions(source: SourceId, a: SessionId, b: SessionId, c: SessionId, d: SessionId, e: SessionId, q: u64)
    requires a != b && a != c && a != d && a != e && b != c && b != d && b != e && c != d && c != e && d != e
    ensures
      var hs := [Header(source, a, q), Header(source, b, q), Header(source, c, q), Header(source, d, q),
                 Header(source, e, q), Header(source, a, q)];
      DeliverAll(Run(Idle, []), hs).log == hs && !Distinct(hs)
  {
    hide Deliver, DeliverAll, Recent, Started;
    var h0, h1, h2, h3, h4 :=
      Header(source, a, q), Header(source, b, q), Header(source, c, q), Header(source, d, q), Header(source, e, q);
    var hs := [h0, h1, h2, h3, h4, h0];
    RecentSmall(a, b, c, d);
    DeliverOne(Run(Idle, []), hs);
    FirstSession(h0);
    DeliverOne(Run(Started(h0, []), [h0]), hs[1..]);
    NextSession(h0, [], [h0], h1);
    assert [] + [a] == [a] && [h0] + [h1] == [h0, h1] && hs[1..][1..] == hs[2..];
    DeliverOne(Run(Started(h1, [a]), [h0, h1]), hs[2..]);
    NextSession(h1, [a], [h0, h1], h2);
    assert [a] + [b] == [a, b] && [h0, h1] + [h2] == [h0, h1, h2] && hs[2..][1..] == hs[3..];
    DeliverOne(Run(Started(h2, [a, b]), [h0, h1, h2]), hs[3..]);
    NextSession(h2, [a, b], [h0, h1, h2], h3);
    assert [a, b] + [c] == [a, b, c] && [h0, h1, h2] + [h3] == [h0, h1, h2, h3] && hs[3..][1..] == hs[4..];
    DeliverOne(Run(Started(h3, [a, b, c]), [h0, h1, h2, h3]), hs[4..]);
    NextSession(h3, [a, b, c], [h0, h1, h2, h3], h4);
    assert [a, b, c] + [d] == [a, b, c, d] && [h0, h1, h2, h3] + [h4] == [h0, h1, h2, h3, h4] && hs[4..][1..] == hs[5..];
    DeliverOne(Run(Started(h4, [a, b, c, d]), [h0, h1, h2, h3, h4]), hs[5..]);
    NextSession(h4, [a, b, c, d], [h0, h1, h2, h3, h4], h0);
    assert [h0, h1, h2, h3, h4] + [h0] == hs && hs[5..][1..] == [];
    DeliverNone(Run(Started(h0, [a, b, c, d] + [e]), hs));
    assert hs[0] == hs[5];
  }

  lemma FirstSession(h: Header)
    ensures Deliver(Run(Idle, []), h) == Run(Started(h, []), [h])
  {
  }

  lemma DeliverNone(r: Run)
    ensures DeliverAll(r, []) == r
  {
  }

  lemma RecentSmall(a: SessionId, b: SessionId, c: SessionId, d: SessionId)
    ensures Recent([]) == [] && Recent([a]) == [a] && Recent([a, b]) == [a, b] && Recent([a, b, c]) == [a, b, c]
    ensures Recent([a, b, c, d]) == [b, c, d]
  {
  }

  // ---------- The sender ----------

  class Sender {
    const source: SourceId
    const session: SessionId
    var nextSequence: u64

    constructor (source: SourceId, session: SessionId)
      ensures this.source == source && this.session == session && nextSequence == 0
    {
      this.source, this.session, nextSequence := source, session, 0;
    }

    /** airlink_mesh_encode: the sequence number is spent even when sealing fails, and never wraps. */
    method Encode(fits: bool, sealed: bool) returns (h: Option<Header>)
      modifies this
      ensures h.Some? ==> h.value == Header(source, session, old(nextSequence))
      ensures nextSequence == if fits && old(nextSequence) < 0xFFFF_FFFF_FFFF_FFFF then old(nextSequence) + 1 else old(nextSequence)
      ensures h.None? <==> !fits || !sealed || old(nextSequence) == 0xFFFF_FFFF_FFFF_FFFF
    {
      if !fits || nextSequence == 0xFFFF_FFFF_FFFF_FFFF {
        return None;
      }
      var sequence := nextSequence;
      nextSequence := nextSequence + 1;
      return if sealed then Some(Header(source, session, sequence)) else None;
    }

    /** Any number of sends: no sequence number is used twice. */
    method EncodeMany(attempts: seq<(bool, bool)>) returns (sent: seq<Header>)
      modifies this
      ensures forall i, j :: 0 <= i < j < |sent| ==> sent[i].sequence < sent[j].sequence
      ensures forall h :: h in sent ==> h.source == source && h.session == session && h.sequence < nextSequence
    {
      sent := [];
      for i := 0 to |attempts|
        invariant forall i, j :: 0 <= i < j < |sent| ==> sent[i].sequence < sent[j].sequence
        invariant forall h :: h in sent ==> h.source == source && h.session == session && h.sequence < nextSequence
      {
        var h := Encode(attempts[i].0, attempts[i].1);
        if h.Some? {
          sent := sent + [h.value];
        }
      }
    }
  }
}
