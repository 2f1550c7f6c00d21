/** Watching a byte stream for an escape pattern while passing it on (components/airlink_core/airlink_stream.c):
    bytes that may be the beginning of the pattern are held back until that is decided. */
module EscapeMatcher {
  import opened Bits

  const PATTERN_MAX := 32

  type Pattern = p: seq<u8> | 2 <= |p| <= PATTERN_MAX witness [0, 0]

  // ---------- What is held back ----------

  predicate Ends(t: seq<u8>, s: seq<u8>) { |s| <= |t| && t[|t| - |s|..] == s }

  /** h is the longest end of t that is a proper beginning of the pattern. */
  ghost predicate IsHeld(p: Pattern, t: seq<u8>, h: seq<u8>) {
    && |h| < |p| && h == p[..|h|] && Ends(t, h)
    && forall k :: |h| < k < |p| ==> !Ends(t, p[..k])
  }

  /** The first n bytes of the pattern end `t`, and no longer beginning of up to k bytes does. */
  ghost predicate Longest(p: Pattern, t: seq<u8>, n: nat, k: nat) {
    n <= k < |p| && Ends(t, p[..n]) && forall j :: n < j <= k ==> !Ends(t, p[..j])
  }

  /** Length of the longest proper beginning of the pattern, up to k bytes, that ends `t`. */
  function Border(p: Pattern, t: seq<u8>, k: nat): (n: nat)
    requires k < |p|
    ensures n <= k && Longest(p, t, n, k)
  {
    if Ends(t, p[..k]) then k else Border(p, t, k - 1)
  }

  lemma LongerEnds(t: seq<u8>, a: seq<u8>, b: seq<u8>)
    requires Ends(t, a) && Ends(t, b) && |a| <= |b|
    ensures Ends(b, a)
  {
    assert t[|t| - |b|..][|b| - |a|..] == t[|t| - |a|..];
  }

  lemma EndsMore(t: seq<u8>, x: u8, s: seq<u8>)
    requires s != []
    ensures Ends(t + [x], s) <==> Ends(t, s[..|s| - 1]) && s[|s| - 1] == x
  {
    if Ends(t + [x], s) {
      assert s == (t + [x])[|t| + 1 - |s|..];
      assert s[..|s| - 1] == t[|t| + 1 - |s|..];
    }
    if Ends(t, s[..|s| - 1]) && s[|s| - 1] == x {
      assert (t + [x])[|t| + 1 - |s|..] == t[|t| + 1 - |s|..] + [x];
      assert s == s[..|s| - 1] + [x];
    }
  }

  /** Beginnings of the pattern that end the text after one more byte are visible in the held bytes alone. */
  lemma HeldSuffices(p: Pattern, t: seq<u8>, h: seq<u8>, x: u8, k: nat)
    requires IsHeld(p, t, h) && k <= |p|
    ensures Ends(t + [x], p[..k]) <==> Ends(h + [x], p[..k])
  {
    if k > 0 {
      var s := p[..k];
      assert s[..k - 1] == p[..k - 1];
      EndsMore(t, x, s);
      EndsMore(h, x, s);
      if Ends(t, p[..k - 1]) {
        LongerEnds(t, p[..k - 1], h);
      }
      if Ends(h, p[..k - 1]) {
        assert t[|t| - |h|..][|h| - (k - 1)..] == t[|t| - (k - 1)..];
      }
    }
  }

  /** The next held bytes, unless the pattern is complete. */
  lemma NextHeld(p: Pattern, t: seq<u8>, h: seq<u8>, x: u8)
    requires IsHeld(p, t, h) && h + [x] != p
    ensures
      var c := h + [x];
      var n := Border(p, c, if |c| < |p| - 1 then |c| else |p| - 1);
      n <= |c| && IsHeld(p, t + [x], c[|c| - n..]) && !Ends(t + [x], p)
  {
    var c := h + [x];
    var limit := if |c| < |p| - 1 then |c| else |p| - 1;
    var n := Border(p, c, limit);
    HeldSuffices(p, t, h, x, n);
    forall k | n < k < |p| ensures !Ends(t + [x], p[..k]) {
      HeldSuffices(p, t, h, x, k);
      assert k <= limit ==> !Ends(c, p[..k]);
    }
    HeldSuffices(p, t, h, x, |p|);
    assert p[..|p|] == p;
  }

  /** The held bytes and the next one are the pattern exactly when the text now ends with it. */
  lemma CompletesExactly(p: Pattern, t: seq<u8>, h: seq<u8>, x: u8)
    requires IsHeld(p, t, h)
    ensures h + [x] == p <==> Ends(t + [x], p)
  {
    HeldSuffices(p, t, h, x, |p|);
    assert p[..|p|] == p;
    if Ends(h + [x], p) {
      assert |h + [x]| == |p|;
      assert (h + [x])[0..] == h + [x];
    }
  }

  // ---------- Feeding ----------

  datatype Result = Pending | Matched | EmitFailed

  /** What a feed does: its result, the bytes consumed, what was emitted, what is held, and how many more
      emissions the sink will accept. */
  datatype Outcome = Outcome(result: Result, consumed: nat, emitted: seq<u8>, held: seq<u8>, room: nat)

  /** One byte: it completes the pattern, or it joins the held bytes and what cannot be kept is emitted. */
  function Take(p: Pattern, held: seq<u8>, x: u8, room: nat): (o: Outcome)
    requires |held| < |p|
    ensures |o.held| < |p| && o.consumed == if o.result == EmitFailed then 0 else 1
    ensures held + (if o.consumed == 1 then [x] else []) == o.emitted + (if o.result == Matched then p else o.held)
  {
    var c := held + [x];
    if c == p then Outcome(Matched, 1, [], [], room)
    else
      var keep := Border(p, c, if |c| < |p| - 1 then |c| else |p| - 1);
      if keep < |c| && room == 0 then Outcome(EmitFailed, 0, [], held, 0)
      else Outcome(Pending, 1, c[..|c| - keep], c[|c| - keep..], if keep < |c| then room - 1 else room)
  }

  function Then(o: Outcome, o': Outcome): Outcome {
    Outcome(o'.result, o.consumed + o'.consumed, o.emitted + o'.emitted, o'.held, o'.room)
  }

  function Consume(p: Pattern, held: seq<u8>, input: seq<u8>, room: nat): Outcome
    requires |held| < |p|
    decreases input
  {
    if input == [] then Outcome(Pending, 0, [], held, room)
    else
      var o := Take(p, held, input[0], room);
      if o.result != Pending then o else Then(o, Consume(p, o.held, input[1..], o.room))
  }

  lemma ConsumeOne(p: Pattern, held: seq<u8>, x: u8, room: nat)
    requires |held| < |p|
    ensures Consume(p, held, [x], room) == Take(p, held, x, room)
  {
    hide Take;
    var o := Take(p, held, x, room);
    assert [x][1..] == [] && o.emitted + [] == o.emitted;
  }

  /** No byte is lost, repeated or reordered: what went in is what came out, then the pattern if it matched,
      or what is still held. */
  lemma {:induction false} NothingLost(p: Pattern, held: seq<u8>, input: seq<u8>, room: nat)
    requires |held| < |p|
    ensures var o := Consume(p, held, input, room);
      o.consumed <= |input| && |o.held| < |p| &&
      held + input[..o.consumed] == o.emitted + (if o.result == Matched then p else o.held) &&
      (o.result == Pending ==> o.consumed == |input|)
    decreases input
  {
    hide Take;
    if input != [] {
      var o := Take(p, held, input[0], room);
      if o.result == Pending {
        NothingLost(p, o.held, input[1..], o.room);
        var o' := Consume(p, o.held, input[1..], o.room);
        assert input[..o'.consumed + 1] == [input[0]] + input[1..][..o'.consumed];
        Reassemble(held, input[0], input[1..][..o'.consumed], o.emitted, o.held, o'.emitted,
                   if o'.result == Matched then p else o'.held);
      } else {
        assert input[..1] == [input[0]] && input[..0] == [];
      }
    }
  }

  lemma Reassemble(held: seq<u8>, x: u8, rest: seq<u8>, out: seq<u8>, kept: seq<u8>, emitted: seq<u8>, tail: seq<u8>)
    requires held + [x] == out + kept && kept + rest == emitted + tail
    ensures held + ([x] + rest) == (out + emitted) + tail
  {
    calc {
      held + ([x] + rest);
      (held + [x]) + rest;
      out + (kept + rest);
      out + (emitted + tail);
      (out + emitted) + tail;
    }
  }

  /** One byte, seen from the whole text since the last reset. */
  lemma TakeMatches(p: Pattern, t: seq<u8>, held: seq<u8>, x: u8, room: nat)
    requires IsHeld(p, t, held)
    ensures var o := Take(p, held, x, room);
      (o.result == Matched <==> Ends(t + [x], p)) &&
      (o.result == Pending ==> IsHeld(p, t + [x], o.held)) && (o.result == EmitFailed ==> o.held == held)
  {
    hide IsHeld, Ends;
    HeldShort(p, t, held);
    CompletesExactly(p, t, held, x);
    if held + [x] != p {
      NextHeld(p, t, held, x);
    }
  }

  lemma HeldShort(p: Pattern, t: seq<u8>, h: seq<u8>)
    requires IsHeld(p, t, h)
    ensures |h| < |p|
  {
  }

  /** Since the last reset: nothing matched before the end, the pattern is reported exactly at the end of its
      first occurrence, and otherwise the held bytes are the longest end that could still become the pattern. */
  lemma {:induction false} MatchesFirst(p: Pattern, t: seq<u8>, held: seq<u8>, input: seq<u8>, room: nat)
    requires IsHeld(p, t, held)
    ensures var o := Consume(p, held, input, room);
      o.consumed <= |input| &&
      (forall n :: 0 < n < o.consumed ==> !Ends(t + input[..n], p)) &&
      (o.result == Matched ==> o.consumed > 0 && Ends(t + input[..o.consumed], p)) &&
      (o.result != Matched ==> IsHeld(p, t + input[..o.consumed], o.held)) &&
      (o.result != Matched && o.consumed > 0 ==> !Ends(t + input[..o.consumed], p))
    decreases input
  {
    hide IsHeld, Ends, Take;
    assert t + input[..0] == t;
    if input != [] {
      var x, rest := input[0], input[1..];
      HeldShort(p, t, held);
      TakeMatches(p, t, held, x, room);
      var o := Take(p, held, x, room);
      assert input[..1] == [x];
      if o.result == Pending {
        MatchesFirst(p, t + [x], o.held, rest, o.room);
        forall n | 0 < n <= |input| ensures t + input[..n] == (t + [x]) + rest[..n - 1] {
          assert input[..n] == [x] + rest[..n - 1];
        }
      }
    }
  }

  /** Feeding in pieces is feeding the whole: results, emissions and the match position do not depend on how
      the input is split. */
  lemma {:induction false} SplitIndependent(p: Pattern, held: seq<u8>, a: seq<u8>, b: seq<u8>, room: nat)
    requires |held| < |p|
    ensures var o := Consume(p, held, a, room);
      |o.held| < |p| &&
      Consume(p, held, a + b, room) == if o.result != Pending then o else Then(o, Consume(p, o.held, b, o.room))
    decreases a
  {
    hide Take;
    NothingLost(p, held, a, room);
    if a == [] {
      assert a + b == b;
      var o' := Consume(p, held, b, room);
      assert [] + o'.emitted == o'.emitted;
    } else {
      assert (a + b)[0] == a[0] && (a + b)[1..] == a[1..] + b;
      var o := Take(p, held, a[0], room);
      if o.result == Pending {
        SplitIndependent(p, o.held, a[1..], b, o.room);
        var o1 := Consume(p, o.held, a[1..], o.room);
        if o1.result == Pending {
          Grouped(o.emitted, o1.emitted, Consume(p, o1.held, b, o1.room).emitted);
        }
      }
    }
  }

  lemma Grouped(a: seq<u8>, b: seq<u8>, c: seq<u8>)
    ensures a + (b + c) == (a + b) + c
  {
  }

  lemma ConsumeNothing(p: Pattern, held: seq<u8>, room: nat)
    requires |held| < |p|
    ensures Consume(p, held, [], room) == Outcome(Pending, 0, [], held, room)
  {
  }

  /** While everything is pending, the next byte decides what the feed does. */
  lemma NextByte(p: Pattern, held: seq<u8>, input: seq<u8>, i: nat, room: nat)
    requires |held| < |p| && i < |input| && Consume(p, held, input[..i], room).result == Pending
    ensures var o := Consume(p, held, input[..i], room);
      |o.held| < |p| && o.consumed == i &&
      var o' := Take(p, o.held, input[i], o.room);
      Consume(p, held, input[..i + 1], room) == Then(o, o') &&
      (o'.result != Pending ==> Consume(p, held, input, room) == Then(o, o'))
  {
    hide Take;
    NothingLost(p, held, input[..i], room);
    var o := Consume(p, held, input[..i], room);
    var o' := Take(p, o.held, input[i], o.room);
    SplitIndependent(p, held, input[..i], [input[i]], room);
    ConsumeOne(p, o.held, input[i], o.room);
    assert input[..i + 1] == input[..i] + [input[i]];
    SplitIndependent(p, held, input[..i + 1], input[i + 1..], room);
    assert input == input[..i + 1] + input[i + 1..];
  }

  // ---------- The matcher as the source keeps it ----------

  /** Where the bytes go; it accepts a number of emissions and then fails. */
  class Sink {
    var data: seq<u8>
    var room: nat

    constructor (room: nat)
      ensures data == [] && this.room == room
    {
      data, this.room := [], room;
    }

    method Emit(bytes: seq<u8>) returns (ok: bool)
      modifies this
      ensures ok == (old(room) > 0)
      ensures ok ==> data == old(data) + bytes && room == old(room) - 1
      ensures !ok ==> data == old(data) && room == old(room)
    {
      ok := room > 0;
      if ok {
        data, room := data + bytes, room - 1;
      }
    }
  }

  class Matcher {
    const bytes: array<u8>
    var length: nat
    var startedUs: u64

    ghost predicate Valid(p: Pattern)
      reads this, bytes
    {
      bytes.Length == PATTERN_MAX && length < |p|
    }

    ghost function Held(): seq<u8>
      requires length <= bytes.Length
      reads this, bytes
    {
      bytes[..length]
    }

    constructor ()
      ensures bytes.Length == PATTERN_MAX && length == 0 && fresh(bytes)
    {
      bytes := new u8[PATTERN_MAX](i => 0);
      length, startedUs := 0, 0;
    }

    /** suffix_prefix */
    static method SuffixPrefix(text: seq<u8>, p: Pattern) returns (keep: nat)
      ensures keep <= |text| && keep < |p| && Longest(p, text, keep, |p| - 1)
      ensures keep == Border(p, text, if |text| < |p| - 1 then |text| else |p| - 1)
    {
      var candidate := if |text| < |p| - 1 then |text| else |p| - 1;
      ghost var limit := candidate;
      while candidate > 0
        invariant 0 <= candidate <= limit < |p| && candidate <= |text|
        invariant Border(p, text, limit) == Border(p, text, candidate)
      {
        if text[|text| - candidate..] == p[..candidate] {
          return candidate;
        }
        candidate := candidate - 1;
      }
      return 0;
    }

    /** The time at which the matcher began to hold bytes; zero while it holds none. */
    static function Since(before: u64, lengthBefore: nat, now: u64, result: Result, length: nat): u64 {
      if result == EmitFailed then before
      else if result == Matched || length == 0 then 0
      else if lengthBefore == 0 then now
      else before
    }

    method Reset()
      modifies this, bytes
      ensures length == 0 && startedUs == 0
    {
      forall i | 0 <= i < bytes.Length {
        bytes[i] := 0;
      }
      length, startedUs := 0, 0;
    }

    /** Moves the bytes to keep to the front. */
    method KeepLast(text: seq<u8>, keep: nat)
      requires keep <= |text| && keep <= bytes.Length
      modifies bytes
      ensures bytes[..keep] == text[|text| - keep..]
    {
      forall i | 0 <= i < keep {
        bytes[i] := text[|text| - keep + i];
      }
    }

    /** One byte of airlink_escape_feed. */
    method FeedByte(p: Pattern, x: u8, now: u64, sink: Sink) returns (result: Result)
      requires Valid(p)
      modifies this, bytes, sink
      ensures Valid(p)
      ensures
        var o := Take(p, old(Held()), x, old(sink.room));
        result == o.result && Held() == o.held && sink.data == old(sink.data) + o.emitted && sink.room == o.room
      ensures startedUs == Since(old(startedUs), old(length), now, result, length)
    {
      hide Ends, Border, Longest;
      ghost var o := Take(p, Held(), x, sink.room);
      var combined := bytes[..length] + [x];
      if |combined| == |p| && combined == p {
        Reset();
        return Matched;
      }
      var keep := SuffixPrefix(combined, p);
      var flush := |combined| - keep;
      if flush > 0 {
        var ok := sink.Emit(combined[..flush]);
        if !ok {
          return EmitFailed;
        }
      }
      KeepLast(combined, keep);
      if length == 0 && keep > 0 {
        startedUs := now;
      }
      length := keep;
      if keep == 0 {
        startedUs := 0;
      }
      return Pending;
    }

    /** airlink_escape_feed; after a failed emission no consumed count is reported. */
    method Feed(p: Pattern, input: seq<u8>, now: u64, sink: Sink) returns (result: Result, consumed: nat)
      requires Valid(p)
      modifies this, bytes, sink
      ensures Valid(p)
      ensures
        var o := Consume(p, old(Held()), input, old(sink.room));
        result == o.result && Held() == o.held && sink.data == old(sink.data) + o.emitted && sink.room == o.room &&
        consumed == if result == EmitFailed then 0 else o.consumed
      ensures result == Matched ==> startedUs == 0
      ensures result == Pending && length > 0 ==> startedUs == now || (startedUs == old(startedUs) && old(length) > 0)
    {
      hide Take, Consume;
      consumed := 0;
      ghost var held0, data0, room0 := Held(), sink.data, sink.room;
      ghost var o := Consume(p, held0, [], room0);
      ConsumeNothing(p, held0, room0);
      assert input[..0] == [] && data0 + [] == data0;
      for i := 0 to |input|
        invariant Valid(p) && o == Consume(p, held0, input[..i], room0) && o.result == Pending
        invariant Held() == o.held && sink.data == data0 + o.emitted && sink.room == o.room
        invariant length > 0 ==> startedUs == now || (startedUs == old(startedUs) && old(length) > 0)
      {
        NextByte(p, held0, input, i, room0);
        ghost var o' := Take(p, o.held, input[i], o.room);
        Grouped(data0, o.emitted, o'.emitted);
        result := FeedByte(p, input[i], now, sink);
        o := Then(o, o');
        if result != Pending {
          return result, if result == Matched then i + 1 else 0;
        }
      }
      assert input[..|input|] == input;
      NothingLost(p, held0, input, room0);
      return Pending, |input|;
    }

    /** airlink_escape_flush_expired: bytes held for too long are no escape after all. */
    method FlushExpired(p: Pattern, now: u64, timeout: u64, sink: Sink) returns (ok: bool)
      requires Valid(p)
      modifies this, bytes, sink
      ensures Valid(p)
      ensures
        var due := old(length) > 0 && Elapsed(now, old(startedUs)) >= timeout;
        (ok == (!due || old(sink.room) > 0)) &&
        (!due ==> Held() == old(Held()) && sink.data == old(sink.data)) &&
        startedUs == (if due then 0 else old(startedUs)) &&
        (due ==> Held() == [] && sink.data == old(sink.data) + (if ok then old(Held()) else []))
    {
      if length == 0 || Elapsed(now, startedUs) < timeout {
        return true;
      }
      ok := sink.Emit(bytes[..length]);
      Reset();
    }
  }
}
