/** The byte-at-a-time MAVLink parser (components/airlink_router/airlink_mavlink.c). */
module MavlinkParser {
  import opened Bits

  const MAX_FRAME_SIZE := 280
  const MARKER_V1 := 0xFE
  const MARKER_V2 := 0xFD
  const SIGNATURE_SIZE := 13

  predicate IsMarker(b: u8) { b == MARKER_V1 || b == MARKER_V2 }

  // ---------- Frames, as the MAVLink packet format has them ----------

  /** A version 1 frame is 8 bytes longer than its payload; a version 2 frame 12, and 13 more when signed. */
  predicate IsFrame(f: seq<u8>) {
    && |f| >= 8 && IsMarker(f[0])
    && |f| == (if f[0] == MARKER_V1 then 8 + f[1]
               else 12 + f[1] + if f[2] % 2 == 1 then SIGNATURE_SIZE else 0)
  }

  predicate AllFrames(fs: seq<seq<u8>>) { forall i :: 0 <= i < |fs| ==> IsFrame(fs[i]) }

  /** Bytes that can stand between frames. */
  predicate IsGap(g: seq<u8>) { forall i :: 0 <= i < |g| ==> !IsMarker(g[i]) }

  predicate AllGaps(gs: seq<seq<u8>>) { forall i :: 0 <= i < |gs| ==> IsGap(gs[i]) }

  /** The frames with the i-th gap in front of the i-th frame. */
  function Stream(gaps: seq<seq<u8>>, frames: seq<seq<u8>>): seq<u8>
    requires |gaps| == |frames|
  {
    if frames == [] then [] else gaps[0] + frames[0] + Stream(gaps[1..], frames[1..])
  }

  // ---------- The parser as a function ----------

  /** The length the frame will have, as far as the bytes collected so far tell; zero while they do not. */
  function Expected(held: seq<u8>): (n: nat)
    ensures n <= MAX_FRAME_SIZE
  {
    if |held| < 2 then 0
    else if held[0] == MARKER_V1 then 8 + held[1]
    else 12 + held[1] + if |held| >= 3 && held[2] % 2 == 1 then SIGNATURE_SIZE else 0
  }

  /** The bytes of an unfinished frame. */
  ghost predicate Unfinished(held: seq<u8>) {
    held != [] ==> IsMarker(held[0]) && (|held| >= 2 ==> |held| < Expected(held))
  }

  datatype Parsed = Parsed(held: seq<u8>, frames: seq<seq<u8>>)

  function OnByte(held: seq<u8>, b: u8): Parsed {
    if held == [] then Parsed(if IsMarker(b) then [b] else [], [])
    else
      var more := held + [b];
      if Expected(more) == |more| then Parsed([], [more]) else Parsed(more, [])
  }

  function Feed(held: seq<u8>, bytes: seq<u8>): Parsed
    decreases |bytes|
  {
    if bytes == [] then Parsed(held, [])
    else
      var first := OnByte(held, bytes[0]);
      var rest := Feed(first.held, bytes[1..]);
      Parsed(rest.held, first.frames + rest.frames)
  }

  lemma UnfinishedKept(held: seq<u8>, b: u8)
    requires Unfinished(held)
    ensures Unfinished(OnByte(held, b).held) && AllFrames(OnByte(held, b).frames)
  {
  }

  /** The parser never holds as many bytes as its buffer, so the branch for a full buffer is never taken. */
  lemma {:induction false} BufferNeverFull(held: seq<u8>, bytes: seq<u8>)
    requires Unfinished(held)
    ensures Unfinished(Feed(held, bytes).held) && |Feed(held, bytes).held| < MAX_FRAME_SIZE
    decreases |bytes|
  {
    if bytes != [] {
      UnfinishedKept(held, bytes[0]);
      BufferNeverFull(OnByte(held, bytes[0]).held, bytes[1..]);
    }
  }

  /** Parsing does not depend on how the bytes are split. */
  lemma {:induction false} SplitFeeds(held: seq<u8>, a: seq<u8>, b: seq<u8>)
    ensures Feed(held, a + b) ==
            var first := Feed(held, a);
            Parsed(Feed(first.held, b).held, first.frames + Feed(first.held, b).frames)
    decreases |a|
  {
    if a == [] {
      assert a + b == b;
    } else {
      assert (a + b)[1..] == a[1..] + b;
      var first := OnByte(held, a[0]);
      SplitFeeds(first.held, a[1..], b);
      var middle := Feed(first.held, a[1..]);
      Joined(first.frames, middle.frames, Feed(middle.held, b).frames);
    }
  }

  lemma Joined<T>(a: seq<T>, b: seq<T>, c: seq<T>)
    ensures a + (b + c) == (a + b) + c
  {
  }

  // ---------- Every frame sent is recovered ----------

  lemma {:induction false} SkipsGap(gap: seq<u8>)
    requires IsGap(gap)
    ensures Feed([], gap) == Parsed([], [])
    decreases |gap|
  {
    if gap != [] {
      SkipsGap(gap[1..]);
    }
  }

  lemma {:induction false} CollectsFrame(f: seq<u8>, k: nat)
    requires IsFrame(f) && 1 <= k < |f|
    ensures Feed(f[..k], f[k..]) == Parsed([], [f])
    decreases |f| - k
  {
    assert f[..k] + [f[k]] == f[..k + 1];
    assert f[k..][1..] == f[k + 1..];
    if k + 1 < |f| {
      CollectsFrame(f, k + 1);
    } else {
      assert f[..k + 1] == f && f[k + 1..] == [];
    }
  }

  lemma RecoversFrame(gap: seq<u8>, f: seq<u8>)
    requires IsGap(gap) && IsFrame(f)
    ensures Feed([], gap + f) == Parsed([], [f])
  {
    SkipsGap(gap);
    SplitFeeds([], gap, f);
    assert f[..1] == [f[0]];
    CollectsFrame(f, 1);
    assert [] + [f] == [f];
  }

  /** Any list of well-formed frames, with any bytes but markers between them, is recovered frame by frame, byte
      for byte; by SplitFeeds however the stream is split. */
  lemma {:induction false} FramesRecovered(gaps: seq<seq<u8>>, frames: seq<seq<u8>>, last: seq<u8>)
    requires |gaps| == |frames| && AllGaps(gaps) && AllFrames(frames) && IsGap(last)
    ensures Feed([], Stream(gaps, frames) + last) == Parsed([], frames)
    decreases |frames|
  {
    hide Feed;
    if frames == [] {
      SkipsGap(last);
      assert [] + last == last;
    } else {
      var rest := Stream(gaps[1..], frames[1..]);
      assert Stream(gaps, frames) + last == (gaps[0] + frames[0]) + (rest + last);
      RecoversFrame(gaps[0], frames[0]);
      FramesRecovered(gaps[1..], frames[1..], last);
      SplitFeeds([], gaps[0] + frames[0], rest + last);
      assert [frames[0]] + frames[1..] == frames;
    }
  }

  // ---------- And nothing else is ever emitted ----------

  /** What the bytes consist of: frames, marker-free gaps before them, and an unfinished frame after one last gap. */
  ghost predicate Decomposes(input: seq<u8>, gaps: seq<seq<u8>>, frames: seq<seq<u8>>, last: seq<u8>, held: seq<u8>) {
    && |gaps| == |frames| && AllGaps(gaps) && AllFrames(frames) && IsGap(last) && Unfinished(held)
    && input == Stream(gaps, frames) + last + held
  }

  lemma {:induction false} StreamSnoc(gaps: seq<seq<u8>>, frames: seq<seq<u8>>, gap: seq<u8>, frame: seq<u8>)
    requires |gaps| == |frames|
    ensures Stream(gaps + [gap], frames + [frame]) == Stream(gaps, frames) + gap + frame
    decreases |frames|
  {
    if frames == [] {
      assert gaps + [gap] == [gap] && frames + [frame] == [frame];
      assert [gap][1..] == [] && [frame][1..] == [];
      assert Stream([gap], [frame]) == gap + frame + [];
      assert gap + frame + [] == [] + gap + frame;
    } else {
      assert (gaps + [gap])[1..] == gaps[1..] + [gap] && (frames + [frame])[1..] == frames[1..] + [frame];
      StreamSnoc(gaps[1..], frames[1..], gap, frame);
      assert gaps[0] + frames[0] + (Stream(gaps[1..], frames[1..]) + gap + frame) ==
             (gaps[0] + frames[0] + Stream(gaps[1..], frames[1..])) + gap + frame;
    }
  }

  /** For any input whatever, the frames emitted are disjoint well-formed pieces of it in order, and no byte
      outside them is a marker except in the unfinished frame at the end. */
  lemma {:induction false} OnlyFrames(input: seq<u8>)
    ensures exists gaps, last ::
      Decomposes(input, gaps, Feed([], input).frames, last, Feed([], input).held)
    decreases |input|
  {
    hide Feed, Unfinished;
    if input == [] {
      NothingFed();
      assert Decomposes(input, [], [], [], []);
    } else {
      var before, b := input[..|input| - 1], input[|input| - 1];
      assert input == before + [b];
      OnlyFrames(before);
      var p := Feed([], before);
      var gaps, last :| Decomposes(before, gaps, p.frames, last, p.held);
      SplitFeeds([], before, [b]);
      OneFed(p.held, b);
      OnlyFramesStep(before, gaps, p.frames, last, p.held, b);
    }
  }

  lemma NothingFed()
    ensures Feed([], []) == Parsed([], []) && Unfinished([])
  {
  }

  lemma OneFed(held: seq<u8>, b: u8)
    ensures Feed(held, [b]) == OnByte(held, b)
  {
    assert [b][1..] == [];
    assert OnByte(held, b).frames + [] == OnByte(held, b).frames;
  }

  lemma OnlyFramesStep(input: seq<u8>, gaps: seq<seq<u8>>, frames: seq<seq<u8>>, last: seq<u8>, held: seq<u8>, b: u8)
    requires Decomposes(input, gaps, frames, last, held)
    ensures exists gaps', last' ::
      Decomposes(input + [b], gaps', frames + OnByte(held, b).frames, last', OnByte(held, b).held)
  {
    hide Stream;
    UnfinishedKept(held, b);
    var next := OnByte(held, b);
    if next.frames == [] {
      assert frames + [] == frames;
      if next.held == [] {
        assert input + [b] == Stream(gaps, frames) + (last + [b]) + [];
        assert Decomposes(input + [b], gaps, frames + next.frames, last + [b], next.held);
      } else {
        assert input + [b] == Stream(gaps, frames) + last + (held + [b]);
        assert Decomposes(input + [b], gaps, frames + next.frames, last, next.held);
      }
    } else {
      var f := held + [b];
      StreamSnoc(gaps, frames, last, f);
      assert input + [b] == Stream(gaps, frames) + last + f + [] + [];
      assert Decomposes(input + [b], gaps + [last], frames + next.frames, [], next.held);
    }
  }
}
