/** The zero-delimited frames of the USB binary link: building a response, and collecting frames from whatever
    pieces the USB driver returns (components/airlink_usb/airlink_usb.c). */
module RpcLink {
  import opened Bits
  import opened Cobs

  const RPC_KIND_RESPONSE := 2
  const RPC_KIND_CONTROL := 3
  const RPC_ERR_INVALID := 3
  const RPC_CRC_SIZE := 4

  /** A 32-bit checksum as its four stored bytes; airlink_crc32 itself is not part of this model. */
  type Checksum = c: seq<u8> | |c| == RPC_CRC_SIZE witness [0, 0, 0, 0]

  type Checksummer = seq<u8> -> Checksum

  // ---------- Receiving, as a function ----------

  /** What is held of the current frame, the frames handed to rpc_handle so far, and whether the link is in
      binary mode. */
  datatype Link = Link(held: seq<u8>, handled: seq<seq<u8>>, binary: bool)

  /** The control frame that ends binary mode. */
  predicate IsExit(crc: Checksummer, d: seq<u8>) {
    && |d| == RPC_HEADER_SIZE + RPC_CRC_SIZE
    && d[0] == 1 && d[1] == RPC_KIND_CONTROL && d[2] == 0 && d[3] == 0
    && d[12] == 0 && d[13] == 0 && d[14] == 0 && d[15] == 0
    && d[RPC_HEADER_SIZE..] == crc(d[..RPC_HEADER_SIZE])
  }

  /** The decoded frame, or nothing when decoding fails or does not fit the buffer. */
  function Decoded(e: seq<u8>): (d: seq<u8>)
    ensures |d| <= RPC_FRAME_MAX
  {
    var d := Decode(e);
    if d.Some? && |d.value| <= RPC_FRAME_MAX then d.value else []
  }

  function OnByte(crc: Checksummer, s: Link, b: u8): Link {
    if !s.binary then s
    else if b != 0 then
      s.(held := if |s.held| < RPC_ENCODED_MAX then s.held + [b] else [])
    else
      var d := Decoded(s.held);
      if |d| < RPC_HEADER_SIZE then s.(held := [])
      else if IsExit(crc, d) then s.(held := [], binary := false)
      else Link([], s.handled + [d], true)
  }

  function Receive(crc: Checksummer, s: Link, bytes: seq<u8>): Link
    decreases |bytes|
  {
    if bytes == [] then s else Receive(crc, OnByte(crc, s, bytes[0]), bytes[1..])
  }

  /** How the bytes are split between USB reads makes no difference. */
  lemma {:induction false} SplitReads(crc: Checksummer, s: Link, a: seq<u8>, b: seq<u8>)
    ensures Receive(crc, s, a + b) == Receive(crc, Receive(crc, s, a), b)
    decreases |a|
  {
    if a == [] {
      assert a + b == b;
    } else {
      assert (a + b)[1..] == a[1..] + b;
      SplitReads(crc, OnByte(crc, s, a[0]), a[1..], b);
    }
  }

  // ---------- Recovering a stream of frames ----------

  /** The frames on the wire, each encoded and followed by a zero. */
  function Wire(frames: seq<seq<u8>>): seq<u8> {
    if frames == [] then [] else Encode(frames[0]) + [0] + Wire(frames[1..])
  }

  ghost predicate Sendable(x: seq<u8>) { RPC_HEADER_SIZE <= |x| <= RPC_FRAME_MAX }

  /** The frames before the first one that ends binary mode. */
  function UntilExit(crc: Checksummer, frames: seq<seq<u8>>): (r: seq<seq<u8>>)
    ensures r <= frames && forall x :: x in r ==> !IsExit(crc, x)
    ensures |r| < |frames| ==> IsExit(crc, frames[|r|])
  {
    if frames == [] || IsExit(crc, frames[0]) then [] else [frames[0]] + UntilExit(crc, frames[1..])
  }

  /** Every frame within the limits fits the receiving buffer. */
  lemma EncodedFits(x: seq<u8>)
    requires |x| <= RPC_FRAME_MAX
    ensures |Encode(x)| < RPC_ENCODED_MAX
  {
    LengthBound(x);
  }

  /** Bytes other than zero are only collected. */
  lemma {:induction false} Collects(crc: Checksummer, s: Link, bytes: seq<u8>)
    requires s.binary && |s.held + bytes| <= RPC_ENCODED_MAX && ZeroFree(bytes)
    ensures Receive(crc, s, bytes) == s.(held := s.held + bytes)
    decreases |bytes|
  {
    hide Decoded, IsExit;
    if bytes == [] {
      assert s.held + bytes == s.held;
    } else {
      var next := OnByte(crc, s, bytes[0]);
      assert next.held + bytes[1..] == s.held + bytes;
      Collects(crc, next, bytes[1..]);
    }
  }

  lemma ReceivesFrame(crc: Checksummer, s: Link, x: seq<u8>)
    requires s.binary && s.held == [] && Sendable(x)
    ensures Receive(crc, s, Encode(x) + [0]) ==
            if IsExit(crc, x) then s.(binary := false) else s.(handled := s.handled + [x])
  {
    hide IsExit, Encode, Decode;
    NoZero(x);
    EncodedFits(x);
    assert s.held + Encode(x) == Encode(x);
    Collects(crc, s, Encode(x));
    SplitReads(crc, s, Encode(x), [0]);
    RoundTrip(x);
    assert [0][1..] == [];
  }

  lemma {:induction false} LeftBinaryMode(crc: Checksummer, s: Link, bytes: seq<u8>)
    requires !s.binary
    ensures Receive(crc, s, bytes) == s
    decreases |bytes|
  {
    if bytes != [] {
      LeftBinaryMode(crc, s, bytes[1..]);
    }
  }

  lemma OneMoreHandled(before: seq<seq<u8>>, x: seq<u8>, after: seq<seq<u8>>)
    ensures before + [x] + after == before + ([x] + after)
  {
  }

  /** Frames sent one after the other are handed over one by one, byte for byte and in order, up to the one that
      ends binary mode; by SplitReads the same holds however the stream is cut into reads. */
  lemma {:induction false} FramesRecovered(crc: Checksummer, s: Link, frames: seq<seq<u8>>)
    requires s.binary && s.held == [] && forall x :: x in frames ==> Sendable(x)
    ensures Receive(crc, s, Wire(frames)).handled == s.handled + UntilExit(crc, frames)
    ensures Receive(crc, s, Wire(frames)).held == []
    decreases |frames|
  {
    hide IsExit, Encode, OnByte, Receive;
    if frames == [] {
      ReceiveNothing(crc, s);
    } else {
      var x, rest := frames[0], frames[1..];
      assert x in frames && forall y :: y in rest ==> y in frames;
      ReceivesFrame(crc, s, x);
      SplitReads(crc, s, Encode(x) + [0], Wire(rest));
      var next := Receive(crc, s, Encode(x) + [0]);
      if IsExit(crc, x) {
        LeftBinaryMode(crc, next, Wire(rest));
      } else {
        FramesRecovered(crc, next, rest);
        OneMoreHandled(s.handled, x, UntilExit(crc, rest));
      }
    }
  }

  /** Whatever was held before, for instance from a session that timed out, is gone after the next zero: from there
      on frames are recovered exactly. */
  lemma {:induction false} Resynchronises(crc: Checksummer, s: Link, junk: seq<u8>, frames: seq<seq<u8>>)
    requires forall x :: x in frames ==> Sendable(x)
    requires Receive(crc, s, junk + [0]).binary
    ensures Receive(crc, s, junk + [0] + Wire(frames)).handled ==
            Receive(crc, s, junk + [0]).handled + UntilExit(crc, frames)
  {
    SplitReads(crc, s, junk, [0]);
    SplitReads(crc, s, junk + [0], Wire(frames));
    assert [0][1..] == [];
    FramesRecovered(crc, Receive(crc, s, junk + [0]), frames);
  }

  // ---------- Bytes left over from an earlier session ----------

  /** The next frame is handed over as it was sent, or ends binary mode. */
  ghost predicate NextExact(crc: Checksummer, s: Link, x: seq<u8>) {
    Receive(crc, s, Encode(x) + [0]) ==
    if IsExit(crc, x) then Link([], s.handled, false) else Link([], s.handled + [x], true)
  }

  /** What is held never contains a zero and never exceeds the buffer. */
  ghost predicate Held(s: Link) { |s.held| <= RPC_ENCODED_MAX && ZeroFree(s.held) }

  lemma {:induction false} HeldAlways(crc: Checksummer, s: Link, bytes: seq<u8>)
    requires Held(s)
    ensures Held(Receive(crc, s, bytes))
    decreases |bytes|
  {
    hide Decoded, IsExit;
    if bytes != [] {
      HeldAlways(crc, OnByte(crc, s, bytes[0]), bytes[1..]);
    }
  }

  /** Before that zero they are not: the next frame gets through whatever it is if and only if nothing is held. */
  lemma {:induction false} StaleBytes(crc: Checksummer, s: Link)
    requires s.binary && Held(s)
    ensures s.held == [] <==> forall x :: Sendable(x) ==> NextExact(crc, s, x)
  {
    hide Receive, IsExit, Encode;
    if s.held == [] {
      forall x | Sendable(x) ensures NextExact(crc, s, x) {
        ReceivesFrame(crc, s, x);
      }
    } else {
      var x := Zeros(16);
      ZerosLost(crc, s);
      assert Sendable(x) && !NextExact(crc, s, x);
    }
  }

  function Zeros(n: nat): (s: seq<u8>) { seq(n, _ => 0) }

  function Ones(n: nat): (s: seq<u8>) { seq(n, _ => 1) }

  /** Sixteen zeros, sent as seventeen ones, are the frame that never survives. */
  lemma ZerosLost(crc: Checksummer, s: Link)
    requires s.binary && Held(s) && s.held != []
    ensures !NextExact(crc, s, Zeros(16))
  {
    hide Receive, Encode, IsExit, Decoded;
    var x := Zeros(16);
    EncodeZeros(16);
    SplitReads(crc, s, Ones(17), [0]);
    ReceiveOne(crc, Receive(crc, s, Ones(17)), 0);
    ZerosNoExit(crc);
    var held := CollectOnes(crc, s, 17);
    DecodedZeros(held);
    assert |s.handled + [x]| == |s.handled| + 1;
    assert (s.handled + [Decoded(held)])[|s.handled|] == Decoded(held) && (s.handled + [x])[|s.handled|] == x;
  }

  lemma ZerosNoExit(crc: Checksummer)
    ensures !IsExit(crc, Zeros(16))
  {
  }

  lemma {:induction false} EncodeZeros(n: nat)
    ensures Encode(Zeros(n)) == Ones(n + 1)
    decreases n
  {
    if n > 0 {
      EncodeZeros(n - 1);
      assert Run(Zeros(n)) == 0;
      assert Zeros(n)[1..] == Zeros(n - 1);
    }
  }

  /** Ones are appended to what is held, or, when the buffer overflows on the way, fewer of them are left alone. */
  lemma {:induction false} CollectOnes(crc: Checksummer, s: Link, n: nat) returns (held: seq<u8>)
    requires s.binary && Held(s) && n <= 17
    ensures Receive(crc, s, Ones(n)) == s.(held := held) && ZeroFree(held)
    ensures |held| == |s.held| + n || |held| < n
    decreases n
  {
    hide Decoded, IsExit;
    if n == 0 {
      held := s.held;
    } else {
      assert Ones(n)[0] == 1 && Ones(n)[1..] == Ones(n - 1);
      held := CollectOnes(crc, OnByte(crc, s, 1), n - 1);
    }
  }

  /** Without zeros, only blocks of one byte decode to zeros alone. */
  lemma {:induction false} OnlyShortBlocks(e: seq<u8>)
    requires ZeroFree(e) && e != [] && Decode(e).Some?
    requires forall i :: 0 <= i < |Decode(e).value| ==> Decode(e).value[i] == 0
    ensures |Decode(e).value| == |e| - 1
    decreases |e|
  {
    var code := e[0];
    var block, rest := e[1..code], e[code..];
    var tail, more := Separator(code, rest), Decode(rest).value;
    assert Decode(e).value == block + tail + more;
    assert |block| == code - 1 && ZeroFree(block) && ZeroFree(rest);
    AllZeros(block, tail, more);
    if rest != [] {
      OnlyShortBlocks(rest);
    }
  }

  lemma AllZeros(block: seq<u8>, tail: seq<u8>, more: seq<u8>)
    requires ZeroFree(block) && forall i :: 0 <= i < |block + tail + more| ==> (block + tail + more)[i] == 0
    ensures block == [] && forall i :: 0 <= i < |more| ==> more[i] == 0
  {
    var all := block + tail + more;
    assert block + (tail + more) == all;
    if block != [] {
      FirstNonzero(block, tail + more);
    }
    assert forall i :: 0 <= i < |more| ==> all[|block + tail| + i] == more[i];
  }

  lemma FirstNonzero(block: seq<u8>, rest: seq<u8>)
    requires block != [] && ZeroFree(block)
    ensures (block + rest)[0] != 0
  {
  }

  lemma DecodedZeros(e: seq<u8>)
    requires ZeroFree(e)
    ensures |e| != 17 ==> Decoded(e) != Zeros(16)
  {
    hide Decode;
    if Decoded(e) == Zeros(16) && e != [] {
      OnlyShortBlocks(e);
    }
    DecodeNothing();
  }

  // ---------- The receiving loop ----------

  class Receiver {
    const encoded: array<u8>
    var length: nat
    var handled: seq<seq<u8>>
    var binary: bool

    ghost predicate Valid()
      reads this, encoded
    {
      encoded.Length == RPC_ENCODED_MAX && length <= RPC_ENCODED_MAX
    }

    ghost function State(): Link
      requires Valid()
      reads this, encoded
    {
      Link(encoded[..length], handled, binary)
    }

    constructor ()
      ensures Valid() && fresh(encoded) && State() == Link([], [], false)
    {
      encoded := new u8[RPC_ENCODED_MAX];
      length, handled, binary := 0, [], false;
    }

    /** The binary branch of usb_task for one read: what it does is Receive, whatever the read returned. Leaving
        binary mode drops the rest of the read. */
    method HandleRead(crc: Checksummer, rx: seq<u8>)
      requires Valid()
      modifies this, encoded
      ensures Valid()
      ensures State() == Receive(crc, old(State()), rx)
    {
      hide Receive, IsExit;
      if !binary {
        LeftBinaryMode(crc, State(), rx);
        return;
      }
      ghost var start := State();
      assert rx[..0] == [];
      ReceiveNothing(crc, start);
      for i := 0 to |rx|
        invariant Valid() && binary
        invariant State() == Receive(crc, start, rx[..i])
      {
        ghost var before := State();
        assert rx[..i + 1] == rx[..i] + [rx[i]];
        SplitReads(crc, start, rx[..i], [rx[i]]);
        ReceiveOne(crc, before, rx[i]);
        if rx[i] == 0 {
          var decoded := new u8[RPC_FRAME_MAX];
          var decodedLength := CobsDecode(encoded[..length], decoded);
          length := 0;
          if decodedLength >= RPC_HEADER_SIZE {
            assert decoded[..decodedLength] == Decoded(before.held);
            if IsExit(crc, decoded[..decodedLength]) {
              binary := false;
              assert rx == rx[..i + 1] + rx[i + 1..];
              SplitReads(crc, start, rx[..i + 1], rx[i + 1..]);
              LeftBinaryMode(crc, Receive(crc, start, rx[..i + 1]), rx[i + 1..]);
              break;
            }
            handled := handled + [decoded[..decodedLength]];
          }
          assert State() == OnByte(crc, before, rx[i]);
        } else if length < encoded.Length {
          encoded[length] := rx[i];
          length := length + 1;
          assert State().held == before.held + [rx[i]];
        } else {
          length := 0;
        }
      }
      assert binary ==> rx[..|rx|] == rx;
    }
  }

  lemma ReceiveNothing(crc: Checksummer, s: Link)
    ensures Receive(crc, s, []) == s
  {
  }

  lemma ReceiveOne(crc: Checksummer, s: Link, b: u8)
    ensures Receive(crc, s, [b]) == OnByte(crc, s, b)
  {
    assert [b][1..] == [];
  }

  // ---------- Responding ----------

  function Half(n: u16): (s: seq<u8>)
    ensures |s| == 2
  {
    [n % 0x100, n / 0x100]
  }

  /** The stored header of a response to a request, for a payload within the limit. */
  function ResponseHeader(request: seq<u8>, status: u16, payloadLength: nat): (h: seq<u8>)
    requires |request| == RPC_HEADER_SIZE && payloadLength <= RPC_MAX_PAYLOAD
    ensures |h| == RPC_HEADER_SIZE
  {
    [1, RPC_KIND_RESPONSE] + request[2..4] + [0, 0] + Half(status) + request[8..12] + Half(payloadLength) + [0, 0]
  }

  function ResponseFrame(crc: Checksummer, request: seq<u8>, status: u16, payload: seq<u8>): (f: seq<u8>)
    requires |request| == RPC_HEADER_SIZE && |payload| <= RPC_MAX_PAYLOAD
    ensures |f| == RPC_HEADER_SIZE + |payload| + RPC_CRC_SIZE
  {
    var body := ResponseHeader(request, status, |payload|) + payload;
    body + crc(body)
  }

  // ---------- What the other side reads ----------

  function Number16(s: seq<u8>): nat
    requires |s| == 2
  {
    (s[0] as int) + 0x100 * (s[1] as int)
  }

  function Number32(s: seq<u8>): nat
    requires |s| == 4
  {
    Number16(s[..2]) + 0x1_0000 * Number16(s[2..])
  }

  /** The packed header structure, its fields in order, low bytes first. */
  datatype Header = Header(version: nat, kind: nat, operation: nat, flags: nat, status: nat, requestId: nat, payloadLength: nat)

  function ReadHeader(s: seq<u8>): Header
    requires |s| >= RPC_HEADER_SIZE
  {
    Header(s[0], s[1], Number16(s[2..4]), Number16(s[4..6]), Number16(s[6..8]), Number32(s[8..12]), Number32(s[12..16]))
  }

  /** A response answers its request: it carries the method (here `operation`) and the request ID, the status, the
      payload with its length, and the checksum of everything before it. */
  lemma ResponseAnswers(crc: Checksummer, request: seq<u8>, status: u16, payload: seq<u8>)
    requires |request| == RPC_HEADER_SIZE && |payload| <= RPC_MAX_PAYLOAD
    ensures
      var f := ResponseFrame(crc, request, status, payload);
      var (q, h) := (ReadHeader(request), ReadHeader(f));
      && h == Header(1, 2, q.operation, 0, status, q.requestId, |payload|)
      && |f| == 16 + h.payloadLength + 4 && f[16..16 + h.payloadLength] == payload
      && f[16 + h.payloadLength..] == crc(f[..16 + h.payloadLength])
  {
    var h := ResponseHeader(request, status, |payload|);
    HeaderAnswers(request, status, |payload|);
    var f := ResponseFrame(crc, request, status, payload);
    assert f[..16 + |payload|] == h + payload;
    assert forall i :: 0 <= i < 16 ==> f[i] == h[i];
    assert f[2..4] == h[2..4] && f[4..6] == h[4..6] && f[6..8] == h[6..8] && f[8..12] == h[8..12] && f[12..16] == h[12..16];
  }

  /** Binary mode ends by a control frame of operation 0, without payload and with a valid checksum, and by nothing else. */
  lemma ExitExactly(crc: Checksummer, d: seq<u8>)
    ensures IsExit(crc, d) <==>
      |d| == 20 && d[16..] == crc(d[..16]) &&
      var h := ReadHeader(d);
      h.version == 1 && h.kind == 3 && h.operation == 0 && h.payloadLength == 0
  {
    if |d| == 20 {
      assert d[2..4] == [d[2], d[3]] && d[12..16] == [d[12], d[13], d[14], d[15]];
      assert d[12..16][..2] == [d[12], d[13]] && d[12..16][2..] == [d[14], d[15]];
    }
  }

  lemma HeaderAnswers(request: seq<u8>, status: u16, n: nat)
    requires |request| == RPC_HEADER_SIZE && n <= RPC_MAX_PAYLOAD
    ensures ReadHeader(ResponseHeader(request, status, n)) ==
            Header(1, 2, ReadHeader(request).operation, 0, status, ReadHeader(request).requestId, n)
  {
    var h := ResponseHeader(request, status, n);
    assert h[2..4] == request[2..4] && h[4..6] == [0, 0] && h[6..8] == Half(status);
    assert h[8..12] == request[8..12] && h[12..16] == Half(n) + [0, 0];
  }

  /** rpc_send_response: an oversized payload becomes an empty INVALID response; the encoding always fits, so a
      response is always written, one zero at its end and none inside, and it decodes to the frame. */
  method SendResponse(crc: Checksummer, request: seq<u8>, status: u16, payload: seq<u8>) returns (wire: seq<u8>)
    requires |request| == RPC_HEADER_SIZE
    ensures |payload| <= RPC_MAX_PAYLOAD ==> wire == Wire([ResponseFrame(crc, request, status, payload)])
    ensures |payload| > RPC_MAX_PAYLOAD ==> wire == Wire([ResponseFrame(crc, request, RPC_ERR_INVALID, [])])
    ensures wire != [] && wire[|wire| - 1] == 0 && ZeroFree(wire[..|wire| - 1])
  {
    hide Encode;
    var sentStatus, sentPayload := status, payload;
    if |payload| > RPC_MAX_PAYLOAD {
      sentStatus, sentPayload := RPC_ERR_INVALID, [];
    }
    ghost var frame := ResponseFrame(crc, request, sentStatus, sentPayload);
    var raw := new u8[RPC_FRAME_MAX];
    var header := ResponseHeader(request, sentStatus, |sentPayload|);
    var n := |sentPayload| + RPC_HEADER_SIZE;
    forall k | 0 <= k < RPC_HEADER_SIZE {
      raw[k] := header[k];
    }
    forall k | RPC_HEADER_SIZE <= k < n {
      raw[k] := sentPayload[k - RPC_HEADER_SIZE];
    }
    assert raw[..n] == header + sentPayload;
    var sum := crc(raw[..n]);
    label summed:
    forall k | n <= k < n + RPC_CRC_SIZE {
      raw[k] := sum[k - n];
    }
    assert raw[..n] == old@summed(raw[..n]);
    assert raw[..n + RPC_CRC_SIZE] == frame;
    var encoded := new u8[RPC_ENCODED_MAX];
    EncodedFits(frame);
    NoZero(frame);
    var encodedLength := CobsEncode(raw[..n + RPC_CRC_SIZE], encoded, RPC_ENCODED_MAX - 1);
    assert encodedLength > 0; // the branch that would drop the response is never taken
    encoded[encodedLength] := 0;
    wire := encoded[..encodedLength + 1];
    assert wire == Encode(frame) + [0] && wire[..|wire| - 1] == Encode(frame);
    WireOne(frame);
  }

  lemma WireOne(frame: seq<u8>)
    ensures Wire([frame]) == Encode(frame) + [0]
  {
    assert [frame][1..] == [];
    assert Encode(frame) + [0] + [] == Encode(frame) + [0];
  }
}
