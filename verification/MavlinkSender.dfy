/** MAVLink frames as a sender builds them from their fields, after the MAVLink serialization format, and what the
    router's parser makes of them (components/airlink_router/airlink_mavlink.c). */
module MavlinkSender {
  import opened Bits
  import opened MavlinkParser
  import opened MavlinkFrame

  datatype Packet = Packet(sequence: u8, systemId: u8, componentId: u8, messageId: nat, payload: seq<u8>)

  /** What only version 2 frames have. */
  datatype Extras = Extras(incompatFlags: u8, compatFlags: u8, signature: seq<u8>)

  datatype Version = V1 | V2(extras: Extras)

  /** The message ID has eight bits in version 1 and twenty-four in version 2; a signature has thirteen bytes and is
      announced by the lowest incompatibility flag. */
  predicate Buildable(p: Packet, v: Version) {
    && |p.payload| < 0x100
    && match v {
         case V1 => p.messageId < 0x100
         case V2(x) => p.messageId < 0x100_0000 && |x.signature| == if x.incompatFlags % 2 == 1 then 13 else 0
       }
  }

  function Header(p: Packet, v: Version): (h: seq<u8>)
    requires Buildable(p, v)
  {
    match v
    case V1 => [0xFE, |p.payload|, p.sequence, p.systemId, p.componentId, p.messageId]
    case V2(x) =>
      [0xFD, |p.payload|, x.incompatFlags, x.compatFlags, p.sequence, p.systemId, p.componentId,
       p.messageId % 0x100, (p.messageId / 0x100) % 0x100, p.messageId / 0x1_0000]
  }

  function Signature(v: Version): seq<u8> { match v case V1 => [] case V2(x) => x.signature }

  /** Header, payload, checksum low byte first, signature. */
  function Built(p: Packet, v: Version, checksum: u16): seq<u8>
    requires Buildable(p, v)
  {
    Header(p, v) + p.payload + [checksum % 0x100, checksum / 0x100] + Signature(v)
  }

  /** The checksum of a message: over everything between marker and checksum, then the seed of the message. */
  function Checksum(accumulate: Accumulate, p: Packet, v: Version, seed: u8): u16
    requires Buildable(p, v)
  {
    Crc(accumulate, 0xFFFF, Header(p, v)[1..] + p.payload + [seed])
  }

  function Seed(p: Packet): Option<u8> { CrcExtra(CRC_EXTRAS, p.messageId) }

  predicate Intact(accumulate: Accumulate, p: Packet, v: Version, checksum: u16)
    requires Buildable(p, v)
  {
    Seed(p).Some? && checksum == Checksum(accumulate, p, v, Seed(p).value)
  }

  /** The heartbeat message: custom mode in four bytes, then type, autopilot, base mode, status and version; base mode's
      highest bit is the armed flag. Later fields may follow. */
  function HeartbeatPayload(customMode: seq<u8>, kind: u8, autopilot: u8, baseMode: u8, status: u8, version: u8, more: seq<u8>): seq<u8>
    requires |customMode| == 4
  {
    customMode + [kind, autopilot, baseMode, status, version] + more
  }

  lemma BuiltIsFrame(p: Packet, v: Version, checksum: u16)
    requires Buildable(p, v)
    ensures IsFrame(Built(p, v, checksum))
  {
  }

  lemma BuiltFields(p: Packet, v: Version, checksum: u16)
    requires Buildable(p, v)
    ensures
      var f := Built(p, v, checksum);
      && IsFrame(f) && HeaderLength(f) == |Header(p, v)| && PayloadLength(f) == |p.payload|
      && f[if f[0] == MARKER_V2 then 5 else 3] == p.systemId && f[if f[0] == MARKER_V2 then 6 else 4] == p.componentId
      && MessageId(f) == p.messageId && ReceivedCrc(f) == checksum
      && f[1..HeaderLength(f) + PayloadLength(f)] == Header(p, v)[1..] + p.payload
      && f[HeaderLength(f)..HeaderLength(f) + PayloadLength(f)] == p.payload
  {
    var f, h := Built(p, v, checksum), Header(p, v);
    var sum := [checksum % 0x100, checksum / 0x100];
    BuiltIsFrame(p, v, checksum);
    HeaderFields(p, v);
    Parts(h, p.payload, sum, Signature(v));
    hide Header, IsFrame, Signature;
  }

  lemma HeaderFields(p: Packet, v: Version)
    requires Buildable(p, v)
    ensures
      var h := Header(p, v);
      && |h| == (if v.V1? then 6 else 10) && h[0] == (if v.V1? then MARKER_V1 else MARKER_V2) && h[1] == |p.payload|
      && h[if v.V1? then 3 else 5] == p.systemId && h[if v.V1? then 4 else 6] == p.componentId
      && p.messageId == if v.V1? then h[5] as int else Word(h[7], h[8]) + 0x1_0000 * (h[9] as int)
  {
  }

  lemma Parts(h: seq<u8>, payload: seq<u8>, sum: seq<u8>, signature: seq<u8>)
    requires h != [] && |sum| == 2
    ensures
      var f := h + payload + sum + signature;
      && |f| >= |h| + |payload| + 2 && f[|h| + |payload|] == sum[0] && f[|h| + |payload| + 1] == sum[1]
      && f[1..|h| + |payload|] == h[1..] + payload && f[|h|..|h| + |payload|] == payload
      && forall i :: 0 <= i < |h| ==> f[i] == h[i]
  {
  }

  /** Whatever a sender puts into a frame, the parser reports: message, system and component; the checksum as valid
      exactly if it is right; and a heartbeat's type, autopilot and armed bit, exactly if the heartbeat is intact. */
  lemma BuiltDescribed(accumulate: Accumulate, p: Packet, v: Version, checksum: u16)
    requires Buildable(p, v)
    ensures IsFrame(Built(p, v, checksum))
    ensures
      var intact := Intact(accumulate, p, v, checksum);
      Describe(accumulate, Built(p, v, checksum)) ==
      Info(p.messageId, p.systemId, p.componentId, Seed(p).Some?, intact, Priority(p.messageId),
           if p.messageId == 0 && intact && |p.payload| >= 9
           then Some(Heartbeat(p.payload[4], p.payload[5], BitsOf(p.payload[6])[0])) else None)
  {
    hide CrcExtra, Priority, IsFrame, Crc, BitsOf;
    var f := Built(p, v, checksum);
    BuiltFields(p, v, checksum);
    hide Built, Header, MessageId, ReceivedCrc, Buildable, HeaderLength, PayloadLength;
    if p.messageId == 0 && CrcValid(accumulate, f) && |p.payload| >= 9 {
      var payload := f[HeaderLength(f)..];
      assert payload[..|p.payload|] == p.payload;
      HighestBit(p.payload[6]);
    }
  }

  lemma HighestBit(b: u8)
    ensures b >= 0x80 <==> BitsOf(b)[0]
  {
  }

  /** A heartbeat's fields come through. */
  lemma HeartbeatDescribed(accumulate: Accumulate, p: Packet, v: Version, customMode: seq<u8>, kind: u8, autopilot: u8, baseMode: u8,
                           status: u8, version: u8, more: seq<u8>, checksum: u16)
    requires |customMode| == 4 && p.messageId == 0
    requires p.payload == HeartbeatPayload(customMode, kind, autopilot, baseMode, status, version, more)
    requires Buildable(p, v) && Intact(accumulate, p, v, checksum)
    ensures IsFrame(Built(p, v, checksum))
    ensures
      var i := Describe(accumulate, Built(p, v, checksum));
      i.systemId == p.systemId && i.componentId == p.componentId &&
      i.heartbeat == Some(Heartbeat(kind, autopilot, BitsOf(baseMode)[0]))
  {
    hide CrcExtra, Describe, Built, Crc, BitsOf;
    BuiltDescribed(accumulate, p, v, checksum);
  }

  /** Every well-formed frame is one that a sender could have built. */
  lemma FrameBuilt(f: seq<u8>) returns (p: Packet, v: Version, checksum: u16)
    requires IsFrame(f)
    ensures Buildable(p, v) && f == Built(p, v, checksum)
  {
    var n := f[1] as int;
    if f[0] == MARKER_V1 {
      p, v := Packet(f[2], f[3], f[4], f[5], f[6..6 + n]), V1;
      checksum := Word(f[6 + n], f[7 + n]);
      WordBytes(f[6 + n], f[7 + n]);
      assert f == f[..6] + f[6..6 + n] + f[6 + n..8 + n] + [];
      assert f[..6] == Header(p, v);
    } else {
      var signature := f[12 + n..];
      p := Packet(f[4], f[5], f[6], Word(f[7], f[8]) + 0x1_0000 * (f[9] as int), f[10..10 + n]);
      v := V2(Extras(f[2], f[3], signature));
      checksum := Word(f[10 + n], f[11 + n]);
      WordBytes(f[10 + n], f[11 + n]);
      IdBytes(f[7], f[8], f[9]);
      assert f == f[..10] + f[10..10 + n] + f[10 + n..12 + n] + signature;
      assert f[..10] == Header(p, v);
    }
  }

  lemma WordBytes(low: u8, high: u8)
    ensures Word(low, high) % 0x100 == low && Word(low, high) / 0x100 == high
  {
  }

  lemma IdBytes(a: u8, b: u8, c: u8)
    ensures var id := Word(a, b) + 0x1_0000 * (c as int);
      id < 0x100_0000 && id % 0x100 == a && (id / 0x100) % 0x100 == b && id / 0x1_0000 == c
  {
  }

  /** A frame is dropped exactly if its message is known and its checksum is not that of its contents. */
  lemma AcceptableExactly(accumulate: Accumulate, p: Packet, v: Version, checksum: u16)
    requires Buildable(p, v)
    ensures IsFrame(Built(p, v, checksum))
    ensures Acceptable(Describe(accumulate, Built(p, v, checksum))) <==> Seed(p) == None || Intact(accumulate, p, v, checksum)
  {
    hide CrcExtra, Describe, Built, Crc, BitsOf;
    BuiltDescribed(accumulate, p, v, checksum);
  }
}
