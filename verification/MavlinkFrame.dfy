/** What the router needs to know about a complete MAVLink frame (components/airlink_router/airlink_mavlink.c). */
module MavlinkFrame {
  import opened Bits
  import opened MavlinkParser

  // ---------- The checksum seeds of the known messages ----------

  datatype Extra = Extra(id: nat, crcExtra: u8)

  const EXTRAS_A: seq<Extra> := [
    Extra(0, 50), Extra(1, 124), Extra(2, 137), Extra(4, 237), Extra(11, 89),
    Extra(20, 214), Extra(21, 159), Extra(22, 220), Extra(23, 168), Extra(24, 24),
    Extra(25, 23), Extra(26, 170), Extra(27, 144), Extra(29, 115), Extra(30, 39),
    Extra(31, 246), Extra(32, 185), Extra(33, 104), Extra(35, 244), Extra(36, 222)
  ]

  const EXTRAS_B: seq<Extra> := [
    Extra(37, 212), Extra(38, 9), Extra(39, 254), Extra(40, 230), Extra(41, 28),
    Extra(42, 28), Extra(43, 132), Extra(44, 221), Extra(45, 232), Extra(46, 11),
    Extra(47, 153), Extra(51, 196), Extra(62, 183), Extra(65, 118), Extra(66, 148),
    Extra(69, 243), Extra(70, 124), Extra(73, 38), Extra(74, 20), Extra(75, 158)
  ]

  const EXTRAS_C: seq<Extra> := [
    Extra(76, 152), Extra(77, 143), Extra(82, 49), Extra(84, 143), Extra(86, 5),
    Extra(109, 185), Extra(110, 84), Extra(111, 34), Extra(125, 203), Extra(126, 220),
    Extra(147, 154), Extra(148, 178), Extra(152, 208), Extra(193, 71), Extra(230, 163),
    Extra(231, 105), Extra(241, 90), Extra(242, 104), Extra(245, 130), Extra(253, 83)
  ]

  const EXTRAS_D: seq<Extra> := [
    Extra(254, 46), Extra(256, 71), Extra(257, 131), Extra(258, 187), Extra(259, 92),
    Extra(260, 146), Extra(261, 179), Extra(262, 12), Extra(263, 133), Extra(264, 49),
    Extra(265, 26), Extra(266, 193), Extra(267, 35), Extra(268, 14), Extra(269, 109),
    Extra(270, 59), Extra(280, 70), Extra(281, 48), Extra(282, 123), Extra(283, 74)
  ]

  const EXTRAS_E: seq<Extra> := [
    Extra(284, 99), Extra(285, 137), Extra(286, 210), Extra(287, 1), Extra(288, 20),
    Extra(299, 19), Extra(301, 243), Extra(310, 28), Extra(311, 95), Extra(320, 243),
    Extra(321, 88), Extra(322, 243), Extra(323, 78), Extra(324, 132), Extra(330, 23),
    Extra(331, 91), Extra(332, 236), Extra(333, 231), Extra(334, 72), Extra(335, 225)
  ]

  const CRC_EXTRAS: seq<Extra> := EXTRAS_A + (EXTRAS_B + (EXTRAS_C + (EXTRAS_D + EXTRAS_E)))

  ghost predicate Ascending(table: seq<Extra>) {
    forall i, j :: 0 <= i < j < |table| ==> table[i].id < table[j].id
  }

  lemma AscendingJoined(a: seq<Extra>, b: seq<Extra>)
    requires Ascending(a) && Ascending(b)
    requires a != [] && b != [] && a[|a| - 1].id < b[0].id
    ensures Ascending(a + b) && (a + b)[0] == a[0]
  {
    forall i, j | 0 <= i < j < |a + b| ensures (a + b)[i].id < (a + b)[j].id {
      if i < |a| <= j {
        assert a[i].id <= a[|a| - 1].id < b[0].id <= b[j - |a|].id;
      }
    }
  }

  lemma RowAAscending()
    ensures Ascending(EXTRAS_A)
  {
  }

  lemma RowBAscending()
    ensures Ascending(EXTRAS_B)
  {
  }

  lemma RowCAscending()
    ensures Ascending(EXTRAS_C)
  {
  }

  lemma RowDAscending()
    ensures Ascending(EXTRAS_D)
  {
  }

  lemma RowEAscending()
    ensures Ascending(EXTRAS_E)
  {
  }

  lemma RowsMeet()
    ensures EXTRAS_A[|EXTRAS_A| - 1].id < EXTRAS_B[0].id && EXTRAS_B[|EXTRAS_B| - 1].id < EXTRAS_C[0].id
    ensures EXTRAS_C[|EXTRAS_C| - 1].id < EXTRAS_D[0].id && EXTRAS_D[|EXTRAS_D| - 1].id < EXTRAS_E[0].id
    ensures EXTRAS_A != [] && EXTRAS_B != [] && EXTRAS_C != [] && EXTRAS_D != [] && EXTRAS_E != []
  {
  }

  lemma FiveAscending(a: seq<Extra>, b: seq<Extra>, c: seq<Extra>, d: seq<Extra>, e: seq<Extra>)
    requires Ascending(a) && Ascending(b) && Ascending(c) && Ascending(d) && Ascending(e)
    requires a != [] && b != [] && c != [] && d != [] && e != []
    requires a[|a| - 1].id < b[0].id && b[|b| - 1].id < c[0].id
    requires c[|c| - 1].id < d[0].id && d[|d| - 1].id < e[0].id
    ensures Ascending(a + (b + (c + (d + e))))
  {
    hide Ascending;
    AscendingJoined(d, e);
    AscendingJoined(c, d + e);
    AscendingJoined(b, c + (d + e));
    AscendingJoined(a, b + (c + (d + e)));
  }

  /** The table is in order of message IDs, as the binary search needs. */
  lemma TableAscending()
    ensures Ascending(CRC_EXTRAS)
  {
    hide Ascending;
    RowAAscending();
    RowBAscending();
    RowCAscending();
    RowDAscending();
    RowEAscending();
    RowsMeet();
    FiveAscending(EXTRAS_A, EXTRAS_B, EXTRAS_C, EXTRAS_D, EXTRAS_E);
  }

  /** What the table says about a message. */
  function CrcExtra(table: seq<Extra>, id: nat): (r: Option<u8>)
    ensures r.Some? ==> Extra(id, r.value) in table
    ensures r.None? ==> forall i :: 0 <= i < |table| ==> table[i].id != id
  {
    if table == [] then None
    else if table[0].id == id then Some(table[0].crcExtra)
    else CrcExtra(table[1..], id)
  }

  lemma CrcExtraAt(table: seq<Extra>, id: nat, k: nat)
    requires Ascending(table) && k < |table| && table[k].id == id
    ensures CrcExtra(table, id) == Some(table[k].crcExtra)
  {
    var r := CrcExtra(table, id);
    assert r.Some?;
    var j :| 0 <= j < |table| && table[j] == Extra(id, r.value);
    assert j == k;
  }

  /** crc_extra_for: the binary search finds what the table says. */
  method CrcExtraFor(table: seq<Extra>, id: nat) returns (extra: Option<u8>)
    requires Ascending(table)
    ensures extra == CrcExtra(table, id)
  {
    hide CrcExtra;
    var low, high := 0, |table|;
    while low < high
      invariant low <= high <= |table|
      invariant forall i :: 0 <= i < low ==> table[i].id < id
      invariant forall i :: high <= i < |table| ==> id < table[i].id
    {
      var mid := low + (high - low) / 2;
      if table[mid].id == id {
        CrcExtraAt(table, id, mid);
        return Some(table[mid].crcExtra);
      }
      if table[mid].id < id {
        low := mid + 1;
      } else {
        high := mid;
      }
    }
    return None;
  }

  // ---------- What a frame says ----------

  /** The checksum of the MAVLink frame format takes in one byte at a time, by whatever bit arithmetic. */
  type Accumulate = (u8, u16) -> u16

  const CRC_START: u16 := 0xFFFF

  function Crc(accumulate: Accumulate, start: u16, bytes: seq<u8>): u16 {
    if bytes == [] then start
    else accumulate(bytes[|bytes| - 1], Crc(accumulate, start, bytes[..|bytes| - 1]))
  }

  datatype Info = Info(messageId: nat, systemId: u8, componentId: u8, known: bool, crcValid: bool,
                       high: bool, heartbeat: Option<Heartbeat>)

  datatype Heartbeat = Heartbeat(kind: u8, autopilot: u8, armed: bool)

  const HEARTBEAT_ID := 0
  const HEARTBEAT_PAYLOAD := 9
  const AUTOPILOT_INVALID := 8
  const PRIMARY_AUTOPILOT := 1

  /** Two bytes, the low one first. */
  function Word(low: u8, high: u8): u16 { (low as int) + 0x100 * (high as int) }

  function HeaderLength(f: seq<u8>): nat
    requires f != []
  {
    if f[0] == MARKER_V2 then 10 else 6
  }

  function PayloadLength(f: seq<u8>): nat
    requires IsFrame(f)
  {
    f[1]
  }

  function MessageId(f: seq<u8>): nat
    requires IsFrame(f)
  {
    if f[0] == MARKER_V2 then Word(f[7], f[8]) + 0x1_0000 * (f[9] as int) else f[5]
  }

  /** The checksum sent with the frame, after the payload and in front of any signature. */
  function ReceivedCrc(f: seq<u8>): u16
    requires IsFrame(f)
  {
    var at := HeaderLength(f) + PayloadLength(f);
    Word(f[at], f[at + 1])
  }

  /** The checksum covers everything after the marker and the seed of the message. */
  function ComputedCrc(accumulate: Accumulate, f: seq<u8>, extra: u8): u16
    requires IsFrame(f)
  {
    Crc(accumulate, CRC_START, f[1..HeaderLength(f) + PayloadLength(f)] + [extra])
  }

  predicate Priority(id: nat) {
    || id in {11, 23, 69, 70, 75, 76, 77, 66, 82, 84, 86, 110}
    || 37 <= id <= 51 || 282 <= id <= 288
  }

  predicate CrcValid(accumulate: Accumulate, f: seq<u8>)
    requires IsFrame(f)
  {
    var extra := CrcExtra(CRC_EXTRAS, MessageId(f));
    extra.Some? && ComputedCrc(accumulate, f, extra.value) == ReceivedCrc(f)
  }

  /** A heartbeat counts only when its checksum is valid and its payload complete. */
  function HeartbeatOf(accumulate: Accumulate, f: seq<u8>): Option<Heartbeat>
    requires IsFrame(f)
  {
    if MessageId(f) == HEARTBEAT_ID && CrcValid(accumulate, f) && PayloadLength(f) >= HEARTBEAT_PAYLOAD then
      var payload := f[HeaderLength(f)..];
      Some(Heartbeat(payload[4], payload[5], payload[6] >= 0x80))
    else None
  }

  /** The three fields lie at offsets 4, 5 and 6 of the payload. */
  lemma HeartbeatFields(accumulate: Accumulate, f: seq<u8>)
    requires IsFrame(f)
    ensures HeartbeatOf(accumulate, f) ==
            if MessageId(f) == HEARTBEAT_ID && CrcValid(accumulate, f) && PayloadLength(f) >= HEARTBEAT_PAYLOAD
            then Some(Heartbeat(f[HeaderLength(f) + 4], f[HeaderLength(f) + 5], f[HeaderLength(f) + 6] >= 0x80))
            else None
  {
    hide MessageId, CrcValid;
  }

  function Describe(accumulate: Accumulate, f: seq<u8>): Info
    requires IsFrame(f)
  {
    Info(MessageId(f), f[if f[0] == MARKER_V2 then 5 else 3], f[if f[0] == MARKER_V2 then 6 else 4],
         CrcExtra(CRC_EXTRAS, MessageId(f)).Some?, CrcValid(accumulate, f), Priority(MessageId(f)),
         HeartbeatOf(accumulate, f))
  }

  /** A frame is dropped only for a checksum known to be wrong; messages of unknown dialects pass. */
  predicate Acceptable(i: Info) { !i.known || i.crcValid }

  /** A heartbeat of the primary autopilot component. */
  predicate IsAutopilot(i: Info) {
    i.heartbeat.Some? && i.componentId == PRIMARY_AUTOPILOT && i.heartbeat.value.autopilot != AUTOPILOT_INVALID
  }

  // ---------- The parser object ----------

  class Parser {
    const buffer: array<u8>
    var length: nat
    var expected: nat
    var errors: u32

    ghost predicate Valid()
      reads this, buffer
    {
      && buffer.Length == MAX_FRAME_SIZE && length < MAX_FRAME_SIZE
      && Unfinished(buffer[..length]) && expected == Expected(buffer[..length])
    }

    ghost function Held(): seq<u8>
      requires length <= buffer.Length
      reads this, buffer
    {
      buffer[..length]
    }

    constructor ()
      ensures Valid() && fresh(buffer) && Held() == [] && errors == 0
    {
      buffer := new u8[MAX_FRAME_SIZE];
      length, expected, errors := 0, 0, 0;
    }

    /** The checksum loop of finish_frame. */
    method CheckCrc(accumulate: Accumulate, crcOffset: nat, extra: u8) returns (valid: bool)
      requires length <= buffer.Length && IsFrame(buffer[..length])
      requires crcOffset == HeaderLength(buffer[..length]) + PayloadLength(buffer[..length])
      ensures valid == (ComputedCrc(accumulate, buffer[..length], extra) == ReceivedCrc(buffer[..length]))
    {
      ghost var f := buffer[..length];
      var crc := CRC_START;
      assert f[1..1] == [];
      for i := 1 to crcOffset
        invariant crc == Crc(accumulate, CRC_START, f[1..i])
      {
        assert f[1..i + 1] == f[1..i] + [buffer[i]];
        crc := accumulate(buffer[i], crc);
      }
      assert (f[1..crcOffset] + [extra])[..crcOffset - 1] == f[1..crcOffset];
      crc := accumulate(extra, crc);
      var received := Word(buffer[crcOffset], buffer[crcOffset + 1]);
      valid := crc == received;
    }

    /** finish_frame: the checksum and the fields, read from the buffer that holds the frame. */
    method FinishFrame(accumulate: Accumulate) returns (info: Info)
      requires length <= buffer.Length && IsFrame(buffer[..length])
      modifies this`errors
      ensures info == Describe(accumulate, old(buffer[..length]))
      ensures errors == if info.known && !info.crcValid && old(errors) < 0xFFFF_FFFF then old(errors) + 1 else old(errors)
    {
      hide CrcExtra, Priority, Ascending, ComputedCrc, ReceivedCrc, Word, HeartbeatOf;
      ghost var f := buffer[..length];
      HeartbeatFields(accumulate, f);
      var v2 := buffer[0] == MARKER_V2;
      var payloadLength := buffer[1];
      var headerLength := if v2 then 10 else 6;
      var crcOffset := headerLength + payloadLength;
      var messageId := if v2 then Word(buffer[7], buffer[8]) + 0x1_0000 * (buffer[9] as int) else buffer[5];
      assert messageId == MessageId(f) && headerLength == HeaderLength(f) && payloadLength == PayloadLength(f);
      TableAscending();
      var extra := CrcExtraFor(CRC_EXTRAS, messageId);
      var crcValid := false;
      if extra.Some? {
        crcValid := CheckCrc(accumulate, crcOffset, extra.value);
        if !crcValid && errors != 0xFFFF_FFFF {
          errors := errors + 1;
        }
      }
      assert crcValid == CrcValid(accumulate, f);
      var heartbeatValid := messageId == HEARTBEAT_ID && extra.Some? && crcValid && payloadLength >= HEARTBEAT_PAYLOAD;
      var heartbeat := None;
      if heartbeatValid {
        heartbeat := Some(Heartbeat(buffer[headerLength + 4], buffer[headerLength + 5], buffer[headerLength + 6] >= 0x80));
      }
      info := Info(messageId, if v2 then buffer[5] else buffer[3], if v2 then buffer[6] else buffer[4],
                   extra.Some?, crcValid, Priority(messageId), heartbeat);
    }

    /** airlink_mavlink_parse_byte: takes one byte, and reports a frame exactly when it completes one. */
    method ParseByte(accumulate: Accumulate, b: u8) returns (info: Option<Info>, frame: seq<u8>)
      requires Valid()
      modifies this, buffer
      ensures Valid()
      ensures
        var p := OnByte(old(Held()), b);
        && Held() == p.held
        && (p.frames == [] ==> info == None)
        && (p.frames != [] ==> p.frames == [frame] && IsFrame(frame) && info == Some(Describe(accumulate, frame)))
    {
      hide CrcExtra, Priority, Describe;
      ghost var held := Held();
      UnfinishedKept(held, b);
      info, frame := None, [];
      if length == 0 {
        if !IsMarker(b) {
          return;
        }
        buffer[0] := b;
        length := 1;
        assert Held() == [b];
        return;
      }
      assert length < buffer.Length; // the branch that discards a full buffer is never taken
      buffer[length] := b;
      length := length + 1;
      assert Held() == held + [b];
      if length == 2 {
        expected := (if buffer[0] == MARKER_V2 then 12 else 8) + b;
      } else if buffer[0] == MARKER_V2 && length == 3 && b % 2 == 1 {
        expected := expected + SIGNATURE_SIZE;
      }
      assert expected == Expected(held + [b]);
      if expected != 0 && length == expected {
        var described := FinishFrame(accumulate);
        info, frame := Some(described), buffer[..length];
        length, expected := 0, 0;
      }
    }
  }
}
