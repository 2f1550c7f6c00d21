/** CAN frames, tail bytes, identifiers and the transfer CRC of the DroneCAN transport
    (components/airlink_can/libcanard/canard.c). */
module CanardFrame {
  import opened Bits

  /** Payload bytes of a classic CAN frame, and bytes a reception session keeps in its own block. */
  const FRAME_DATA_MAX := 8
  const HEAD_SIZE := 5
  const BLOCK_SIZE := 28
  const PAYLOAD_LEN_LIMIT := 1024

  /** The ten-bit payload length field of a session. */
  type Length = x: int | 0 <= x < PAYLOAD_LEN_LIMIT

  /** A 32-bit frame identifier: 29 identifier bits under the EFF, RTR and ERR flags. */
  type Id = x: int | 0 <= x < 0x1_0000_0000

  /** Local node identifier; 0 is the anonymous node. */
  type NodeId = x: int | 0 <= x < 0x80

  const FLAG_EFF: Id := 0x8000_0000

  predicate IsExtended(id: Id) { id / 0x8000_0000 == 1 }
  predicate IsRemote(id: Id) { (id / 0x4000_0000) % 2 == 1 }
  predicate IsError(id: Id) { (id / 0x2000_0000) % 2 == 1 }
  function CleanId(id: Id): Id { id % 0x2000_0000 }

  /** `data` holds the first data_len bytes of the C frame. */
  datatype Frame = Frame(id: Id, data: seq<u8>, iface: u8)

  // ---------- Tail byte ----------

  type Tid = x: int | 0 <= x < 32

  const START: u8 := 0x80
  const END: u8 := 0x40

  /** The flag bits, the toggle bit and the transfer ID occupy disjoint bits of the byte. */
  function TailByte(flags: u8, toggle: bool, tid: Tid): u8
    requires flags in {0, END, START, START + END}
  {
    flags + (if toggle then 0x20 else 0) + tid
  }

  predicate IsStart(tail: u8) { tail / 0x80 == 1 }
  predicate IsEnd(tail: u8) { (tail / 0x40) % 2 == 1 }
  predicate Toggle(tail: u8) { (tail / 0x20) % 2 == 1 }
  function TransferId(tail: u8): Tid { tail % 0x20 }

  lemma TailByteFields(flags: u8, toggle: bool, tid: Tid)
    requires flags in {0, END, START, START + END}
    ensures IsStart(TailByte(flags, toggle, tid)) == (flags >= START)
    ensures IsEnd(TailByte(flags, toggle, tid)) == (flags % START == END)
    ensures Toggle(TailByte(flags, toggle, tid)) == toggle
    ensures TransferId(TailByte(flags, toggle, tid)) == tid
  {
  }

  /** How far `a` lies ahead of `b` on the circle of 32 transfer IDs. */
  function ForwardDistance(a: Tid, b: Tid): Tid { (a - b) % 32 }

  function NextTid(tid: Tid): Tid { (tid + 1) % 32 }

  // ---------- Identifier fields ----------

  datatype TransferType = Response | Request | Broadcast

  function TransferTypeOf(id: Id): TransferType {
    if (id / 0x80) % 2 == 0 then Broadcast else if (id / 0x8000) % 2 == 1 then Request else Response
  }

  function SourceOf(id: Id): (n: nat)
    ensures n < 0x80
  {
    id % 0x80
  }

  function PriorityOf(id: Id): nat { (id / 0x100_0000) % 0x20 }
  function DestinationOf(id: Id): nat { if TransferTypeOf(id) == Broadcast then 0 else (id / 0x100) % 0x80 }

  /** Anonymous broadcasts carry only two data type bits. */
  function DataTypeOf(id: Id): (n: nat)
    ensures n < 0x1_0000
  {
    if TransferTypeOf(id) == Broadcast then
      if SourceOf(id) == 0 then (id / 0x100) % 4 else (id / 0x100) % 0x1_0000
    else (id / 0x1_0000) % 0x100
  }

  function TypeCode(t: TransferType): nat {
    match t case Response => 0 case Request => 1 case Broadcast => 2
  }

  /** Key of the reception session that a frame with this identifier belongs to. */
  function Descriptor(id: Id): nat {
    DataTypeOf(id) + TypeCode(TransferTypeOf(id)) * 0x1_0000 + SourceOf(id) * 0x4_0000 +
    DestinationOf(id) * 0x200_0000
  }

  /** The descriptor packs its four parts into disjoint bits, so equal descriptors mean equal parts. */
  lemma DescriptorInjective(a: Id, b: Id)
    ensures Descriptor(a) == Descriptor(b) <==>
      DataTypeOf(a) == DataTypeOf(b) && TransferTypeOf(a) == TransferTypeOf(b) &&
      SourceOf(a) == SourceOf(b) && DestinationOf(a) == DestinationOf(b)
  {
    if Descriptor(a) == Descriptor(b) {
      Packed(DataTypeOf(a), TypeCode(TransferTypeOf(a)), SourceOf(a), DestinationOf(a),
             DataTypeOf(b), TypeCode(TransferTypeOf(b)), SourceOf(b), DestinationOf(b));
    }
  }

  lemma Packed(a0: nat, a1: nat, a2: nat, a3: nat, b0: nat, b1: nat, b2: nat, b3: nat)
    requires a0 < 0x1_0000 && b0 < 0x1_0000 && a1 < 4 && b1 < 4 && a2 < 0x80 && b2 < 0x80
    requires a0 + a1 * 0x1_0000 + a2 * 0x4_0000 + a3 * 0x200_0000 == b0 + b1 * 0x1_0000 + b2 * 0x4_0000 + b3 * 0x200_0000
    ensures a0 == b0 && a1 == b1 && a2 == b2 && a3 == b3
  {
  }

  // ---------- Building identifiers ----------

  type Priority = x: int | 0 <= x < 32

  function BroadcastId(priority: Priority, dataTypeId: u16, source: NodeId): Id {
    priority * 0x100_0000 + dataTypeId * 0x100 + source
  }

  /** Anonymous broadcast: an even 15-bit discriminator stands where the upper data type bits would be. */
  function AnonymousId(priority: Priority, discriminator: nat, dataTypeId: u16): Id
    requires discriminator < 0x8000 && dataTypeId < 4
  {
    priority * 0x100_0000 + discriminator * 0x200 + dataTypeId * 0x100
  }

  /** The destination is shifted in as a byte, so its top bit lands on the request flag. */
  function ServiceId(priority: Priority, dataTypeId: u8, request: bool, destination: u8, source: NodeId): Id {
    priority * 0x100_0000 + dataTypeId * 0x1_0000 + (if request || destination >= 0x80 then 0x8000 else 0) +
    (destination % 0x80) * 0x100 + 0x80 + source
  }

  predicate PlainId(id: Id) { IsExtended(id) && !IsRemote(id) && !IsError(id) }

  lemma Plain(id: Id)
    requires id < 0x2000_0000
    ensures PlainId(id + FLAG_EFF)
  {
  }

  lemma DivMod(a: nat, unit: nat, q: nat)
    requires a < unit
    ensures (a + unit * q) / unit == q && (a + unit * q) % unit == a
  {
    var d := (a + unit * q) / unit - q;
    assert a + unit * q == unit * (q + d) + (a + unit * q) % unit;
    assert unit * (q + d) == unit * q + unit * d;
    NoWholeUnits(a, unit, d, (a + unit * q) % unit);
  }

  lemma NoWholeUnits(a: int, unit: int, d: int, b: int)
    requires 0 <= a < unit && 0 <= b < unit && a == unit * d + b
    ensures d == 0 && a == b
  {
    assert d >= 1 ==> unit * d >= unit;
    assert d <= -1 ==> unit * d + unit <= 0;
  }

  /** The identifier of a broadcast frame, cut at its byte boundaries and in its lowest byte. */
  lemma BroadcastDigits(priority: Priority, dataTypeId: u16, source: NodeId, id: nat)
    requires id == 0x8000_0000 + priority * 0x100_0000 + dataTypeId * 0x100 + source
    ensures id / 0x80 == 2 * (id / 0x100) && id % 0x80 == source
    ensures id / 0x100 == dataTypeId + 0x1_0000 * (priority + 0x80)
    ensures id / 0x100_0000 == priority + 0x80
  {
    var upper := dataTypeId + 0x1_0000 * (priority + 0x80);
    DivMod(source, 0x80, 2 * upper);
    DivMod(source, 0x100, upper);
    DivMod(source + 0x100 * dataTypeId, 0x100_0000, priority + 0x80);
  }

  lemma BroadcastIdFields(priority: Priority, dataTypeId: u16, source: NodeId)
    ensures BroadcastId(priority, dataTypeId, source) < 0x2000_0000
    ensures var id := BroadcastId(priority, dataTypeId, source) + FLAG_EFF;
      PlainId(id) && TransferTypeOf(id) == Broadcast && SourceOf(id) == source && PriorityOf(id) == priority &&
      DataTypeOf(id) == (if source == 0 then dataTypeId % 4 else dataTypeId)
  {
    hide PlainId;
    var id := BroadcastId(priority, dataTypeId, source) + FLAG_EFF;
    Plain(id - FLAG_EFF);
    BroadcastDigits(priority, dataTypeId, source, id);
    DivMod(0, 2, id / 0x100);
    DivMod(dataTypeId, 0x1_0000, priority + 0x80);
    DivMod(priority, 0x20, 4);
    LowestTwo(dataTypeId, priority + 0x80);
  }

  lemma LowestTwo(low: nat, high: nat)
    ensures (low + 0x1_0000 * high) % 4 == low % 4
  {
    DivMod(low % 4, 4, low / 4 + 0x4000 * high);
  }

  /** A receiver reads an anonymous frame's data type, and knows it has no source. */
  lemma AnonymousIdFields(priority: Priority, discriminator: nat, dataTypeId: u16)
    requires discriminator < 0x8000 && discriminator % 2 == 0 && dataTypeId < 4
    ensures AnonymousId(priority, discriminator, dataTypeId) < 0x2000_0000
    ensures var id := AnonymousId(priority, discriminator, dataTypeId) + FLAG_EFF;
      PlainId(id) && TransferTypeOf(id) == Broadcast && SourceOf(id) == 0 && PriorityOf(id) == priority &&
      DataTypeOf(id) == dataTypeId
  {
    hide PlainId, TransferTypeOf, PriorityOf;
    var word := discriminator * 2 + dataTypeId;
    assert AnonymousId(priority, discriminator, dataTypeId) == BroadcastId(priority, word, 0);
    BroadcastIdFields(priority, word, 0);
    DivMod(dataTypeId, 4, discriminator / 2);
  }

  /** A service identifier is read back as it was meant exactly when the destination is a node identifier. */
  lemma ServiceIdFields(priority: Priority, dataTypeId: u8, request: bool, destination: u8, source: NodeId)
    ensures ServiceId(priority, dataTypeId, request, destination, source) < 0x2000_0000
    ensures var id := ServiceId(priority, dataTypeId, request, destination, source) + FLAG_EFF;
      PlainId(id) && SourceOf(id) == source && PriorityOf(id) == priority && DataTypeOf(id) == dataTypeId &&
      (TransferTypeOf(id) == (if request then Request else Response) && DestinationOf(id) == destination
       <==> destination < 0x80)
  {
    var id := ServiceId(priority, dataTypeId, request, destination, source);
    Plain(id);
    var flag := if request || destination >= 0x80 then 1 else 0;
    ServiceFields(id + FLAG_EFF, priority, dataTypeId, flag, destination % 0x80, source);
  }

  lemma ServiceFields(id: Id, priority: Priority, dataTypeId: u8, flag: nat, destination: nat, source: NodeId)
    requires flag < 2 && destination < 0x80
    requires id == source + 0x80 + 0x100 * destination + 0x8000 * flag + 0x1_0000 * dataTypeId +
                   0x100_0000 * (priority + 0x80)
    ensures SourceOf(id) == source && (id / 0x80) % 2 == 1 && (id / 0x100) % 0x80 == destination
    ensures (id / 0x8000) % 2 == flag && (id / 0x1_0000) % 0x100 == dataTypeId && PriorityOf(id) == priority
  {
    var u4 := dataTypeId + 0x100 * (priority + 0x80);
    var u3 := flag + 2 * u4;
    var u2 := destination + 0x80 * u3;
    DivMod(source, 0x80, 1 + 2 * u2);
    DivMod(1, 2, u2);
    DivMod(source + 0x80, 0x100, u2);
    DivMod(destination, 0x80, u3);
    DivMod(source + 0x80 + 0x100 * destination, 0x8000, u3);
    DivMod(flag, 2, u4);
    DivMod(source + 0x80 + 0x100 * destination + 0x8000 * flag, 0x1_0000, u4);
    DivMod(dataTypeId, 0x100, priority + 0x80);
    DivMod(source + 0x80 + 0x100 * destination + 0x8000 * flag + 0x1_0000 * dataTypeId, 0x100_0000, priority + 0x80);
    DivMod(priority, 0x20, 4);
  }
}
