# AirLink in Dafny

AirLink is firmware for an ESP32-C5 telemetry bridge. This project models the parts of it whose correctness is
hard to see from the code, and proves what they promise. `dafny verify dfyconfig.toml` checks everything.

Code that changes state in place is modelled by classes and arrays with the same fields and loops, and each method
is proved to do what a function on plain values says; the theorems are about those functions and about every run
of the state machines they make up.

**libcanard transport** (`TransferCrc`, `CanardFrame`, `CanardLists`, `CanardTxQueue`, `CanardTransport`,
`CanardPool`, `CanardModel`, `CanardStorage`, `CanardPoolFacts`, `CanardInstance`, `CanardSystem`, `CanardTraffic`,
`CanardWire`, `CanardRun`). `CanardInstance` holds the arena as one array of blocks linked by indices. A ghost map
says which list owns each block, so that free list, transmit queue, sessions, their chunk chains and the chain lent to
the application are disjoint and make up the arena. `CanardWire` says in transmitted bits what identifiers, tail bytes
and arbitration are. `CanardModel` is the same instance as a value, and `CanardRun` takes the object through whole
runs. A session counts its bytes in ten bits; once the count has overflowed, the bytes it shows depend on the history
of the memory and come with the frame as `Moment.memory`, while lengths, blocks and return codes stay exact. The head
of a session holds 5 bytes and a block 28, as on the 32-bit target. The protocol is section 4 of the DroneCAN (UAVCAN
v0) specification.

**Bit-level codec** (`BitArrays`, `Scalars`, `ScalarCodec`, `Targetted`). Bit strings are sequences of booleans, most
significant bit first; the bit-copying and scalar routines are loops over byte arrays and over the scattered payload
of a received transfer. Serialization and tail array optimization follow section 3 of that specification.

**Mesh** (`ReplayWindow`, `OtaStream`, `MeshOtaNode`, `MeshOtaRoot`, `MeshOtaFleet`, `MeshOtaSafety`,
`MeshOtaProgress`, `MeshOtaWedge`, `MeshActivation`, `MeshConfigStore`, `MeshTransaction`, `MeshTransactionProgress`).
Root and nodes are state machines, and the network is a multiset of packets that can be delivered in any order, or
lost. Safety holds over every run; the progress modules show that runs without obstacles reach their end.
Authenticated encryption is taken as ideal: what arrives was sent. A digest stands for the one image that has it.

**Durable configuration** (`ConfigStore`, `MeshConfigStore`). A flash slot reads as a record or as nothing; a write
may leave it as it was, complete it, or damage it.

**Byte streams** (`EscapeMatcher`, `Cobs`, `RpcLink`, `MavlinkParser`, `MavlinkFrame`, `MavlinkSender`,
`MavlinkChecksum`, `RouterModel`, `RouterLatch`, `RouterDelivery`, `RouterObject`, `Tunnel`, `TunnelLink`,
`MarkerScan`). Byte-at-a-time machines are functions on what they hold, and classes that do the same in their buffers.
`TunnelLink` puts queues, Targetted messages and CAN transfers together.

## What the code does not keep

Each of these is a lemma, with the exact condition where the property holds.

- A transfer of more than 1027 bytes is never delivered as it was sent: the session's ten-bit length overflows, and the
  CRC, computed from the frames, does not notice (`CanardTransport.TransferReceived`, `CanardTransport.StreamReceived`,
  `CanardSystem.InterleavedTransfer`; 1028 bytes become four in `CanardTransport.OverflowDelivers`).
- A transfer that meets the first frame of another one with the same transfer ID loses its own first frame to it
  (`CanardTransport.MixedUp`).
- A transfer whose length with the CRC exceeds 16 bits can be queued in part (`CanardSystem.AllOrNothing`,
  `CanardSystem.TornTransfer`).
- A service destination of 128 or more changes the meaning of the CAN identifier (`CanardFrame.ServiceIdFields`).
- The Targetted decoder's length inference is right for 6 to 126 bytes only (`Targetted.InferredLength`). The decoder
  refuses every other length (`Targetted.Decode`): by the array bound, or, where the truncated length happens to pass
  it, as for 262 to 382 bytes, because the length read does not make up the payload.
- A packet is accepted again once more than three other sessions of its source came in between
  (`ReplayWindow.OldSession`, `ReplayWindow.FiveSessions`).
- An abort leaves the node idle with an image still staged exactly if that image had been verified
  (`MeshOtaWedge.AbortWedges`), and such a node refuses every later update until it restarts
  (`MeshOtaWedge.AcceptedUnlessStaged`, `MeshOtaWedge.RefusedUntilRestart`; `MeshOtaWedge.WedgedReachable` is a run
  that gets there); a safety gate that closes during activation does the same to the root
  (`MeshActivation.ActivationTask`).
- A node whose layer is not 1 to 4 is left out of activation without notice (`MeshActivation.EachTargetOnce`).
- A mesh configuration write survives power loss exactly if its generation has the other parity
  (`MeshConfigStore.CrashSafeWrite`); two-phase commits may skip generations.
- An update tried again before any generation has grown is the same transaction as the one given up, so that both its
  abort and its commit can be under way (`MeshTransaction.RetriedBoth`); with a new pair of generation and digest each
  time that never happens (`MeshTransaction.NeverBoth`).
- A save at the last configuration generation overwrites the only good record (`ConfigStore.SaveSafe`).
- Bytes held when USB binary mode times out stay in front of the next session's first frame, which is handed over
  exactly, whatever it is, if and only if there are none (`RpcLink.StaleBytes`).

## Model

| member | source | states |
|---|---|---|
| `TransferCrc.CrcAddByte` | components/airlink_can/libcanard/canard.c:1853-1868 | The loop that XORs a whole byte in and shifts eight times gives the same register as feeding its bits one at a time, most significant first. |
| `TransferCrc.CrcAdd` | components/airlink_can/libcanard/canard.c:1879-1886 | The byte loop gives the CRC of the whole sequence. |
| `TransferCrc.CrcConcat` | components/airlink_can/libcanard/canard.c:564-581 | Continuing the CRC piece by piece, as the receiver does per frame, gives the CRC of the concatenation. |
| `TransferCrc.CrcBytesRoundTrip` | components/airlink_can/libcanard/canard.c:1243-1249 | The two CRC bytes in front of a multi-frame payload are read back as the register they were written from. |
| `TransferCrc.CrcIsRemainder` | components/airlink_can/libcanard/canard.c:1853-1868 | The CRC is what division by x^16 + x^12 + x^5 + 1 leaves of the message with sixteen zeros behind it, the initial register added to its first sixteen bits: that dividend is a multiple of the generator plus the register. |
| `TransferCrc.RemainderUnique` | components/airlink_can/libcanard/canard.c:1853-1868 | Quotient and remainder of that division are unique, so the register is the remainder. |
| `CanardFrame.TailByteFields` | components/airlink_can/libcanard/canard.c:1259-1263 | Start, end, toggle and transfer ID are read from the tail byte exactly as they were put in. |
| `CanardFrame.DescriptorInjective` | components/airlink_can/libcanard/canard.c:426-430 | Two frames have the same session descriptor if and only if data type, transfer type, source and destination all agree. |
| `CanardFrame.BroadcastIdFields` | components/airlink_can/libcanard/canard.c:182-228 | Every field of a broadcast identifier is read back; the data type loses its upper bits exactly for an anonymous source. |
| `CanardFrame.AnonymousIdFields` | components/airlink_can/libcanard/canard.c:195-214 | An anonymous identifier, with an even discriminator, is read back with its data type and no source. |
| `CanardFrame.ServiceIdFields` | components/airlink_can/libcanard/canard.c:355-385 | A service identifier keeps kind and destination if and only if the destination is below 128; priority, type and source always survive. |
| `CanardWire.BroadcastIdBits` | components/airlink_can/libcanard/canard.c:182-228 | The 29 bits of a broadcast identifier, most significant first: priority, data type, service bit clear, source. |
| `CanardWire.AnonymousIdBits` | components/airlink_can/libcanard/canard.c:195-214 | The same for an anonymous sender: discriminator, two bits of data type and source 0. |
| `CanardWire.ServiceIdBits` | components/airlink_can/libcanard/canard.c:355-385 | The bits of a service identifier: priority, type, request bit, destination, service bit set, source. |
| `CanardWire.TailByteBits` | components/airlink_can/libcanard/canard.c:1259-1263 | Start, end and toggle are the three highest bits of the tail byte, the transfer ID the five others. |
| `CanardTraffic.SentIsTold` | components/airlink_can/libcanard/canard.c:516-533 | Whoever receives a frame that a send request put into the queue is told the data type, priority, node and transfer ID the sender gave, and for service calls its kind and destination. |
| `CanardTxQueue.PrecedesAsymmetric` | components/airlink_can/libcanard/canard.c:1352-1390 | The arbitration comparison never holds in both directions. |
| `CanardTxQueue.PrecedesTransitive` | components/airlink_can/libcanard/canard.c:1352-1390 | Among identifiers that need not wait for each other the comparison chains, so arbitration order is an order. |
| `CanardWire.PrecedesIsArbitration` | components/airlink_can/libcanard/canard.c:1352-1390 | The comparison is bus arbitration: one frame must leave before another if and only if its transmitted arbitration field, IDE and RTR bits included, is dominant at the first difference. |
| `CanardTxQueue.InsertSorted` | components/airlink_can/libcanard/canard.c:1289-1333 | Inserting keeps the queue in arbitration order. |
| `CanardTxQueue.InsertMembers` | components/airlink_can/libcanard/canard.c:1289-1333 | Inserting adds exactly the new frame. |
| `CanardTxQueue.InsertSelect` | components/airlink_can/libcanard/canard.c:1289-1333 | Among frames of one identifier the new one comes last; frames of any other identifier keep their order. |
| `CanardTxQueue.InsertAllOrder` | components/airlink_can/libcanard/canard.c:1233-1280 | Pushing the frames of a transfer one by one appends them, in order, to those queued with the same identifier. |
| `CanardTxQueue.RunOrdered` | components/airlink_can/libcanard/canard.c:1289-1390 | Over any interleaving of pushes and pops the queue stays sorted, and for each identifier the frames that left followed by those still queued are exactly the frames that entered, in order: transfers with one identifier never interleave. |
| `CanardTxQueue.PopsHighest` | components/airlink_can/libcanard/canard.c:387-401 | The frame that leaves next is one that no queued frame must leave before. |
| `CanardWire.HeadWinsArbitration` | components/airlink_can/libcanard/canard.c:387-401 | In a sorted queue no waiting frame would win arbitration against the one that leaves next. |
| `CanardWire.UrgentFirst` | components/airlink_can/libcanard/canard.c:1289-1333 | In a sorted queue of extended data frames a smaller priority value stands in front of a larger one. |
| `CanardTraffic.TrafficOrdered` | components/airlink_can/libcanard/canard.c:1233-1333 | Over any run of an instance the queue stays in arbitration order, and for each identifier the frames that left, followed by those still queued, are those queued before followed by those its send requests brought in, in order. |
| `CanardTraffic.ConsecutiveIds` | components/airlink_can/libcanard/canard.c:216-226 | Whatever else a node does, and whichever broadcasts fail, those of its broadcasts that are queued carry consecutive transfer IDs modulo 32. |
| `CanardTraffic.BroadcastsReceived` | components/airlink_can/libcanard/canard.c:403-669 | From sender to receiver: a node's accepted broadcasts of one data type, their frames arriving in order and in time, are delivered exactly as they were sent if and only if none has more than 1027 bytes. |
| `CanardLists.LinkedDeterministic` | components/airlink_can/libcanard/canard.c:1482-1494 | Memory and a head pointer determine the list. |
| `CanardLists.LinkedNoDuplicates` | components/airlink_can/libcanard/canard.c:1891-1960 | A list that reaches NULL visits no block twice, so the library's lists are acyclic. |
| `CanardLists.LinkedInsert` | components/airlink_can/libcanard/canard.c:1305-1332 | Linking one block between a list and its continuation changes the list at that place only. |
| `CanardLists.LinkedRemove` | components/airlink_can/libcanard/canard.c:671-700 | Unlinking one block leaves the rest of the list as it was. |
| `CanardTransport.MultiFrameCount` | components/airlink_can/libcanard/canard.c:1223-1240 | A multi-frame transfer consists of its length with the CRC divided by seven, rounded up; the sender computes this in 16 bits, which CanardSystem.AllOrNothing takes into account. |
| `CanardTransport.FirstNotMidway` | components/airlink_can/libcanard/canard.c:474-502 | A first frame on the session's interface is taken without restart only when no chunk is in use, so no chunk is overwritten. |
| `CanardTransport.OpensExactly` | components/airlink_can/libcanard/canard.c:474-502 | Which transfers a session takes up, told by times, interface and IDs alone: an unused one, or one silent for two seconds, any; on another interface after one second and only forward; with chunks in use any; between transfers any but the one just received; after only a first frame any but that one, which it takes again after a second, and the one before. |
| `CanardTransport.ContinuesExactly` | components/airlink_can/libcanard/canard.c:474-514 | A frame other than a first one starts a session over if and only if the session is unused or has been silent for two seconds. |
| `CanardTransport.CollectRest` | components/airlink_can/libcanard/canard.c:569-668 | From a session in the middle of a transfer whose last frame starts within the ten-bit length field, with enough free blocks, the remaining frames deliver it byte for byte. |
| `CanardTransport.StarvedRest` | components/airlink_can/libcanard/canard.c:556-578 | With fewer blocks than the chunks of such a transfer need, it is given up on the way and nothing is delivered. |
| `CanardTransport.TransferReceived` | components/airlink_can/libcanard/canard.c:403-669 | Segmentation and reassembly undo each other: the frames of a transfer, fed in order within two seconds of the first, deliver the payload exactly once and byte for byte if and only if the session welcomes the first frame (stated over times, interface, transfer IDs and the session's chunks), the pool has the blocks the transfer needs and it has at most 1027 bytes; then all blocks come back. A longer one is delivered, if at all, with another length. Excluded is a session that holds the first frame of another transfer while no restart is due. |
| `CanardTransport.MixedUp` | components/airlink_can/libcanard/canard.c:474-669 | In that excluded case the new first frame is ignored. With another transfer ID the new transfer is lost. With the same ID, a full first frame being held, enough blocks free and at most 1027 bytes, its rest completes the old transfer, and the mixture is delivered if and only if it has the old transfer's CRC. |
| `CanardTransport.OverflowDelivers` | components/airlink_can/libcanard/canard.c:1551-1645 | A transfer of 1028 bytes reaches an awaiting session with enough blocks as a payload of four bytes, CRC and all. |
| `CanardTransport.StreamReceived` | components/airlink_can/libcanard/canard.c:403-669 | A stream of consecutive transfers, of any priorities, arrives as exactly the payloads sent, in order, if and only if none of them has more than 1027 bytes. |
| `CanardTransport.LossesCostNothingElse` | components/airlink_can/libcanard/canard.c:479-502 | When whole transfers of a stream are lost on the bus, fewer than 31 in a row, all that arrive are delivered exactly as they were sent and in order, and no block is lost, as long as none has more than 1027 bytes and blocks are free. |
| `CanardTransport.StartedOver` | components/airlink_can/libcanard/canard.c:474-539 | A session that holds the first frame of this very transfer and sees it start over delivers the payload exactly once, if and only if it has at most 1027 bytes. |
| `CanardTransport.RepeatIgnored` | components/airlink_can/libcanard/canard.c:474-502 | A completed multi-frame transfer repeated before the session times out delivers nothing. |
| `CanardInstance.Canard.constructor` | components/airlink_can/libcanard/canard.c:67-102 | A fresh instance holds no session and no queued frame, and every block is free. |
| `CanardInstance.Canard.ThreadFreeList` | components/airlink_can/libcanard/canard.c:1891-1913 | Threading the arena makes one list of all its blocks. |
| `CanardInstance.Canard.AllocateBlock` | components/airlink_can/libcanard/canard.c:1915-1943 | Takes a block off the free list and out of no other list; reports exhaustion exactly when the list is empty; usage is capacity minus free blocks. |
| `CanardInstance.Canard.FreeBlock` | components/airlink_can/libcanard/canard.c:1945-1960 | A block in hand is free again and nothing else changes. |
| `CanardInstance.Canard.PushTxQueue` | components/airlink_can/libcanard/canard.c:1289-1333 | Relinking the queue in place is insertion into the queue's value. |
| `CanardInstance.Canard.EnqueueTxFrames` | components/airlink_can/libcanard/canard.c:1160-1284 | The new state and the returned count are those of SendFrames: frames cut and queued, or an error. |
| `CanardInstance.Canard.EnqueueMultiFrame` | components/airlink_can/libcanard/canard.c:1223-1284 | The segmentation loop queues exactly the frames of the transfer; once enough blocks are counted no allocation in it fails. |
| `CanardInstance.Canard.CalculateCrc` | components/airlink_can/libcanard/canard.c:288-312 | The CRC over signature and payload, or none for a single frame. |
| `CanardInstance.Canard.BroadcastTransfer` | components/airlink_can/libcanard/canard.c:182-228 | State, result and transfer ID after a broadcast, anonymous ones included; the transfer ID moves on exactly when frames were queued. |
| `CanardInstance.Canard.RequestOrRespond` | components/airlink_can/libcanard/canard.c:355-385 | State, result and transfer ID after a service call; the transfer ID moves on exactly when a request was queued. |
| `CanardInstance.Canard.SetLocalNodeId` | components/airlink_can/libcanard/canard.c:110-124 | The node ID can be set once, to 1..127; anything else changes nothing. |
| `CanardInstance.Canard.PeekTxQueue` | components/airlink_can/libcanard/canard.c:387-394 | The head of the queue, unchanged. |
| `CanardInstance.Canard.PopTxQueue` | components/airlink_can/libcanard/canard.c:396-401 | The head leaves the queue and its block is free. |
| `CanardInstance.Canard.FindRxState` | components/airlink_can/libcanard/canard.c:1482-1494 | The list walk finds the first session with the descriptor, or none. |
| `CanardInstance.Canard.TraverseRxStates` | components/airlink_can/libcanard/canard.c:1451-1477 | Finds the session, or opens one at the front of the list when a block is free. |
| `CanardInstance.Canard.ReleaseStatePayload` | components/airlink_can/libcanard/canard.c:1531-1542 | All chunks of a session become free, and no other block does. |
| `CanardInstance.Canard.BufferBlockPushBytes` | components/airlink_can/libcanard/canard.c:1551-1645 | For every session, its ten-bit length overflowed or not: the chunks in use afterwards, failure exactly when the pool has fewer, and the bytes shown, which are those held and those pushed cut to the new length as long as the length had not overflowed before. |
| `CanardInstance.Canard.HandleRxFrame` | components/airlink_can/libcanard/canard.c:403-669 | For every frame and every state: what it does to the whole instance, its return code and the payload it delivers are those of HandleRx, in which only the bytes shown by an overflowed session are left open; only the session of its descriptor changes. A transfer of a session that counts its bytes rightly can be read by the decoding functions. |
| `CanardInstance.Canard.ReleaseTransferPayload` | components/airlink_can/libcanard/canard.c:1005-1018 | Exactly the blocks lent with a delivered transfer become free. |
| `CanardInstance.Canard.CleanupStaleTransfers` | components/airlink_can/libcanard/canard.c:671-700 | Exactly the sessions older than two seconds disappear, with all their chunks, also when neighbours in the list are stale together. |
| `CanardSystem.ReceiveConserves` | components/airlink_can/libcanard/canard.c:403-669 | One frame through a session neither loses nor creates blocks, on every error path. |
| `CanardSystem.BlocksConserved` | components/airlink_can/libcanard/canard.c:1915-1960 | Over any run of sending, transmitting, receiving and cleaning up, out-of-memory paths included, free blocks, queued frames, sessions and chunks add up to the pool. |
| `CanardSystem.SessionsUnique` | components/airlink_can/libcanard/canard.c:1451-1511 | Over any run no two sessions have the same descriptor. |
| `CanardSystem.NoInterference` | components/airlink_can/libcanard/canard.c:429-470 | Frames of one descriptor leave the sessions of every other descriptor as they are. |
| `CanardSystem.CleanedExactly` | components/airlink_can/libcanard/canard.c:671-700 | A cleanup ends the sessions last used more than two seconds ago, on a clock that may wrap around, and leaves every other one as it was. |
| `CanardSystem.InterleavedTransfer` | components/airlink_can/libcanard/canard.c:403-669 | A multi-frame transfer of which every frame is wanted, comes within two seconds of the first, and finds a free block when it needs one, is delivered exactly once, byte for byte, whatever else the instance receives, sends, transmits or cleans up in between, if and only if it has at most 1027 bytes. |
| `CanardSystem.RunRegular` | components/airlink_can/libcanard/canard.c:1551-1645 | Over any run in which no session counts beyond its ten bits, every session holds its bytes in head and chain without a gap. |
| `CanardSystem.AllOrNothing` | components/airlink_can/libcanard/canard.c:1223-1240 | A transfer is queued completely if and only if enough blocks are free, and otherwise the instance stays as it was, except exactly when the length with the CRC wraps around in 16 bits and some block is free. |
| `CanardSystem.TornTransfer` | components/airlink_can/libcanard/canard.c:1223-1240 | The exception exists: 65534 bytes and one free block leave an orphaned frame in the queue. |
| `CanardRun.Step` | components/airlink_can/airlink_can.c:264-317 | One call on the object, whichever it is, takes the object's value to what CanardSystem says of the corresponding event, and gives the application what that event delivers. |
| `CanardRun.Drive` | components/airlink_can/airlink_can.c:264-317 | Over any sequence of received frames, broadcasts, service calls, transmissions and cleanups the object runs as its value does: the frames it puts on the bus, in their order, and for every session what the application finds are exactly those of the run, blocks are conserved, the queue stays in arbitration order, and as long as no session counts beyond its ten bits everything delivered can be read. So TrafficOrdered, SessionsUnique and InterleavedTransfer hold of the object. |
| `BitArrays.CopyBitArray` | components/airlink_can/libcanard/canard.c:1661-1703 | Copies exactly the given number of bits, most significant first, and leaves every other bit of the destination unchanged. |
| `Scalars.ScalarRoundTrip` | components/airlink_can/libcanard/canard.c:738-1003 | Reading back what was written gives the value truncated to its bit length, for every length. |
| `Scalars.SignedRoundTrip` | components/airlink_can/libcanard/canard.c:838-911 | A signed value within its bit length is sign-extended back to itself. |
| `Scalars.GroupsValue` | components/airlink_can/libcanard/canard.c:786-797 | A storage of bytes, the last one aligned, holds the scalar least significant byte first. |
| `ScalarCodec.DescatterTransferPayload` | components/airlink_can/libcanard/canard.c:1705-1806 | Reading bits from head, block chain and tail gives the bits of the flat payload and how many of them exist. |
| `ScalarCodec.DecodeScalar` | components/airlink_can/libcanard/canard.c:738-911 | Decoding from the scattered transfer is reading the flat payload, zeros behind its end, for every bit offset, length and signedness; invalid arguments are refused. |
| `ScalarCodec.EncodeScalar` | components/airlink_can/libcanard/canard.c:913-1003 | Writes the lowest bits of the value at the bit offset, and no other bit. |
| `ScalarCodec.WriteThenRead` | components/airlink_can/libcanard/canard.c:738-1003 | What is written at any bit offset with any of the 64 lengths is read from there, truncated or sign-extended; a single bit is read as the truth value it was written for. |
| `ScalarCodec.AlignedScalar` | components/airlink_can/libcanard/canard.c:738-911 | A scalar of whole bytes at a byte boundary is read as those bytes, least significant first. |
| `ScalarCodec.BitScalar` | components/airlink_can/libcanard/canard.c:738-911 | A single bit is found in its byte, the most significant bit first. |
| `Targetted.Encode` | components/airlink_can/dsdl_generated/include/uavcan.tunnel.Targetted.h:101-185 | The encoder writes exactly the bytes of the wire format, the byte array without a length field. |
| `Targetted.Decode` | components/airlink_can/dsdl_generated/include/uavcan.tunnel.Targetted.h:190-291 | The decoder accepts a delivered transfer if and only if it has 6 to 126 bytes, and reads every field of the flat payload. |
| `Targetted.InferredLength` | components/airlink_can/dsdl_generated/include/uavcan.tunnel.Targetted.h:257-282 | The array length, inferred in 32 bits and kept in eight, is right if and only if the payload has 6 to 126 bytes; a wrong one within the array bound never reads past the payload. |
| `Targetted.RoundTrip` | components/airlink_can/dsdl_generated/src/uavcan.tunnel.Targetted.c:12-58 | Decoding the encoded message gives the message, each field truncated to its bits; in-range messages come back unchanged. |
| `Targetted.WireBytes` | components/airlink_can/dsdl_generated/include/uavcan.tunnel.Targetted.h:101-185 | The six bytes before the byte array, by arithmetic on the fields: protocol; target node and the top bit of the serial ID; its other four bits and the options; the baudrate, least significant byte first. |
| `ReplayWindow.Window.Accept` | components/airlink_mesh/airlink_mesh_codec.c:99-135 | The shifting bitmap and the ring of retired sessions accept exactly what a window over the set of everything accepted before would. |
| `ReplayWindow.NoReplay` | components/airlink_mesh/airlink_mesh.c:795-811 | From one source using at most four sessions no packet is accepted twice, over any run of loss, repetition, delay and reordering. |
| `ReplayWindow.OldSession` | components/airlink_mesh/airlink_mesh_codec.c:99-135 | A packet of an earlier session is accepted again if and only if more than three sessions have come since. |
| `ReplayWindow.AcceptedUnlessOldOrRepeated` | components/airlink_mesh/airlink_mesh_codec.c:99-135 | Nothing else is refused: after any packets of one session the next one is accepted if and only if it was not accepted before and no accepted one is 64 or more ahead of it. |
| `ReplayWindow.NewSessionAccepted` | components/airlink_mesh/airlink_mesh_codec.c:99-135 | A session that was never seen is followed at once, wherever its numbering starts. |
| `ReplayWindow.FiveSessions` | components/airlink_mesh/airlink_mesh_codec.c:99-135 | Five sessions are too many: the first one's packet is accepted a second time. |
| `ReplayWindow.Sender.Encode` | components/airlink_mesh/airlink_mesh_codec.c:137-179 | A packet that fits spends the next sequence number even when sealing fails, any other attempt spends none, and the counter never wraps. |
| `ReplayWindow.Sender.EncodeMany` | components/airlink_mesh/airlink_mesh_codec.c:146-152 | Over any number of sends no sequence number is used twice. |
| `OtaStream.OtaStream.BeginStream` | components/airlink_ota/airlink_ota.c:182-216 | Begins only from idle, and stays idle when the partition cannot be prepared. |
| `OtaStream.OtaStream.WriteStream` | components/airlink_ota/airlink_ota.c:218-233 | Appends the data, refuses more than remains, and a failed write ends the stream. |
| `OtaStream.OtaStream.VerifyStream` | components/airlink_ota/airlink_ota.c:235-272 | Stages the image only when all of it is written and its digest is the announced one. |
| `OtaStream.OtaStream.ActivateStream` | components/airlink_ota/airlink_ota.c:274-282 | Only a staged image is selected; the stream is over either way. |
| `OtaStream.OtaStream.AbortStream` | components/airlink_ota/airlink_ota.c:165-175 | The stream is idle again. |
| `OtaStream.WriteAllGrows` | components/airlink_ota/airlink_ota.c:218-233 | When all pieces are written the stream has grown by exactly their bytes in order. |
| `OtaStream.ImageGoesThrough` | components/airlink_ota/airlink_ota.c:182-282 | An image written in pieces of any size passes verification if and only if its length and digest are those announced; then it can be activated, and the device is ready for the next update. |
| `OtaStream.StagedIsAnnounced` | components/airlink_ota/airlink_ota.c:165-282 | Over any run of begin, write, verify, activate and abort, failing calls included, a stream holds exactly the bytes handed over since the last successful begin, and a staged image has the length and digest announced there. |
| `OtaStream.ActivatedIsAnnounced` | components/airlink_ota/airlink_ota.c:274-282 | After any such run only an image whose digest was announced and every byte of which was written can be selected for booting. |
| `MeshOtaNode.AirOta.ProcessBegin` | components/airlink_mesh/airlink_mesh.c:582-609 | State and reply to an announcement. |
| `MeshOtaNode.AirOta.ProcessChunk` | components/airlink_mesh/airlink_mesh.c:611-654 | State and reply to a chunk: stored once, the window written to the stream in order when complete, the next window turned to, old windows acknowledged as complete. |
| `MeshOtaNode.AirOta.StoreChunk` | components/airlink_mesh/airlink_mesh.c:628-635 | A chunk goes to its slot and no other slot changes. |
| `MeshOtaNode.AirOta.WriteWindow` | components/airlink_mesh/airlink_mesh.c:636-652 | The chunks of a window are streamed in order until a write fails. |
| `MeshOtaNode.AirOta.ProcessCommit` | components/airlink_mesh/airlink_mesh.c:656-672 | State and reply to the verify and activate requests. |
| `MeshOtaProgress.ChunkAnswered` | components/airlink_mesh/airlink_mesh.c:620-654 | A chunk of the running session that belongs to the current window, or to the one after a written window, is acknowledged under its window; unless writing fails its bit is set, a missing chunk's bytes are in its slot, and the window's other chunks are kept, or, in a new window, missing. |
| `MeshOtaProgress.ChunkOutOfTurn` | components/airlink_mesh/airlink_mesh.c:620-626 | Any other chunk of the session changes nothing, and the node tells which window it is at. |
| `MeshOtaProgress.AnnouncedAgain` | components/airlink_mesh/airlink_mesh.c:582-609 | An accepted announcement that is repeated is answered in the same way and changes nothing. |
| `MeshOtaRoot.RootOta.Write` | components/airlink_mesh/airlink_mesh.c:1554-1577 | The next chunk enters its slot of the window; a short chunk before the end, or one too many, is refused. |
| `MeshOtaRoot.RootOta.Distribution` | components/airlink_mesh/airlink_mesh.c:1402-1428 | The group distribution sends every chunk of the window once, in order. |
| `MeshOtaRoot.RootOta.SendMissing` | components/airlink_mesh/airlink_mesh.c:1446-1465 | Repair sends a node exactly the chunks it did not acknowledge. |
| `MeshOtaRoot.MissingExact` | components/airlink_mesh/airlink_mesh.c:1450-1463 | Those are exactly the messages of the unacknowledged slots. |
| `MeshOtaRoot.RootOta.Look` | components/airlink_mesh/airlink_mesh.c:1429-1445 | The root sees a failed target, or every target with the whole window, exactly when the table says so. |
| `MeshOtaRoot.RootOta.NextWindow` | components/airlink_mesh/airlink_mesh.c:1467-1471 | The window moves on by 32 chunks and is empty. |
| `MeshOtaSafety.StepPreserves` | components/airlink_mesh/airlink_mesh.c:582-672 | Every step of root, node and network keeps the invariant of the distribution. |
| `MeshOtaSafety.RunPreserves` | components/airlink_mesh/airlink_mesh.c:582-672 | So does every run. |
| `MeshOtaSafety.TransferExact` | components/airlink_mesh/airlink_mesh.c:611-654 | In every reachable state the bytes a node wrote for a session are an in-order, exactly-once prefix of what the root was given for it. |
| `MeshOtaSafety.MovedPastWritten` | components/airlink_mesh/airlink_mesh.c:1400-1472 | When the root has moved past a window every target has written all bytes up to its end. |
| `MeshOtaSafety.VerifiedMeansWhole` | components/airlink_mesh/airlink_mesh.c:656-672 | A VERIFIED report in the network was sent by a node that holds the whole announced image. |
| `MeshOtaSafety.ActivationSafe` | components/airlink_mesh/airlink_mesh.c:1579-1657 | No node selects its staged image before every target of that session holds the whole image, byte for byte. |
| `MeshOtaProgress.EveryImageInstalled` | components/airlink_mesh/airlink_mesh.c:1491-1657 | The protocol gets somewhere: for every image, whatever its size, there is a run after which the node holds it byte for byte and has selected it, and root and node are free for the next update. |
| `MeshOtaWedge.AcceptedUnlessStaged` | components/airlink_mesh/airlink_mesh.c:582-609 | In every reachable state a permitted announcement is accepted if and only if the node has no image staged. |
| `MeshOtaWedge.AbortWedges` | components/airlink_mesh/airlink_mesh.c:575-580 | An abort leaves the node idle, and an image staged if and only if it had been verified. |
| `MeshOtaWedge.StaysWedged` | components/airlink_mesh/airlink_mesh.c:575-672 | Over any run without its restart an idle node with a staged image stays so, whatever reaches it. |
| `MeshOtaWedge.RefusedUntilRestart` | components/airlink_mesh/airlink_mesh.c:582-609 | Over any such run it answers every announcement with an error. |
| `MeshOtaWedge.WedgedReachable` | components/airlink_mesh/airlink_mesh.c:1473-1490 | It happens: distributing any image, verifying it and cancelling the update leads there. |
| `MeshActivation.ActivationTask` | components/airlink_mesh/airlink_mesh.c:1579-1629 | Commands go out layer by layer from the deepest, each behind the safety gate; the root's own image is selected if and only if the loop over the nodes ended, the image is staged and selecting it succeeds; a closed gate ends the run and leaves a staged image of the root staged. |
| `MeshActivation.EachTargetOnce` | components/airlink_mesh/airlink_mesh.c:1579-1629 | While no node changes its layer, exactly the targets in layers 1 to 4 are commanded, each once and before any node of a shallower layer. |
| `MeshConfigStore.MeshStore.constructor` | components/airlink_mesh/airlink_mesh_config.c:167-194 | After a boot no readable record is newer than the one in force, which is one of them; the defaults are in force only when none is readable. |
| `MeshConfigStore.MeshStore.SaveConfig` | components/airlink_mesh/airlink_mesh_config.c:224-235 | The generation grows if and only if the save succeeds; then a boot finds the new configuration, the record it replaced is still in flash, and nothing pending has changed. A save that fails changes nothing. |
| `MeshConfigStore.MeshStore.StageConfig` | components/airlink_mesh/airlink_mesh_config.c:237-248 | What is in force stays in force, also after a boot; a following commit installs what was staged if and only if nothing newer is pending. |
| `MeshConfigStore.MeshStore.CommitStagedConfig` | components/airlink_mesh/airlink_mesh_config.c:250-269 | The generation grows if and only if something newer is pending and can be written; then the newest pending record is in force, now and after a boot, and the result is an error exactly when erasing fails. Otherwise nothing changes. |
| `MeshConfigStore.CommitInstallsPrepared` | components/airlink_mesh/airlink_mesh_config.c:250-269 | A commit installs the prepared record if and only if the other pending slot holds no newer one; the generation grows either way. |
| `MeshConfigStore.CrashSafeWrite` | components/airlink_mesh/airlink_mesh_config.c:121-135 | Losing power while a newer record is written leaves the old or the new record in force, whatever the torn slot reads, if and only if the generation grows by an odd step (or nothing was configured yet). |
| `MeshConfigStore.SaveCrashSafe` | components/airlink_mesh/airlink_mesh_config.c:224-235 | An ordinary save, which takes the next generation, always survives power loss. |
| `MeshTransaction.StepKeeps` | components/airlink_mesh/airlink_mesh.c:1115-1233 | Every step of root, node and network keeps the invariant of the update protocol. |
| `MeshTransaction.RunKeeps` | components/airlink_mesh/airlink_mesh.c:1115-1233 | So does every run. |
| `MeshTransaction.FateFinal` | components/airlink_mesh/airlink_mesh.c:1146-1233 | The decision about a transaction never changes. |
| `MeshTransaction.NeverBoth` | components/airlink_mesh/airlink_mesh.c:1146-1233 | COMMIT and ABORT of one transaction are never both sent, at the same or at different times, as long as every update has a new pair of generation and digest. |
| `MeshTransaction.NodeInstallsPrepared` | components/airlink_mesh/airlink_mesh.c:721-763 | Over any run, restarts of nodes and root included: a node changes its configuration only by accepting a COMMIT; then every approved node had durably staged exactly that configuration, the node installs exactly what it prepared, and its generation grows strictly. |
| `MeshTransaction.RootInstallsPrepared` | components/airlink_mesh/airlink_mesh.c:1146-1233 | The same for the root, its restarts included. |
| `MeshTransaction.CommitsAscend` | components/airlink_mesh/airlink_mesh.c:1153-1166 | The root takes one more than the highest generation it knows of, from reports that may be late, lost or forgotten in a restart; even so a transaction that is committed is never older than any transaction before it. |
| `MeshTransactionProgress.PrepareAnswered` | components/airlink_mesh/airlink_mesh.c:721-741 | A node answers a PREPARE with yes if and only if it is permitted, carries its digest, is valid, newer than the node and can be written; then flash holds exactly that configuration for the commit, and what is in force stays. |
| `MeshTransactionProgress.AbortAnswered` | components/airlink_mesh/airlink_mesh.c:742-751 | An ABORT of the transaction a node remembers makes it refuse every later COMMIT and empties what is pending as far as erasing succeeds; any other ABORT changes nothing. |
| `MeshTransactionProgress.CommitInstalls` | components/airlink_mesh/airlink_mesh.c:752-763 | In every reachable state a COMMIT that reaches a node is answered yes if and only if the node remembers the transaction, is older than it, and writing and both erasures succeed; it has installed the configuration and generation prepared if and only if the first three hold, and otherwise keeps its own. |
| `MeshTransactionProgress.RootInstalls` | components/airlink_mesh/airlink_mesh.c:1224-1233 | Once committed, the root installs the transaction's configuration and its higher generation if and only if the record can be written. |
| `MeshTransactionProgress.CommittedInstalled` | components/airlink_mesh/airlink_mesh.c:515-530 | Over any run, whenever the root counts a node as committed that node has the transaction's configuration in force, or a newer one. |
| `MeshTransactionProgress.UpdateGoesThrough` | components/airlink_mesh/airlink_mesh.c:1146-1233 | From any fleet, of any number of nodes with any generations below the last, there is a run that brings every node and the root to the new configuration under the generation after the highest in the fleet, and tells the root so. |
| `MeshTransactionProgress.GivenUpLeavesNoTrace` | components/airlink_mesh/airlink_mesh.c:1195-1206 | An update that every node prepared and the root then gives up, the erasures succeeding, leaves every store, flash included, as it was. |
| `MeshTransaction.RetriedBoth` | components/airlink_mesh/airlink_mesh.c:1146-1233 | Without the condition that an update has a pair of generation and digest no earlier one had, ABORT and COMMIT of one pair can be under way together: an update given up and tried again at once. |
| `ConfigStore.Store.SaveLocked` | components/airlink_config/airlink_config.c:348-355 | Flash and memory after a save; memory changes only when the write is acknowledged. |
| `ConfigStore.Store.Load` | components/airlink_config/airlink_config.c:376-429 | Flash and memory after a boot: selection of the newer record, defaults, migration of schema v1. |
| `ConfigStore.SelectedIsAckedOrTried` | components/airlink_config/airlink_config.c:376-400 | What a boot selects is the acknowledged record or one being written. |
| `ConfigStore.CrashAtomic` | components/airlink_config/airlink_config.c:275-355 | Over any run of boots, saves, failed writes and power losses, migration included, the record a boot selects is the last acknowledged one or one whose writing began since. |
| `ConfigStore.AnyFlash` | components/airlink_config/airlink_config.c:376-400 | Any flash whose records lie in the slots of their parity is a valid beginning. |
| `ConfigStore.SaveSafe` | components/airlink_config/airlink_config.c:348-355 | A save survives every outcome of its write if and only if the generation has not reached its last value. |
| `ConfigStore.SavedThenLoaded` | components/airlink_config/airlink_config.c:348-355 | After a save the next boot loads the new configuration if the save was acknowledged or its write went through after all, and the old one otherwise; a running device that was not told so keeps the old one. |
| `ConfigStore.MigratedOnce` | components/airlink_config/airlink_config.c:264-310 | A boot from a schema v1 record keeps its fields, fills in the new ones and writes it back as v2 under the next generation, the old record staying in its slot; later boots load it without writing. |
| `ConfigStore.DefaultsWritten` | components/airlink_config/airlink_config.c:376-429 | An empty flash yields the defaults, which are in flash before the device runs with them. |
| `EscapeMatcher.Matcher.SuffixPrefix` | components/airlink_core/airlink_stream.c:12-21 | The loop finds the longest end of the held bytes that is a proper beginning of the pattern. |
| `EscapeMatcher.Matcher.FeedByte` | components/airlink_core/airlink_stream.c:35-55 | One byte, in place, does what the matcher's function says, also when an emission fails; the start time is that at which the matcher began to hold bytes. |
| `EscapeMatcher.Matcher.Feed` | components/airlink_core/airlink_stream.c:23-57 | A whole call does what the matcher's function says; the consumed count is reported unless an emission failed. |
| `EscapeMatcher.Matcher.FlushExpired` | components/airlink_core/airlink_stream.c:59-68 | Held bytes are emitted, and the matcher reset, exactly when the timeout has passed since it began to hold bytes, across wrap-around of the clock. |
| `EscapeMatcher.NothingLost` | components/airlink_core/airlink_stream.c:23-57 | Emitted and held bytes, and the pattern if it matched, are together exactly the input consumed. |
| `EscapeMatcher.NextHeld` | components/airlink_core/airlink_stream.c:12-21 | The longest end that could become the pattern is found from the held bytes alone. |
| `EscapeMatcher.MatchesFirst` | components/airlink_core/airlink_stream.c:23-57 | A match is reported exactly at the end of the first occurrence since the last reset, and otherwise the held bytes are the longest end of the text that is a proper beginning of the pattern. |
| `EscapeMatcher.SplitIndependent` | components/airlink_core/airlink_stream.c:23-57 | Results, emissions and match position do not depend on how the input is split. |
| `Cobs.RoundTrip` | components/airlink_usb/airlink_usb.c:691-735 | Decoding undoes encoding for every input. |
| `Cobs.NoZero` | components/airlink_usb/airlink_usb.c:691-716 | The encoding contains no zero byte. |
| `Cobs.LengthBound` | components/airlink_usb/airlink_usb.c:691-716 | The encoding is longer than the input by at least one byte and at most n/254 + 1. |
| `Cobs.EncodeOpen` | components/airlink_usb/airlink_usb.c:691-716 | The blocks of the code: 254 bytes without zero become 0xFF and themselves; fewer, in front of a zero or of the end, become their number plus one and themselves. |
| `Cobs.CobsEncode` | components/airlink_usb/airlink_usb.c:691-716 | The in-place encoder writes the encoding, and returns zero if and only if it does not fit. |
| `Cobs.CobsDecode` | components/airlink_usb/airlink_usb.c:718-735 | The decoder writes the decoded bytes, and returns zero exactly for malformed input, an empty result or one that does not fit. |
| `RpcLink.SendResponse` | components/airlink_usb/airlink_usb.c:737-757 | A response is always written: the encoding fits the buffer, has one zero, at its end, and decodes to the frame; an oversized payload becomes an empty INVALID response. |
| `RpcLink.ResponseAnswers` | components/airlink_usb/airlink_usb.c:737-757 | What the request's sender reads back: version 1, kind response, its own method and request ID, the status, the payload with its length, and the checksum of everything before it. |
| `RpcLink.ExitExactly` | components/airlink_usb/airlink_usb.c:1352-1364 | Binary mode is ended by a control frame of method 0 without payload and with a valid checksum, and by nothing else. |
| `RpcLink.SplitReads` | components/airlink_usb/airlink_usb.c:1346-1370 | How the bytes are split between USB reads makes no difference. |
| `RpcLink.FramesRecovered` | components/airlink_usb/airlink_usb.c:1346-1370 | Any zero-delimited frames within the size limits are handed over one by one, byte for byte and in order, up to the one that ends binary mode. |
| `RpcLink.Resynchronises` | components/airlink_usb/airlink_usb.c:1346-1370 | After the next zero, whatever was held before, frames are recovered exactly. |
| `RpcLink.HeldAlways` | components/airlink_usb/airlink_usb.c:1344-1371 | Over every input the bytes held contain no zero and fit the buffer. |
| `RpcLink.StaleBytes` | components/airlink_usb/airlink_usb.c:1063-1074 | Before that zero they are not: whatever frame comes next is handed over exactly if and only if nothing is held. |
| `RpcLink.Receiver.HandleRead` | components/airlink_usb/airlink_usb.c:1344-1371 | The accumulation loop, on its buffer, does what the receiving function says for every read. |
| `MavlinkParser.BufferNeverFull` | components/airlink_router/airlink_mavlink.c:123-149 | The parser never holds 280 bytes, so the branch for a full buffer is unreachable. |
| `MavlinkParser.SplitFeeds` | components/airlink_router/airlink_mavlink.c:123-149 | Parsing does not depend on how the stream is split. |
| `MavlinkParser.FramesRecovered` | components/airlink_router/airlink_mavlink.c:123-149 | Well-formed version 1 and 2 frames, signed or not, with marker-free bytes between them, are emitted exactly, byte for byte and in order. |
| `MavlinkParser.OnlyFrames` | components/airlink_router/airlink_mavlink.c:123-149 | For any input whatever the emitted frames are disjoint well-formed pieces of it, in order, with no start marker left between them. |
| `MavlinkFrame.TableAscending` | components/airlink_router/airlink_mavlink.c:15-37 | The table of checksum seeds is in order of message IDs. |
| `MavlinkFrame.CrcExtraFor` | components/airlink_router/airlink_mavlink.c:39-48 | The binary search finds exactly what the table says. |
| `MavlinkFrame.Parser.CheckCrc` | components/airlink_router/airlink_mavlink.c:84-94 | The checksum loop covers exactly the bytes between marker and checksum, then the seed, and compares with the two bytes sent. |
| `MavlinkChecksum.AccumulateDivides` | components/airlink_router/airlink_mavlink.c:51-58 | The shifts and exclusive ors of crc_accumulate are, read from the other end, eight steps of division by x^16 + x^12 + x^5 + 1. |
| `MavlinkChecksum.ChecksumDivides` | components/airlink_router/airlink_mavlink.c:84-94 | So the checksum of any bytes is the remainder that the CAN transfer CRC computes, with every byte and the register reflected. |
| `MavlinkFrame.Parser.FinishFrame` | components/airlink_router/airlink_mavlink.c:71-112 | Every field reported about a frame, and the error count. |
| `MavlinkSender.FrameBuilt` | components/airlink_router/airlink_mavlink.c:51-112 | Every well-formed frame is one that a sender can have built, so what is said of built frames is said of all. |
| `MavlinkSender.BuiltDescribed` | components/airlink_router/airlink_mavlink.c:71-112 | Of a frame built from its fields, version 1 or 2, signed or not, the parser reports these fields: message ID, system, component, the checksum as valid if and only if it is right, and for an intact heartbeat its kind, autopilot and the highest bit of its base mode. |
| `MavlinkSender.HeartbeatDescribed` | components/airlink_router/airlink_mavlink.c:100-112 | A heartbeat's fields, in the order of the message definition, come through: kind, autopilot, and the armed flag as the highest bit of base mode. |
| `MavlinkSender.AcceptableExactly` | components/airlink_router/airlink_mavlink.c:115-121 | A built frame is dropped if and only if its message is known and its checksum is not that of its contents. |
| `MavlinkFrame.Parser.ParseByte` | components/airlink_router/airlink_mavlink.c:123-149 | The in-place parser reports a frame exactly when a byte completes one. |
| `RouterLatch.LatchStep` | components/airlink_router/airlink_router.c:116-131 | One frame at a vehicle endpoint moves the latch as the list of valid heartbeats demands. |
| `RouterLatch.LatchIsLastBeat` | components/airlink_router/airlink_router.c:116-147 | Over every run and in both modes the latch is bit 7 of the base mode in the latest heartbeat with a valid checksum from component 1 of the system pinned first, received at a vehicle endpoint, whose autopilot field is not invalid; a heartbeat is what its sender builds from these fields. |
| `RouterLatch.BeatIsRead` | components/airlink_router/airlink_mavlink.c:100-112 | The parser reads such a heartbeat from exactly the frames that a sender can have built from one. |
| `RouterLatch.ChangedOnlyByOwnBeat` | components/airlink_router/airlink_router.c:116-147 | A call changes the armed flag only by bringing such a heartbeat of the pinned system: no ground station, other system, bad checksum, removal of an endpoint or silence does. |
| `RouterDelivery.RoutedOnce` | components/airlink_router/airlink_router.c:149-169 | A block is offered once to each endpoint on the other side, ground station for vehicle and vehicle for ground station, and to no other. |
| `RouterDelivery.OfferedExactlyOnce` | components/airlink_router/airlink_router.c:171-215 | Over any run in MAVLink mode a ground station that stays registered is offered every accepted vehicle frame exactly once, in order, and nothing else. |
| `RouterDelivery.VehicleStreamDelivered` | components/airlink_router/airlink_router.c:171-215 | A vehicle's frames, cut into any reads, reach each ground station byte for byte and in order. |
| `RouterDelivery.ChunksOffered` | components/airlink_router/airlink_router.c:179-195 | In transparent mode the pieces offered fit the queues and make up the block again. |
| `RouterDelivery.BytesPassed` | components/airlink_router/airlink_router.c:179-195 | In transparent mode every byte of every read passes to the other side exactly once and in order. |
| `RouterDelivery.RepeatsSpaced` | components/airlink_router/airlink_router.c:89-99 | Over every run two network frames with one checksum are let through only 50 ms apart, or more than 32 accepted frames apart. |
| `RouterDelivery.NetworkFrameOffered` | components/airlink_router/airlink_router.c:197-211 | In every reachable state an acceptable network frame is offered once to each vehicle endpoint if and only if it can join the frames let through so far without bringing two equal ones closer together than that. |
| `RouterObject.Router.constructor` | components/airlink_router/airlink_router.c:45-57 | A new router: no endpoint, disarmed, no pinned system. |
| `RouterObject.Router.Register` | components/airlink_router/airlink_router.c:59-79 | The first free place is taken; a known ID or a full table is refused. |
| `RouterObject.Router.Unregister` | components/airlink_router/airlink_router.c:81-87 | The endpoint's place is free and nothing else changes, the latch included. |
| `RouterObject.Router.SetModeTo` | components/airlink_router/airlink_router.c:217-223 | The mode changes and every parser starts afresh; the latch stays. |
| `RouterObject.Router.DuplicateNetworkFrame` | components/airlink_router/airlink_router.c:89-99 | The ring of 32 entries with its cursor answers exactly for the last 32 frames let through. |
| `RouterObject.Router.RouteFrom` | components/airlink_router/airlink_router.c:149-169 | One send call for each endpoint on the other side, in table order. |
| `RouterObject.Router.HandleFrame` | components/airlink_router/airlink_router.c:197-211 | State after one complete frame in MAVLink mode. |
| `RouterObject.Router.ObserveVehicleSafety` | components/airlink_router/airlink_router.c:136-147 | Latch and parser after a transparent read at a vehicle endpoint. |
| `RouterObject.Router.IngestTransparent` | components/airlink_router/airlink_router.c:179-195 | State after a transparent read: watched, then passed on in pieces. |
| `RouterObject.Router.Ingest` | components/airlink_router/airlink_router.c:171-215 | State and result of a whole read, in both modes, for known and unknown endpoints. |
| `Tunnel.StepKeeps` | components/airlink_can/airlink_can.c:364-467 | Every step of a send, whatever the sending loop does between its parts, and every turn of the loop keep the tunnel's invariant. |
| `Tunnel.StarvationFree` | components/airlink_can/airlink_can.c:391-407 | Among any nine packets taken in a row there is a normal one or one taken while no normal packet waited, across wrap-around of the burst counter. |
| `Tunnel.HighFirst` | components/airlink_can/airlink_can.c:391-407 | A normal packet is taken while a high one waits only after eight high packets in a row. |
| `Tunnel.Drains` | components/airlink_can/airlink_can.c:391-467 | Left alone, the loop empties both queues in exactly as many broadcasts as are needed when every piece of a packet but its last has 120 bytes, and not in fewer. |
| `Tunnel.FirstInFirstOut` | components/airlink_can/airlink_can.c:364-407 | In each class packets leave in the order they were offered, and every normal packet offered was taken, is queued or was counted as dropped. |
| `Tunnel.NewestKept` | components/airlink_can/airlink_can.c:364-389 | An uninterrupted send to a full normal queue drops exactly the oldest packet; a full high queue refuses the new one. |
| `Tunnel.PacketsWhole` | components/airlink_can/airlink_can.c:449-467 | While broadcasts succeed the pieces sent, each of 1 to 120 bytes, make up exactly the packets taken, in order. |
| `Tunnel.Port.RouterSend` | components/airlink_can/airlink_can.c:364-389 | Queues and result after an uninterrupted send. |
| `Tunnel.Port.DequeuePacket` | components/airlink_can/airlink_can.c:391-407 | Which packet is taken, and the burst counter. |
| `Tunnel.Port.Turn` | components/airlink_can/airlink_can.c:449-467 | One turn of the loop: the packet in hand, its offset, and the piece broadcast. |
| `TunnelLink.PieceReceived` | components/airlink_can/airlink_can.c:168-192 | A piece sent as a Targetted message is decoded and accepted by the peer, and is the same piece. |
| `TunnelLink.PacketsReachRouter` | components/airlink_can/airlink_can.c:325-350 | End to end: while every piece is broadcast and frames arrive in time, the peer's router receives exactly the bytes of the packets taken, in order, with keepalives sent anywhere in between. |
| `MarkerScan.BlockSays` | components/airlink_ota/airlink_ota.c:46-62 | A block decides about exactly the occurrences that lie within it. |
| `MarkerScan.PartitionContainsMarker` | components/airlink_ota/airlink_ota.c:46-62 | For every image size the overlapping block scan reports the marker if and only if the image contains it, as long as reads succeed; a failed read never makes it report one that is not there. |

## Left out

- CanardInstance.Canard.HandleRxFrame: the reception callback is the return of the method, so the session is prepared
  for the next transfer before the application sees the delivered one, not after. Which bytes a session shows once its
  ten-bit length has overflowed is not computed from the history of the memory; that the length then wraps is.
- CanardTransport.TransferReceived: speaks of a reception in which the application gives the blocks of a delivered
  transfer back before the next frame, as the library does after its callback.
- MeshOtaSafety.TransferExact: session numbers are assumed not to repeat, and the mesh stream to be used by the mesh
  alone; the raw update path of usb_task, which drains any active stream, is not modelled.
- MeshOtaSafety.ActivationSafe: the root's own image is not part of the fleet; its order after the nodes is in
  MeshActivation.ActivationTask and its content in OtaStream.ActivatedIsAnnounced.
- MeshTransaction.NodeInstallsPrepared: holds for updates with new pairs of generation and digest, a fixed approved set
  and failed staging writes that leave the slot as it was. One update runs at a time, because its only caller, usb_task,
  waits for it to return.
- RpcLink.FramesRecovered: the binary branch of usb_task only; mode changes, the command line and the handlers of the
  individual requests are not modelled.
- RouterObject.Router.Ingest: the parser of each endpoint is a value in the table, not an object; statistics and the
  time of the last frame are left out.
- Tunnel.Port.RouterSend: the method is the uninterrupted call; interruptions between its steps are in Tunnel.Step.
- MavlinkFrame.Parser.CheckCrc: holds for any function that takes in a byte; MavlinkChecksum.Accumulate is the source's.
  airlink_crc32 and SHA-256 are parameters throughout.
- CAN FD, several interfaces at once, transmit deadlines, 16-bit addressing and float16 are disabled in this build.
- Null-pointer checks: pointers in the model are never null, except as the end of a list.
- Cryptography, key derivation and checksum collisions.
- MeshOtaProgress.EveryImageInstalled: the run it gives has one node; safety is for any number of nodes. Progress under
  loss, which rests on timeouts and repetition, is not stated, for updates neither.
- Isolation of duplicate system IDs, which the periodic HELLO rewrites.
- Duplicate suppression of single-frame transfers: the library delivers them without looking at the transfer ID.
- Wi-Fi, HTTP, BLE, UART, TWAI and USB drivers, JSON, LED and board support: input and output.
- Field-by-field validators and saturating statistics, which one reading settles.
