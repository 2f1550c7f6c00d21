/** What CAN frames look like on the bus, bit by bit: identifiers, tail bytes, and arbitration. The library works on
    numbers; here they are tied to the bits a bus carries, most significant first, where 0 is dominant. */
module CanardWire {
  import opened Bits
  import opened Scalars
  import opened CanardFrame
  import opened CanardModel
  import opened CanardTransport
  import opened CanardTxQueue

  // ---------- Numbers and bits ----------

  /** A number made of two digits is written as the one behind the other. */
  lemma {:induction false} BinaryJoined(a: nat, b: nat, n: nat, m: nat)
    requires b < Pow2(m)
    ensures Binary(a * Pow2(m) + b, n + m) == Binary(a, n) + Binary(b, m)
    decreases m
  {
    if m > 0 {
      var p := Pow2(m - 1);
      assert a * Pow2(m) + b == 2 * (a * p + b / 2) + b % 2;
      BinaryJoined(a, b / 2, n, m - 1);
      assert Binary(b, m) == Binary(b / 2, m - 1) + [b % 2 == 1];
    } else {
      assert Binary(a, n) + [] == Binary(a, n);
    }
  }

  lemma {:induction false} BinaryInjective(a: nat, b: nat, n: nat)
    requires a < Pow2(n) && b < Pow2(n) && Binary(a, n) == Binary(b, n)
    ensures a == b
  {
    NumberOfBinary(a, n);
    NumberOfBinary(b, n);
    UniqueRemainder(a, Pow2(n), 0, a);
    UniqueRemainder(b, Pow2(n), 0, b);
  }

  lemma Powers()
    ensures Pow2(1) == 2 && Pow2(2) == 4 && Pow2(5) == 0x20 && Pow2(7) == 0x80 && Pow2(8) == 0x100
    ensures Pow2(11) == 0x800 && Pow2(14) == 0x4000 && Pow2(16) == 0x1_0000 && Pow2(18) == 0x4_0000
  {
    assert Pow2(3) == 8 && Pow2(4) == 16;
    assert Pow2(9) == 0x200 && Pow2(10) == 0x400;
    assert Pow2(12) == 0x1000 && Pow2(13) == 0x2000;
    assert Pow2(15) == 0x8000;
    assert Pow2(17) == 0x2_0000;
  }

  // ---------- Arbitration ----------

  /** Two nodes send at once: the first bit in which they differ decides, and the dominant one wins. */
  predicate Wins(a: seq<bool>, b: seq<bool>) {
    a != [] && b != [] && if a[0] == b[0] then Wins(a[1..], b[1..]) else !a[0]
  }

  lemma {:induction false} WinsJoined(a: seq<bool>, b: seq<bool>, c: seq<bool>, d: seq<bool>)
    requires |a| == |b|
    ensures Wins(a + c, b + d) <==> Wins(a, b) || (a == b && Wins(c, d))
    decreases |a|
  {
    if a == [] {
      assert a + c == c && b + d == d;
    } else {
      assert (a + c)[1..] == a[1..] + c && (b + d)[1..] == b[1..] + d;
      WinsJoined(a[1..], b[1..], c, d);
      assert a == b <==> a[0] == b[0] && a[1..] == b[1..];
    }
  }

  /** Among numbers of one width the smaller one wins. */
  lemma {:induction false} SmallerWins(a: nat, b: nat, n: nat)
    requires a < Pow2(n) && b < Pow2(n)
    ensures Wins(Binary(a, n), Binary(b, n)) <==> a < b
  {
    if n > 0 {
      SmallerWins(a / 2, b / 2, n - 1);
      WinsJoined(Binary(a / 2, n - 1), Binary(b / 2, n - 1), [a % 2 == 1], [b % 2 == 1]);
      if Binary(a / 2, n - 1) == Binary(b / 2, n - 1) {
        BinaryInjective(a / 2, b / 2, n - 1);
      }
    }
  }

  lemma SmallerWinsJoined(a: nat, b: nat, n: nat, c: seq<bool>, d: seq<bool>)
    requires a < Pow2(n) && b < Pow2(n)
    ensures Wins(Binary(a, n) + c, Binary(b, n) + d) <==> a < b || (a == b && Wins(c, d))
  {
    hide Wins;
    SmallerWins(a, b, n);
    WinsJoined(Binary(a, n), Binary(b, n), c, d);
    if Binary(a, n) == Binary(b, n) {
      BinaryInjective(a, b, n);
    }
  }

  /** Standard identifiers have eleven bits. */
  predicate WellFormed(id: Id) { IsExtended(id) || CleanId(id) < 0x800 }

  /** The arbitration field of the CAN frame format: eleven identifier bits, then for a standard frame the RTR and the
      IDE bit; for an extended frame SRR and IDE, both recessive, the other eighteen identifier bits, and RTR. */
  function ArbitrationField(id: Id): seq<bool> {
    var clean := CleanId(id);
    if IsExtended(id) then
      Binary(clean / 0x4_0000, 11) + ([true, true] + (Binary(clean % 0x4_0000, 18) + [IsRemote(id)]))
    else Binary(clean, 11) + [IsRemote(id), false]
  }

  /** The queue's comparison is bus arbitration. */
  lemma PrecedesIsArbitration(a: Id, b: Id)
    requires WellFormed(a) && WellFormed(b)
    ensures Precedes(a, b) <==> Wins(ArbitrationField(a), ArbitrationField(b))
  {
    if IsExtended(a) {
      if IsExtended(b) {
        ExtendedArbitration(a, b);
      } else {
        MixedArbitration(a, b);
      }
    } else if IsExtended(b) {
      MixedArbitration(b, a);
    } else {
      StandardArbitration(a, b);
    }
  }

  lemma ExtendedArbitration(a: Id, b: Id)
    requires IsExtended(a) && IsExtended(b)
    ensures Precedes(a, b) <==> Wins(ArbitrationField(a), ArbitrationField(b))
  {
    hide Wins, Binary, Pow2;
    Powers();
    var (x, y) := (CleanId(a), CleanId(b));
    var restA, restB := Binary(x % 0x4_0000, 18) + [IsRemote(a)], Binary(y % 0x4_0000, 18) + [IsRemote(b)];
    OneBit(IsRemote(a), IsRemote(b));
    SmallerWinsJoined(x % 0x4_0000, y % 0x4_0000, 18, [IsRemote(a)], [IsRemote(b)]);
    WinsSame([true, true], restA, restB);
    SmallerWinsJoined(x / 0x4_0000, y / 0x4_0000, 11, [true, true] + restA, [true, true] + restB);
  }

  lemma OneBit(a: bool, b: bool)
    ensures Wins([a], [b]) <==> !a && b
  {
    assert [a][1..] == [];
  }

  lemma WinsSame(a: seq<bool>, c: seq<bool>, d: seq<bool>)
    ensures Wins(a + c, a + d) <==> Wins(c, d)
  {
    WinsJoined(a, a, c, d);
    NeverItself(a);
  }

  lemma {:induction false} NeverItself(a: seq<bool>)
    ensures !Wins(a, a)
  {
    if a != [] {
      NeverItself(a[1..]);
    }
  }

  /** Against a standard frame with the same eleven bits an extended one loses. */
  lemma MixedArbitration(a: Id, b: Id)
    requires IsExtended(a) && !IsExtended(b) && WellFormed(b)
    ensures Precedes(a, b) <==> Wins(ArbitrationField(a), ArbitrationField(b))
    ensures Precedes(b, a) <==> Wins(ArbitrationField(b), ArbitrationField(a))
  {
    hide Binary, Pow2;
    Powers();
    var (x, y) := (CleanId(a), CleanId(b));
    var rest, short := [true, true] + (Binary(x % 0x4_0000, 18) + [IsRemote(a)]), [IsRemote(b), false];
    assert rest[0] && rest[1..][0];
    assert !Wins(rest, short) && Wins(short, rest);
    hide Wins;
    SmallerWinsJoined(x / 0x4_0000, y, 11, rest, short);
    SmallerWinsJoined(y, x / 0x4_0000, 11, short, rest);
  }

  lemma StandardArbitration(a: Id, b: Id)
    requires !IsExtended(a) && !IsExtended(b) && WellFormed(a) && WellFormed(b)
    ensures Precedes(a, b) <==> Wins(ArbitrationField(a), ArbitrationField(b))
  {
    hide Wins, Binary, Pow2;
    Powers();
    OneBit(IsRemote(a), IsRemote(b));
    WinsJoined([IsRemote(a)], [IsRemote(b)], [false], [false]);
    NeverItself([false]);
    assert [IsRemote(a)] + [false] == [IsRemote(a), false] && [IsRemote(b)] + [false] == [IsRemote(b), false];
    SmallerWinsJoined(CleanId(a), CleanId(b), 11, [IsRemote(a), false], [IsRemote(b), false]);
  }

  /** A sorted queue sends what the bus would let through first: its head loses arbitration to no queued frame. */
  lemma HeadWinsArbitration(q: seq<Frame>, k: nat)
    requires Sorted(q) && k < |q| && WellFormed(q[0].id) && WellFormed(q[k].id)
    ensures !Wins(ArbitrationField(q[k].id), ArbitrationField(q[0].id))
  {
    hide Wins, ArbitrationField, Precedes;
    PopsHighest(q, k);
    PrecedesIsArbitration(q[k].id, q[0].id);
  }

  /** Transfers of a smaller priority value leave first, whenever they were queued. */
  lemma UrgentFirst(q: seq<Frame>, i: nat, j: nat)
    requires Sorted(q) && i < |q| && j < |q| && PlainId(q[i].id) && PlainId(q[j].id)
    requires PriorityOf(q[i].id) < PriorityOf(q[j].id)
    ensures i < j
  {
    hide PlainId;
    if j < i {
      SmallerPriority(q[i].id, q[j].id);
    }
  }

  lemma SmallerPriority(a: Id, b: Id)
    requires PlainId(a) && PlainId(b) && PriorityOf(a) < PriorityOf(b)
    ensures Precedes(a, b)
  {
    PriorityDigit(a);
    PriorityDigit(b);
  }

  lemma PriorityDigit(id: Id)
    requires PlainId(id)
    ensures CleanId(id) / 0x100_0000 == PriorityOf(id)
  {
  }

  // ---------- Identifiers ----------

  /** DroneCAN message frames: priority, data type, the service bit clear, source. */
  lemma BroadcastIdBits(priority: Priority, dataTypeId: u16, source: NodeId)
    ensures Binary(BroadcastId(priority, dataTypeId, source), 29) ==
            Binary(priority, 5) + Binary(dataTypeId, 16) + ([false] + Binary(source, 7))
  {
    hide Binary, Pow2;
    Powers();
    ZeroBit();
    BinaryJoined(0, source, 1, 7);
    BinaryJoined(priority, dataTypeId, 5, 16);
    BinaryJoined(priority * 0x1_0000 + dataTypeId, source, 21, 8);
  }

  lemma ZeroBit()
    ensures Binary(0, 1) == [false] && Binary(1, 1) == [true]
  {
    assert Binary(0, 0) == [] && Binary(1 / 2, 0) == [];
  }

  /** Anonymous message frames: priority, fourteen discriminator bits, the two lowest data type bits, no source. */
  lemma AnonymousIdBits(priority: Priority, discriminator: nat, dataTypeId: u16)
    requires discriminator < 0x8000 && discriminator % 2 == 0 && dataTypeId < 4
    ensures Binary(AnonymousId(priority, discriminator, dataTypeId), 29) ==
            Binary(priority, 5) + Binary(discriminator / 2, 14) + Binary(dataTypeId, 2) + Binary(0, 8)
  {
    hide Binary, Pow2;
    Powers();
    BinaryJoined(priority, discriminator / 2, 5, 14);
    BinaryJoined(priority * 0x4000 + discriminator / 2, dataTypeId, 19, 2);
    BinaryJoined((priority * 0x4000 + discriminator / 2) * 4 + dataTypeId, 0, 21, 8);
  }

  /** DroneCAN service frames: priority, service type, request bit, destination, the service bit set, source. */
  lemma ServiceIdBits(priority: Priority, dataTypeId: u8, request: bool, destination: u8, source: NodeId)
    requires destination < 0x80
    ensures Binary(ServiceId(priority, dataTypeId, request, destination, source), 29) ==
            Binary(priority, 5) + Binary(dataTypeId, 8) + ([request] + Binary(destination, 7)) + ([true] + Binary(source, 7))
  {
    hide Binary, Pow2, ServiceId;
    Powers();
    ZeroBit();
    var kind, to := priority * 0x100 + dataTypeId, (if request then 0x80 else 0) + destination;
    ServiceDigits(priority, dataTypeId, request, destination, source);
    BinaryJoined(if request then 1 else 0, destination, 1, 7);
    BinaryJoined(1, source, 1, 7);
    BinaryJoined(priority, dataTypeId, 5, 8);
    BinaryJoined(kind, to, 13, 8);
    BinaryJoined(kind * 0x100 + to, 0x80 + source, 21, 8);
  }

  lemma ServiceDigits(priority: Priority, dataTypeId: u8, request: bool, destination: u8, source: NodeId)
    requires destination < 0x80
    ensures ServiceId(priority, dataTypeId, request, destination, source) ==
            ((priority * 0x100 + dataTypeId) * 0x100 + (if request then 0x80 else 0) + destination) * 0x100 + 0x80 + source
  {
  }

  // ---------- Tail bytes ----------

  function Flags(start: bool, end: bool, toggle: bool): nat {
    (if start then 4 else 0) + (if end then 2 else 0) + (if toggle then 1 else 0)
  }

  lemma TailByteParts(flags: u8, toggle: bool, tid: Tid)
    requires flags in {0, END, START, START + END}
    ensures TailByte(flags, toggle, tid) ==
            Flags(flags in {START, START + END}, flags in {END, START + END}, toggle) * 0x20 + tid
  {
  }

  /** Start of transfer, end of transfer, toggle, and five bits of transfer ID. */
  lemma TailByteBits(flags: u8, toggle: bool, tid: Tid)
    requires flags in {0, END, START, START + END}
    ensures BitsOf(TailByte(flags, toggle, tid)) ==
            [flags in {START, START + END}, flags in {END, START + END}, toggle] + Binary(tid, 5)
  {
    hide Pow2, Binary, TailByte, Flags, BitsOf;
    var start, end := flags in {START, START + END}, flags in {END, START + END};
    TailByteParts(flags, toggle, tid);
    Powers();
    ThreeBits(start, end, toggle);
    ByteBinary(TailByte(flags, toggle, tid));
    FlagsSmall(start, end, toggle);
    BinaryJoined(Flags(start, end, toggle), tid, 3, 5);
  }

  lemma FlagsSmall(start: bool, end: bool, toggle: bool)
    ensures Flags(start, end, toggle) < 8
  {
  }

  lemma ThreeBits(a: bool, b: bool, c: bool)
    ensures Binary(Flags(a, b, c), 3) == [a, b, c]
  {
    var n := Flags(a, b, c);
    assert Binary(n / 2 / 2, 1) == [a];
    assert Binary(n / 2, 2) == [a] + [b];
    assert Binary(n, 3) == [a] + [b] + [c];
  }
}
