/** Singly linked lists threaded through the block arena of a Canard instance.
    A pointer is an arena index, NULL is -1; every list the library keeps (free list, transmit queue,
    reception sessions, block chains) is read here as the sequence of indices it visits. */
module CanardLists {
  import opened Bits
  import opened CanardFrame
  import opened TransferCrc

  const NULL := -1

  /** One arena block, by what it currently holds. A freed block keeps only its link. */
  datatype Block =
    | Free(next: int)
    | TxItem(next: int, frame: Frame)
    | RxState(next: int, buffer: int, rx: RxFields)
    | Chunk(next: int, data: seq<u8>)

  function SetNext(b: Block, next: int): Block {
    match b
    case Free(_) => Free(next)
    case TxItem(_, frame) => TxItem(next, frame)
    case RxState(_, buffer, rx) => RxState(next, buffer, rx)
    case Chunk(_, data) => Chunk(next, data)
  }

  /** The scalar fields of a reception session and the payload bytes kept in the session block. */
  datatype RxFields = RxFields(
    descriptor: nat, timestamp: u64, calculatedCrc: Register, payloadLen: Length, transferId: Tid,
    nextToggle: bool, payloadCrc: Register, iface: u8, head: seq<u8>)

  function First(list: seq<nat>, otherwise: int): int {
    if list == [] then otherwise else list[0]
  }

  /** Following `next` from `p` visits exactly `list` and then reaches `q`. */
  ghost predicate Segment(m: seq<Block>, p: int, list: seq<nat>, q: int)
    decreases list
  {
    if list == [] then p == q
    else p == list[0] && list[0] < |m| && Segment(m, m[list[0]].next, list[1..], q)
  }

  ghost predicate Linked(m: seq<Block>, p: int, list: seq<nat>) {
    Segment(m, p, list, NULL)
  }

  lemma {:induction false} SegmentInRange(m: seq<Block>, p: int, list: seq<nat>, q: int)
    requires Segment(m, p, list, q)
    ensures forall b :: b in list ==> b < |m|
    ensures forall k :: 0 <= k < |list| ==> list[k] < |m|
    ensures p == First(list, q)
    decreases list
  {
    if list != [] {
      assert list == [list[0]] + list[1..];
      SegmentInRange(m, m[list[0]].next, list[1..], q);
    }
  }

  lemma LinkedInRange(m: seq<Block>, p: int, list: seq<nat>)
    requires Linked(m, p, list)
    ensures forall b :: b in list ==> b < |m|
  {
    SegmentInRange(m, p, list, NULL);
  }

  /** Writes outside a list leave the list as it was. */
  lemma {:induction false} SegmentFrame(m: seq<Block>, m': seq<Block>, p: int, list: seq<nat>, q: int)
    requires Segment(m, p, list, q)
    requires |m'| == |m|
    requires forall b :: b in list && b < |m| ==> m'[b].next == m[b].next
    ensures Segment(m', p, list, q)
    decreases list
  {
    if list != [] {
      assert list[0] in list;
      SegmentFrame(m, m', m[list[0]].next, list[1..], q);
    }
  }

  lemma {:induction false} SegmentConcat(m: seq<Block>, p: int, a: seq<nat>, b: seq<nat>, q: int)
    requires Segment(m, p, a, First(b, q)) && Segment(m, First(b, q), b, q)
    ensures Segment(m, p, a + b, q)
    decreases a
  {
    if a == [] {
      assert a + b == b;
    } else {
      assert (a + b)[1..] == a[1..] + b;
      SegmentConcat(m, m[a[0]].next, a[1..], b, q);
    }
  }

  lemma {:induction false} SegmentSplit(m: seq<Block>, p: int, a: seq<nat>, b: seq<nat>, q: int)
    requires Segment(m, p, a + b, q)
    ensures Segment(m, p, a, First(b, q)) && Segment(m, First(b, q), b, q)
    decreases a
  {
    if a == [] {
      assert a + b == b;
    } else {
      assert (a + b)[1..] == a[1..] + b;
      SegmentSplit(m, m[a[0]].next, a[1..], b, q);
    }
  }

  /** Two readings of the same memory from the same pointer agree. */
  lemma {:induction false} LinkedDeterministic(m: seq<Block>, p: int, a: seq<nat>, b: seq<nat>)
    requires Linked(m, p, a) && Linked(m, p, b)
    ensures a == b
    decreases a
  {
    if a != [] && b != [] {
      LinkedDeterministic(m, m[p].next, a[1..], b[1..]);
    }
  }

  ghost predicate NoDuplicates(list: seq<nat>) {
    forall i, j :: 0 <= i < j < |list| ==> list[i] != list[j]
  }

  /** A list that reaches NULL visits no block twice: the library's lists are acyclic. */
  lemma {:induction false} LinkedNoDuplicates(m: seq<Block>, p: int, list: seq<nat>)
    requires Linked(m, p, list)
    ensures NoDuplicates(list)
  {
    forall i, j | 0 <= i < j < |list| ensures list[i] != list[j] {
      if list[i] == list[j] {
        assert list == list[..i] + list[i..] && list == list[..j] + list[j..];
        SegmentSplit(m, p, list[..i], list[i..], NULL);
        SegmentSplit(m, p, list[..j], list[j..], NULL);
        assert |list[i..]| > |list[j..]|;
        LinkedDeterministic(m, list[i], list[i..], list[j..]);
        assert false;
      }
    }
  }

  lemma LinkedOne(m: seq<Block>, b: nat)
    requires b < |m| && m[b].next == NULL
    ensures Linked(m, b, [b])
  {
    assert [b][1..] == [];
  }

  lemma LinkedNone(m: seq<Block>)
    ensures Linked(m, NULL, [])
  {
  }

  lemma LinkedHead(m: seq<Block>, p: int, list: seq<nat>)
    requires Linked(m, p, list)
    ensures p == First(list, NULL)
  {
  }

  lemma LinkedPush(m: seq<Block>, b: nat, list: seq<nat>)
    requires b < |m| && Linked(m, m[b].next, list)
    ensures Linked(m, b, [b] + list)
  {
    assert ([b] + list)[1..] == list;
  }

  /** The block at position k links to the one after it. */
  lemma LinkedNext(m: seq<Block>, p: int, list: seq<nat>, k: nat)
    requires Linked(m, p, list) && k < |list|
    ensures list[k] < |m|
    ensures m[list[k]].next == (if k + 1 < |list| then list[k + 1] else NULL)
    ensures Linked(m, m[list[k]].next, list[k + 1..])
  {
    assert list == list[..k] + list[k..];
    SegmentSplit(m, p, list[..k], list[k..], NULL);
    assert list[k..][1..] == list[k + 1..];
  }

  /** Linking block x between a non-empty list a and its continuation b. */
  lemma LinkedInsert(m: seq<Block>, m': seq<Block>, p: int, a: seq<nat>, x: nat, b: seq<nat>)
    requires Linked(m, p, a + b) && a != [] && x < |m| == |m'| && x !in a + b
    requires forall i :: 0 <= i < |m| && i != x && i != a[|a| - 1] ==> m'[i].next == m[i].next
    requires m'[x].next == First(b, NULL) && a[|a| - 1] < |m| && m'[a[|a| - 1]].next == x
    ensures Linked(m', p, a + [x] + b)
  {
    var last := a[|a| - 1];
    LinkedNoDuplicates(m, p, a + b);
    SegmentSplit(m, p, a, b, NULL);
    assert a == a[..|a| - 1] + [last];
    SegmentSplit(m, p, a[..|a| - 1], [last], First(b, NULL));
    SegmentInRange(m, p, a + b, NULL);
    forall k | 0 <= k < |a| - 1 ensures a[k] != last && a[k] != x && a[k] < |m| {
      assert (a + b)[k] == a[k] && (a + b)[|a| - 1] == last;
    }
    SegmentFrame(m, m', p, a[..|a| - 1], last);
    SegmentConcat(m', p, a[..|a| - 1], [last], x);
    forall k | 0 <= k < |b| ensures b[k] != last && b[k] != x && b[k] < |m| {
      assert (a + b)[|a| + k] == b[k] && (a + b)[|a| - 1] == last;
    }
    SegmentFrame(m, m', First(b, NULL), b, NULL);
    SegmentConcat(m', p, a, [x] + b, NULL);
    assert a + ([x] + b) == a + [x] + b;
  }

  /** Unlinking block x from between a non-empty list a and its continuation b. */
  lemma LinkedRemove(m: seq<Block>, m': seq<Block>, p: int, a: seq<nat>, x: nat, b: seq<nat>)
    requires Linked(m, p, a + [x] + b) && a != [] && |m'| == |m|
    requires forall i :: 0 <= i < |m| && i != x && i != a[|a| - 1] ==> m'[i].next == m[i].next
    requires a[|a| - 1] < |m| && x < |m| && m'[a[|a| - 1]].next == m[x].next
    ensures Linked(m', p, a + b) && x !in a + b
  {
    var last := a[|a| - 1];
    var whole := a + [x] + b;
    LinkedNoDuplicates(m, p, whole);
    SegmentInRange(m, p, whole, NULL);
    assert whole == a + ([x] + b);
    SegmentSplit(m, p, a, [x] + b, NULL);
    assert m[x].next == First(b, NULL);
    assert a == a[..|a| - 1] + [last];
    SegmentSplit(m, p, a[..|a| - 1], [last], x);
    forall k | 0 <= k < |a| - 1 ensures a[k] != last && a[k] != x && a[k] < |m| {
      assert whole[k] == a[k] && whole[|a| - 1] == last && whole[|a|] == x;
    }
    SegmentFrame(m, m', p, a[..|a| - 1], last);
    SegmentConcat(m', p, a[..|a| - 1], [last], First(b, NULL));
    forall k | 0 <= k < |b| ensures b[k] != last && b[k] != x && b[k] < |m| {
      assert whole[|a| + 1 + k] == b[k] && whole[|a| - 1] == last && whole[|a|] == x;
    }
    assert ([x] + b)[1..] == b;
    SegmentFrame(m, m', First(b, NULL), b, NULL);
    SegmentConcat(m', p, a, b, NULL);
    assert whole[|a| - 1] == last && whole[|a|] == x;
  }
}
