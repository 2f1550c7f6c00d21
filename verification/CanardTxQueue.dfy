/** The transmit queue as a sequence of frames: CAN arbitration order and first-in first-out
    among equal identifiers. */
module CanardTxQueue {
  import opened CanardFrame

  /** A frame with identifier `id` must leave before one with identifier `other`:
      extended frames lose to standard ones on equal leading bits, remote frames lose to data
      frames, otherwise the smaller identifier wins. */
  predicate Precedes(id: Id, other: Id) {
    if IsExtended(id) != IsExtended(other) then
      var arb := if IsExtended(id) then CleanId(id) / 0x4_0000 else CleanId(id);
      var otherArb := if IsExtended(other) then CleanId(other) / 0x4_0000 else CleanId(other);
      if arb != otherArb then arb < otherArb else IsExtended(other)
    else if CleanId(id) == CleanId(other) && IsRemote(id) != IsRemote(other) then IsRemote(other)
    else CleanId(id) < CleanId(other)
  }

  lemma PrecedesAsymmetric(a: Id, b: Id)
    ensures !(Precedes(a, b) && Precedes(b, a))
  {
  }

  lemma PrecedesTransitive(a: Id, b: Id, c: Id)
    ensures Precedes(a, b) && Precedes(b, c) ==> Precedes(a, c)
    ensures !Precedes(b, a) && !Precedes(c, b) ==> !Precedes(c, a)
  {
  }

  /** No frame is preceded by one that stands behind it. */
  ghost predicate Sorted(q: seq<Frame>) {
    forall i, j :: 0 <= i < j < |q| ==> !Precedes(q[j].id, q[i].id)
  }

  /** The frames with one identifier, in order. */
  function Select(q: seq<Frame>, id: Id): seq<Frame> {
    if q == [] then []
    else (if q[0].id == id then [q[0]] else []) + Select(q[1..], id)
  }

  /** Place of a new frame: in front of the first frame it must leave before. */
  function Insert(q: seq<Frame>, f: Frame): seq<Frame> {
    if q == [] then [f]
    else if Precedes(f.id, q[0].id) then [f] + q
    else [q[0]] + Insert(q[1..], f)
  }

  function InsertAll(q: seq<Frame>, fs: seq<Frame>): seq<Frame>
    decreases fs
  {
    if fs == [] then q else InsertAll(Insert(q, fs[0]), fs[1..])
  }

  /** The position the linked-list walk stops at describes the insertion. */
  lemma {:induction false} InsertAt(q: seq<Frame>, f: Frame, k: nat)
    requires k <= |q|
    requires forall i :: 0 <= i < k ==> !Precedes(f.id, q[i].id)
    requires k < |q| ==> Precedes(f.id, q[k].id)
    ensures Insert(q, f) == q[..k] + [f] + q[k..]
  {
    if k > 0 {
      InsertAt(q[1..], f, k - 1);
      assert q[1..][..k - 1] == q[1..k] && q[1..][k - 1..] == q[k..];
      assert q[..k] == [q[0]] + q[1..k];
    } else {
      assert q[..0] == [] && q[0..] == q;
    }
  }

  lemma ConsMembers(f: Frame, q: seq<Frame>)
    ensures multiset([f] + q) == multiset{f} + multiset(q)
  {
  }

  lemma InsertStep(q: seq<Frame>, f: Frame)
    ensures Insert(q, f) == if q == [] || Precedes(f.id, q[0].id) then [f] + q else [q[0]] + Insert(q[1..], f)
  {
  }

  lemma {:induction false} InsertMembers(q: seq<Frame>, f: Frame)
    ensures multiset(Insert(q, f)) == multiset(q) + multiset{f}
  {
    hide Precedes, Insert;
    InsertStep(q, f);
    if q == [] || Precedes(f.id, q[0].id) {
      ConsMembers(f, q);
    } else {
      InsertMembers(q[1..], f);
      assert q == [q[0]] + q[1..];
      ConsMembers(q[0], q[1..]);
      ConsMembers(q[0], Insert(q[1..], f));
    }
  }

  lemma {:induction false} InsertSorted(q: seq<Frame>, f: Frame)
    requires Sorted(q)
    ensures Sorted(Insert(q, f))
  {
    if q == [] {
    } else if Precedes(f.id, q[0].id) {
      var r := [f] + q;
      forall i, j | 0 <= i < j < |r| ensures !Precedes(r[j].id, r[i].id) {
        if i == 0 {
          PrecedesAsymmetric(f.id, q[0].id);
          PrecedesTransitive(f.id, q[0].id, r[j].id);
          assert j == 1 || !Precedes(q[j - 1].id, q[0].id);
        } else {
          assert r[i] == q[i - 1] && r[j] == q[j - 1];
        }
      }
    } else {
      InsertSorted(q[1..], f);
      InsertMembers(q[1..], f);
      var r := Insert(q[1..], f);
      forall x | x in r ensures !Precedes(x.id, q[0].id) {
        assert x in multiset(r);
        assert x in q[1..] || x == f;
      }
    }
  }

  /** Frames with the new frame's identifier all stay in front of it; other identifiers keep their order. */
  lemma {:induction false} InsertSelect(q: seq<Frame>, f: Frame, id: Id)
    requires Sorted(q)
    ensures Select(Insert(q, f), id) == Select(q, id) + (if f.id == id then [f] else [])
  {
    if q == [] {
    } else if Precedes(f.id, q[0].id) {
      assert ([f] + q)[1..] == q;
      if f.id == id {
        NoneBehind(q, f.id);
      }
    } else {
      InsertSelect(q[1..], f, id);
      assert Insert(q, f)[1..] == Insert(q[1..], f);
    }
  }

  /** A frame that must leave before the head of a sorted queue has no twin in the queue. */
  lemma {:induction false} NoneBehind(q: seq<Frame>, id: Id)
    requires Sorted(q) && (q != [] ==> Precedes(id, q[0].id))
    ensures Select(q, id) == []
  {
    if q != [] {
      PrecedesAsymmetric(id, q[0].id);
      if |q| > 1 {
        assert !Precedes(q[1].id, q[0].id);
        if !Precedes(id, q[1].id) {
          PrecedesTransitive(q[0].id, q[1].id, id);
        }
      }
      NoneBehind(q[1..], id);
    }
  }

  lemma {:induction false} InsertAllOrder(q: seq<Frame>, fs: seq<Frame>, id: Id)
    requires Sorted(q)
    ensures Sorted(InsertAll(q, fs))
    ensures Select(InsertAll(q, fs), id) == Select(q, id) + Select(fs, id)
    ensures |InsertAll(q, fs)| == |q| + |fs|
    decreases fs
  {
    if fs != [] {
      InsertSorted(q, fs[0]);
      InsertSelect(q, fs[0], id);
      InsertMembers(q, fs[0]);
      assert |multiset(Insert(q, fs[0]))| == |q| + 1;
      InsertAllOrder(Insert(q, fs[0]), fs[1..], id);
    }
  }

  lemma {:induction false} InsertAllConcat(q: seq<Frame>, a: seq<Frame>, b: seq<Frame>)
    ensures InsertAll(q, a + b) == InsertAll(InsertAll(q, a), b)
    decreases a
  {
    if a == [] {
      assert a + b == b;
    } else {
      assert (a + b)[1..] == a[1..] + b;
      InsertAllConcat(Insert(q, a[0]), a[1..], b);
    }
  }

  lemma InsertAllNothing(q: seq<Frame>)
    ensures InsertAll(q, []) == q
  {
  }

  lemma {:induction false} InsertAllNext(q: seq<Frame>, fs: seq<Frame>, n: nat)
    requires n < |fs|
    ensures InsertAll(q, fs[..n + 1]) == Insert(InsertAll(q, fs[..n]), fs[n])
  {
    assert fs[..n + 1] == fs[..n] + [fs[n]];
    InsertAllConcat(q, fs[..n], [fs[n]]);
    assert [fs[n]][1..] == [];
  }

  lemma {:induction false} SelectConcat(a: seq<Frame>, b: seq<Frame>, id: Id)
    ensures Select(a + b, id) == Select(a, id) + Select(b, id)
    decreases a
  {
    if a == [] {
      assert a + b == b;
    } else {
      var head := if a[0].id == id then [a[0]] else [];
      assert (a + b)[0] == a[0] && (a + b)[1..] == a[1..] + b;
      SelectConcat(a[1..], b, id);
      Associative(head, Select(a[1..], id), Select(b, id));
    }
  }

  // ---------- Whole runs ----------

  /** One transfer's frames enter together; one frame leaves at a time. */
  datatype Op = Enqueue(frames: seq<Frame>) | Pop

  datatype Run = Run(queue: seq<Frame>, entered: seq<Frame>, left: seq<Frame>)

  function Step(r: Run, op: Op): Run {
    match op
    case Enqueue(fs) => r.(queue := InsertAll(r.queue, fs), entered := r.entered + fs)
    case Pop => if r.queue == [] then r
                else r.(queue := r.queue[1..], left := r.left + [r.queue[0]])
  }

  function Execute(r: Run, ops: seq<Op>): Run
    decreases ops
  {
    if ops == [] then r else Execute(Step(r, ops[0]), ops[1..])
  }

  ghost predicate Ordered(r: Run, id: Id) {
    && Sorted(r.queue)
    && Select(r.left, id) + Select(r.queue, id) == Select(r.entered, id)
  }

  lemma {:induction false} StepOrdered(r: Run, op: Op, id: Id)
    requires Ordered(r, id)
    ensures Ordered(Step(r, op), id)
  {
    hide Select, Insert, Sorted;
    match op
    case Enqueue(fs) =>
      SelectGrows(r.left, r.queue, r.entered, fs, id);
    case Pop =>
      if r.queue != [] {
        SelectMoves(r.left, r.queue, id);
        TailSorted(r.queue);
      }
  }

  lemma TailSorted(q: seq<Frame>)
    requires Sorted(q) && q != []
    ensures Sorted(q[1..])
  {
  }

  lemma SelectGrows(left: seq<Frame>, queue: seq<Frame>, entered: seq<Frame>, fs: seq<Frame>, id: Id)
    requires Sorted(queue) && Select(left, id) + Select(queue, id) == Select(entered, id)
    ensures Sorted(InsertAll(queue, fs))
    ensures Select(left, id) + Select(InsertAll(queue, fs), id) == Select(entered + fs, id)
  {
    hide Select, Insert, Sorted;
    InsertAllOrder(queue, fs, id);
    SelectConcat(entered, fs, id);
    Associative(Select(left, id), Select(queue, id), Select(fs, id));
  }

  lemma Associative(a: seq<Frame>, b: seq<Frame>, c: seq<Frame>)
    ensures a + (b + c) == (a + b) + c
  {
  }

  lemma SelectMoves(a: seq<Frame>, b: seq<Frame>, id: Id)
    requires b != []
    ensures Select(a + [b[0]], id) + Select(b[1..], id) == Select(a, id) + Select(b, id)
  {
    hide Select;
    var (a', b') := (a + [b[0]], b[1..]);
    assert a' + b' == a + b;
    SelectConcat(a', b', id);
    SelectConcat(a, b, id);
  }

  /** Over every run: the queue stays in arbitration order, and for each identifier the frames that
      left followed by those still queued are exactly the frames that entered, in order. So a
      transfer's frames leave in order and two transfers with one identifier never interleave. */
  lemma {:induction false} RunOrdered(r: Run, ops: seq<Op>, id: Id)
    requires Ordered(r, id)
    ensures Ordered(Execute(r, ops), id)
    decreases ops
  {
    if ops != [] {
      StepOrdered(r, ops[0], id);
      RunOrdered(Step(r, ops[0]), ops[1..], id);
    }
  }

  /** The frame that leaves next is one that nothing in the queue must leave before. */
  lemma PopsHighest(q: seq<Frame>, k: nat)
    requires Sorted(q) && k < |q|
    ensures !Precedes(q[k].id, q[0].id)
  {
    if k == 0 {
      PrecedesAsymmetric(q[0].id, q[0].id);
    }
  }
}
