/** The staged firmware image of one device (components/airlink_ota/airlink_ota.c): begin, write, verify,
    activate, abort. A digest stands for the one image that has it; flash, hash and header checks that may
    fail are parameters. */
module OtaStream {
  import opened Bits

  /** The SHA-256 of an image, taken as collision free. */
  datatype Digest = Digest(image: seq<u8>)

  datatype Stream =
    | Idle
    | Active(size: nat, expected: Digest, written: seq<u8>)
    | Staged(image: seq<u8>)

  datatype Result = Ok | Failed

  datatype Stepped = Stepped(stream: Stream, result: Result)

  function Begin(s: Stream, size: nat, expected: Digest, ok: bool): Stepped {
    if size == 0 || !s.Idle? || !ok then Stepped(s, Failed) else Stepped(Active(size, expected, []), Ok)
  }

  function Remaining(s: Stream): nat {
    if s.Active? && |s.written| < s.size then s.size - |s.written| else 0
  }

  function Write(s: Stream, data: seq<u8>, ok: bool): Stepped {
    if !s.Active? || data == [] || |data| > Remaining(s) then Stepped(s, Failed)
    else if !ok then Stepped(Idle, Failed)
    else Stepped(s.(written := s.written + data), Ok)
  }

  function Verify(s: Stream, ok: bool): Stepped {
    if !s.Active? || |s.written| != s.size then Stepped(s, Failed)
    else if Digest(s.written) != s.expected || !ok then Stepped(Idle, Failed)
    else Stepped(Staged(s.written), Ok)
  }

  /** Selects the staged image for the next boot; the stream is over either way. */
  function Activate(s: Stream, ok: bool): Stepped {
    if !s.Staged? then Stepped(s, Failed) else Stepped(Idle, if ok then Ok else Failed)
  }

  function Abort(s: Stream): Stream { Idle }

  /** Writing several pieces, until one fails. */
  function WriteAll(s: Stream, pieces: seq<seq<u8>>, oks: seq<bool>): Stepped
    requires |oks| == |pieces|
    decreases pieces
  {
    if pieces == [] then Stepped(s, Ok)
    else
      var r := Write(s, pieces[0], oks[0]);
      if r.result == Failed then r else WriteAll(r.stream, pieces[1..], oks[1..])
  }

  function Joined(pieces: seq<seq<u8>>): seq<u8> {
    if pieces == [] then [] else pieces[0] + Joined(pieces[1..])
  }

  /** When all pieces are written, the stream has grown by exactly their bytes in order. */
  lemma {:induction false} WriteAllGrows(s: Stream, pieces: seq<seq<u8>>, oks: seq<bool>)
    requires |oks| == |pieces| && s.Active?
    ensures var r := WriteAll(s, pieces, oks);
      r.result == Ok ==> r.stream == s.(written := s.written + Joined(pieces))
    decreases pieces
  {
    if pieces == [] {
      assert s.written + [] == s.written;
    } else {
      var r := Write(s, pieces[0], oks[0]);
      if r.result == Ok {
        WriteAllGrows(r.stream, pieces[1..], oks[1..]);
        Regroup(s.written, pieces[0], Joined(pieces[1..]));
      }
    }
  }

  /** As long as flash works, pieces that fit are all written. */
  lemma {:induction false} WriteAllSucceeds(s: Stream, pieces: seq<seq<u8>>, oks: seq<bool>)
    requires |oks| == |pieces| && s.Active? && |s.written| + |Joined(pieces)| <= s.size
    requires forall k :: 0 <= k < |pieces| ==> pieces[k] != [] && oks[k]
    ensures WriteAll(s, pieces, oks) == Stepped(s.(written := s.written + Joined(pieces)), Ok)
    decreases pieces
  {
    if pieces == [] {
      assert s.written + [] == s.written;
    } else {
      var r := Write(s, pieces[0], oks[0]);
      WriteAllSucceeds(r.stream, pieces[1..], oks[1..]);
      Regroup(s.written, pieces[0], Joined(pieces[1..]));
    }
  }

  lemma Regroup(a: seq<u8>, b: seq<u8>, c: seq<u8>)
    ensures a + (b + c) == (a + b) + c
  {
  }

  /** The stream as the source keeps it: flags, counters, and the partition being written. */
  class OtaStream {
    var active: bool
    var verified: bool
    var inProgress: bool
    var imageSize: nat
    var expected: Digest
    var partition: seq<u8>
    var written: nat

    ghost predicate Valid()
      reads this
    {
      && !(active && verified) && (inProgress <==> active || verified)
      && (active ==> written == |partition|) && (verified ==> written == |partition| == imageSize)
    }

    ghost function Value(): Stream
      reads this
    {
      if active then Active(imageSize, expected, partition) else if verified then Staged(partition) else Idle
    }

    constructor ()
      ensures Valid() && Value() == Idle
    {
      active, verified, inProgress, imageSize, expected, partition, written := false, false, false, 0, Digest([]), [], 0;
    }

    method Clear()
      modifies this
      ensures Valid() && Value() == Idle
    {
      active, verified, imageSize, expected, partition, written := false, false, 0, Digest([]), [], 0;
      inProgress := false;
    }

    /** airlink_ota_stream_begin_versioned; `ok` covers the partition, the flash driver and the hash. */
    method BeginStream(size: nat, expected: Digest, ok: bool) returns (r: Result)
      requires Valid()
      modifies this
      ensures Valid() && Stepped(Value(), r) == Begin(old(Value()), size, expected, ok)
    {
      if size == 0 || active || verified {
        return Failed;
      }
      if inProgress {
        return Failed;
      }
      inProgress := true;
      if !ok {
        Clear();
        return Failed;
      }
      imageSize, this.expected, partition, written := size, expected, [], 0;
      active := true;
      return Ok;
    }

    /** airlink_ota_stream_remaining */
    method RemainingBytes() returns (n: nat)
      requires Valid()
      ensures n == Remaining(Value())
    {
      n := if active && written < imageSize then imageSize - written else 0;
    }

    /** airlink_ota_stream_abort */
    method AbortStream()
      requires Valid()
      modifies this
      ensures Valid() && Value() == Abort(old(Value()))
    {
      if !active && !verified {
        return;
      }
      Clear();
    }

    /** airlink_ota_stream_write */
    method WriteStream(data: seq<u8>, ok: bool) returns (r: Result)
      requires Valid()
      modifies this
      ensures Valid() && Stepped(Value(), r) == Write(old(Value()), data, ok)
    {
      var remaining := RemainingBytes();
      if !active || |data| == 0 || |data| > remaining {
        return Failed;
      }
      if !ok {
        AbortStream();
        return Failed;
      }
      partition := partition + data;
      written := written + |data|;
      return Ok;
    }

    /** airlink_ota_stream_verify; `ok` covers the header and hardware marker checks. */
    method VerifyStream(ok: bool) returns (r: Result)
      requires Valid()
      modifies this
      ensures Valid() && Stepped(Value(), r) == Verify(old(Value()), ok)
    {
      if !active || written != imageSize {
        return Failed;
      }
      if Digest(partition) != expected || !ok {
        Clear();
        return Failed;
      }
      active, verified := false, true;
      return Ok;
    }

    /** airlink_ota_stream_activate */
    method ActivateStream(ok: bool) returns (r: Result)
      requires Valid()
      modifies this
      ensures Valid() && Stepped(Value(), r) == Activate(old(Value()), ok)
    {
      if !verified {
        return Failed;
      }
      Clear();
      return if ok then Ok else Failed;
    }
  }

  // ---------- Whole runs ----------

  datatype Call =
    | BeginCall(size: nat, expected: Digest, ok: bool)
    | WriteCall(data: seq<u8>, ok: bool)
    | VerifyCall(ok: bool)
    | ActivateCall(ok: bool)
    | AbortCall

  function Apply(s: Stream, c: Call): Stepped {
    match c
    case BeginCall(size, expected, ok) => Begin(s, size, expected, ok)
    case WriteCall(data, ok) => Write(s, data, ok)
    case VerifyCall(ok) => Verify(s, ok)
    case ActivateCall(ok) => Activate(s, ok)
    case AbortCall => Stepped(Abort(s), Ok)
  }

  /** A stream with its past: what the last successful begin announced, and all bytes successfully written since. */
  datatype Past = Past(stream: Stream, size: nat, expected: Digest, bytes: seq<u8>)

  function Follow(p: Past, c: Call): Past {
    var r := Apply(p.stream, c);
    if r.result == Failed then p.(stream := r.stream)
    else
      match c
      case BeginCall(size, expected, _) => Past(r.stream, size, expected, [])
      case WriteCall(data, _) => p.(stream := r.stream, bytes := p.bytes + data)
      case VerifyCall(_) => p.(stream := r.stream)
      case ActivateCall(_) => p.(stream := r.stream)
      case AbortCall => p.(stream := r.stream)
  }

  function FollowAll(p: Past, cs: seq<Call>): Past
    decreases cs
  {
    if cs == [] then p else FollowAll(Follow(p, cs[0]), cs[1..])
  }

  /** What is written is what was handed over since the announcement; what is staged is all of it, with the announced
      length and digest. */
  predicate Faithful(p: Past) {
    match p.stream
    case Idle => true
    case Active(size, expected, written) => size == p.size && expected == p.expected && written == p.bytes && |written| <= size
    case Staged(image) => image == p.bytes && |image| == p.size && Digest(image) == p.expected
  }

  /** Over every run of calls, failing ones included, a staged image is the announced one, made of exactly the bytes
      written since the announcement. */
  lemma {:induction false} StagedIsAnnounced(p: Past, cs: seq<Call>)
    requires Faithful(p)
    ensures Faithful(FollowAll(p, cs))
    decreases cs
  {
    if cs != [] {
      StagedIsAnnounced(Follow(p, cs[0]), cs[1..]);
    }
  }

  /** So an image can only be activated if its digest was announced and every byte of it was written. */
  lemma {:induction false} ActivatedIsAnnounced(cs: seq<Call>, ok: bool)
    ensures
      var p := FollowAll(Past(Idle, 0, Digest([]), []), cs);
      Activate(p.stream, ok).result == Ok ==> p.stream == Staged(p.bytes) && Digest(p.bytes) == p.expected
  {
    StagedIsAnnounced(Past(Idle, 0, Digest([]), []), cs);
  }
  /** An image that is announced, then written in pieces of any size, passes verification exactly if its length and
      digest are the announced ones; then it can be activated, and the device is ready for the next update. */
  lemma {:induction false} ImageGoesThrough(size: nat, expected: Digest, pieces: seq<seq<u8>>)
    requires 0 < |Joined(pieces)| <= size && forall k :: 0 <= k < |pieces| ==> pieces[k] != []
    ensures
      var begun := Begin(Idle, size, expected, true);
      var written := WriteAll(begun.stream, pieces, seq(|pieces|, _ => true));
      var verified := Verify(written.stream, true);
      begun.result == Ok && written.result == Ok && Remaining(written.stream) == size - |Joined(pieces)| &&
      (verified.result == Ok <==> |Joined(pieces)| == size && Digest(Joined(pieces)) == expected) &&
      (verified.result == Ok ==>
         verified.stream == Staged(Joined(pieces)) && Activate(verified.stream, true) == Stepped(Idle, Ok))
  {
    WriteAllSucceeds(Active(size, expected, []), pieces, seq(|pieces|, _ => true));
    assert [] + Joined(pieces) == Joined(pieces);
  }
}
