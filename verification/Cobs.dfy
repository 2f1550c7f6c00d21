/** Consistent overhead byte stuffing and the zero-delimited frames of the USB link
    (components/airlink_usb/airlink_usb.c). */
module Cobs {
  import opened Bits

  const RPC_MAX_PAYLOAD := 3072
  const RPC_FRAME_MAX := RPC_MAX_PAYLOAD + 64
  const RPC_ENCODED_MAX := RPC_FRAME_MAX + 32
  const RPC_HEADER_SIZE := 16
  const BLOCK_MAX := 254

  // ---------- The code as a function ----------

  /** Number of leading nonzero bytes, up to a full block. */
  function Run(x: seq<u8>): (n: nat)
    ensures n <= |x| && n <= BLOCK_MAX && forall i :: 0 <= i < n ==> x[i] != 0
    ensures n < BLOCK_MAX && n < |x| ==> x[n] == 0
  {
    RunFrom(x, 0)
  }

  function RunFrom(x: seq<u8>, from: nat): (n: nat)
    requires from <= |x| && from <= BLOCK_MAX && forall i :: 0 <= i < from ==> x[i] != 0
    ensures from <= n <= |x| && n <= BLOCK_MAX && forall i :: 0 <= i < n ==> x[i] != 0
    ensures n < BLOCK_MAX && n < |x| ==> x[n] == 0
    decreases |x| - from
  {
    if from == |x| || from == BLOCK_MAX || x[from] == 0 then from else RunFrom(x, from + 1)
  }

  function Encode(x: seq<u8>): (e: seq<u8>)
    ensures e != []
    decreases |x|
  {
    var n := Run(x);
    if n == BLOCK_MAX then [0xFF] + x[..n] + Encode(x[n..])
    else if n == |x| then [n + 1] + x
    else [n + 1] + x[..n] + Encode(x[n + 1..])
  }

  /** The zero that a block stands for, unless the block is full or the last one. */
  function Separator(code: u8, rest: seq<u8>): (s: seq<u8>)
    ensures |s| <= 1
  {
    if code != 0xFF && rest != [] then [0] else []
  }

  function Decode(e: seq<u8>): Option<seq<u8>>
    decreases |e|
  {
    if e == [] then Some([])
    else
      var code := e[0];
      if code == 0 || code > |e| then None
      else
        var rest := Decode(e[code..]);
        if rest.None? then None
        else Some(e[1..code] + Separator(code, e[code..]) + rest.value)
  }

  lemma DecodeBlock(code: u8, block: seq<u8>, rest: seq<u8>)
    requires code == |block| + 1 && Decode(rest).Some?
    ensures Decode([code] + block + rest) == Some(block + Separator(code, rest) + Decode(rest).value)
  {
    hide Separator;
    var e := [code] + block + rest;
    assert e[1..code] == block;
    assert e[code..] == rest;
  }

  /** Decoding undoes encoding, for every input. */
  lemma {:induction false} RoundTrip(x: seq<u8>)
    ensures Decode(Encode(x)) == Some(x)
    decreases |x|
  {
    hide Decode;
    var n := Run(x);
    if n == BLOCK_MAX {
      RoundTrip(x[n..]);
      DecodeBlock(0xFF, x[..n], Encode(x[n..]));
      assert x == x[..n] + [] + x[n..];
    } else if n == |x| {
      DecodeNothing();
      DecodeBlock(n + 1, x, []);
      assert [n + 1] + x == [n + 1] + x + [];
      assert x == x + [] + [];
    } else {
      RoundTrip(x[n + 1..]);
      DecodeBlock(n + 1, x[..n], Encode(x[n + 1..]));
      assert x == x[..n] + [0] + x[n + 1..];
    }
  }

  lemma DecodeNothing()
    ensures Decode([]) == Some([])
  {
  }

  ghost predicate ZeroFree(s: seq<u8>) { forall i :: 0 <= i < |s| ==> s[i] != 0 }

  /** The encoding contains no zero byte. */
  lemma {:induction false} NoZero(x: seq<u8>)
    ensures ZeroFree(Encode(x))
    decreases |x|
  {
    var n := Run(x);
    if n == BLOCK_MAX {
      NoZero(x[n..]);
    } else if n < |x| {
      NoZero(x[n + 1..]);
    }
  }

  /** Encoding costs one byte, and one more per full block. */
  lemma {:induction false} LengthBound(x: seq<u8>)
    ensures |x| < |Encode(x)| <= |x| + |x| / BLOCK_MAX + 1
    decreases |x|
  {
    var n := Run(x);
    if n == BLOCK_MAX {
      LengthBound(x[n..]);
    } else if n < |x| {
      LengthBound(x[n + 1..]);
    }
  }

  // ---------- Encoding ----------

  lemma RunExact(open: seq<u8>, rest: seq<u8>)
    requires |open| <= BLOCK_MAX && ZeroFree(open)
    requires |open| == BLOCK_MAX || rest == [] || rest[0] == 0
    ensures Run(open + rest) == |open|
  {
    var x := open + rest;
    assert forall i :: 0 <= i < |open| ==> x[i] == open[i];
    if rest != [] {
      assert x[|open|] == rest[0];
    }
  }

  /** Closing the open block when a zero follows, when it is full, or at the end. */
  lemma EncodeOpen(open: seq<u8>, rest: seq<u8>)
    requires |open| <= BLOCK_MAX && ZeroFree(open)
    ensures |open| == BLOCK_MAX ==> Encode(open + rest) == [0xFF] + open + Encode(rest)
    ensures |open| < BLOCK_MAX && rest == [] ==> Encode(open + rest) == [|open| + 1] + open
    ensures |open| < BLOCK_MAX && rest != [] && rest[0] == 0 ==>
      Encode(open + rest) == [|open| + 1] + open + Encode(rest[1..])
  {
    var x := open + rest;
    if |open| == BLOCK_MAX || rest == [] || rest[0] == 0 {
      RunExact(open, rest);
      assert x[..|open|] == open && x[|open|..] == rest;
      if |open| < BLOCK_MAX && rest != [] {
        assert x[|open| + 1..] == rest[1..];
      } else if |open| < BLOCK_MAX {
        assert x == open;
      }
    }
  }

  /** What is written so far, the bytes of the open block and the bytes still to be read give the encoding. */
  ghost predicate Encoding(input: seq<u8>, done: seq<u8>, open: seq<u8>, rest: seq<u8>) {
    && |open| < BLOCK_MAX && ZeroFree(open)
    && Encode(input) == done + Encode(open + rest)
  }

  lemma EncodingStarts(input: seq<u8>)
    ensures Encoding(input, [], [], input)
  {
    assert [] + input == input && [] + Encode(input) == Encode(input);
  }

  lemma EncodingZero(input: seq<u8>, done: seq<u8>, open: seq<u8>, rest: seq<u8>)
    requires Encoding(input, done, open, [0] + rest)
    ensures Encoding(input, done + [|open| + 1] + open, [], rest)
    ensures |Encode(input)| > |done| + 1 + |open|
  {
    hide Encode;
    EncodeOpen(open, [0] + rest);
    assert ([0] + rest)[1..] == rest && [] + rest == rest;
    Regroup(done, [|open| + 1] + open, Encode(rest));
    Regroup(done, [|open| + 1], open);
  }

  lemma EncodingByte(input: seq<u8>, done: seq<u8>, open: seq<u8>, x: u8, rest: seq<u8>)
    requires Encoding(input, done, open, [x] + rest) && x != 0
    ensures |Encode(input)| > |done| + 1 + |open|
    ensures |open| + 1 < BLOCK_MAX ==> Encoding(input, done, open + [x], rest)
    ensures |open| + 1 == BLOCK_MAX ==> Encoding(input, done + [0xFF] + (open + [x]), [], rest)
    ensures |open| + 1 == BLOCK_MAX ==> |Encode(input)| > |done| + 1 + |open + [x]|
  {
    hide Encode;
    assert open + ([x] + rest) == (open + [x]) + rest;
    LengthBound(open + ([x] + rest));
    if |open| + 1 == BLOCK_MAX {
      EncodeOpen(open + [x], rest);
      assert [] + rest == rest;
      Regroup(done, [0xFF] + (open + [x]), Encode(rest));
      Regroup(done, [0xFF], open + [x]);
    }
  }

  lemma EncodingEnds(input: seq<u8>, done: seq<u8>, open: seq<u8>)
    requires Encoding(input, done, open, [])
    ensures Encode(input) == done + [|open| + 1] + open
  {
    hide Encode;
    EncodeOpen(open, []);
    assert open + [] == open;
    Regroup(done, [|open| + 1], open);
  }

  /** cobs_encode: writes the encoding, or returns zero exactly when it does not fit. */
  method CobsEncode(input: seq<u8>, output: array<u8>, capacity: nat) returns (length: nat)
    requires capacity <= output.Length
    modifies output
    ensures length == (if |Encode(input)| <= capacity then |Encode(input)| else 0)
    ensures length > 0 ==> output[..length] == Encode(input)
  {
    hide Encode, Encoding;
    if capacity == 0 {
      return 0;
    }
    var codeIndex, write, code := 0, 1, 1;
    EncodingStarts(input);
    assert input[0..] == input && output[..0] == [] && output[1..1] == [];
    ghost var open: seq<u8> := [];
    for read := 0 to |input|
      invariant codeIndex + 1 + |open| == write <= capacity && code == |open| + 1 <= BLOCK_MAX
      invariant output[codeIndex + 1..write] == open
      invariant Encoding(input, output[..codeIndex], open, input[read..])
    {
      ghost var before, rest := output[..codeIndex], input[read + 1..];
      assert input[read..] == [input[read]] + rest;
      if input[read] == 0 {
        EncodingZero(input, before, open, rest);
        output[codeIndex] := code;
        assert output[..write] == before + [code] + open;
        codeIndex, write := write, write + 1;
        open := [];
        if write > capacity {
          return 0;
        }
        code := 1;
      } else {
        EncodingByte(input, before, open, input[read], rest);
        if write >= capacity {
          return 0;
        }
        output[write] := input[read];
        assert output[..codeIndex] == before;
        write := write + 1;
        open := open + [input[read]];
        code := code + 1;
        if code == 0xFF {
          output[codeIndex] := code;
          assert output[..write] == before + [0xFF] + open;
          codeIndex, write := write, write + 1;
          open := [];
          if write > capacity {
            return 0;
          }
          code := 1;
        }
      }
    }
    assert input[|input|..] == [];
    ghost var before := output[..codeIndex];
    EncodingEnds(input, before, open);
    output[codeIndex] := code;
    assert output[..write] == before + [code] + open;
    return write;
  }

  // ---------- Decoding ----------

  /** The bytes written so far, followed by whatever the rest decodes to. */
  function Then(done: seq<u8>, rest: Option<seq<u8>>): Option<seq<u8>> {
    if rest.None? then None else Some(done + rest.value)
  }

  lemma ThenAll(input: seq<u8>, none: seq<u8>)
    requires none == []
    ensures Decode(input) == Then(none, Decode(input))
  {
    hide Decode;
    if Decode(input).Some? {
      assert none + Decode(input).value == Decode(input).value;
    }
  }

  lemma Within(input: seq<u8>, read: nat, code: nat)
    requires 0 < code <= |input| - read
    ensures input[read..][1..code] == input[read + 1..read + code] && input[read..][code..] == input[read + code..]
  {
  }

  lemma DecodeNext(input: seq<u8>, done: seq<u8>, rest: seq<u8>)
    requires rest != [] && Decode(input) == Then(done, Decode(rest))
    ensures rest[0] == 0 || rest[0] > |rest| ==> Decode(input).None?
    ensures 0 < rest[0] <= |rest| ==>
      Decode(input) == Then(done + (rest[1..rest[0]] + Separator(rest[0], rest[rest[0]..])), Decode(rest[rest[0]..]))
  {
    var code := rest[0];
    if 0 < code <= |rest| && Decode(rest[code..]).Some? {
      Regroup(done, rest[1..code] + Separator(code, rest[code..]), Decode(rest[code..]).value);
    }
  }

  lemma SeparatorIs(code: u8, rest: seq<u8>)
    ensures Separator(code, rest) == if code != 0xFF && rest != [] then [0] else []
  {
  }

  function DecodedLength(d: Option<seq<u8>>, capacity: nat): nat {
    if d.Some? && |d.value| <= capacity then |d.value| else 0
  }

  /** cobs_decode: writes the decoded bytes, or returns zero when the input is malformed or they do not fit. */
  method CobsDecode(input: seq<u8>, output: array<u8>) returns (length: nat)
    modifies output
    ensures length == DecodedLength(Decode(input), output.Length)
    ensures length > 0 ==> Decode(input) == Some(output[..length])
  {
    hide Decode, Separator;
    var read, write := 0, 0;
    assert input[0..] == input;
    ThenAll(input, output[..0]);
    while read < |input|
      invariant read <= |input| && write <= output.Length
      invariant Decode(input) == Then(output[..write], Decode(input[read..]))
    {
      ghost var done, rest := output[..write], input[read..];
      DecodeNext(input, done, rest);
      var code := input[read];
      read := read + 1;
      if code == 0 || read + code - 1 > |input| {
        return 0;
      }
      ghost var start := read;
      Within(input, read - 1, code);
      assert output[..write] == done + input[start..start];
      for i := 1 to code
        invariant read == start + i - 1 && write == |done| + i - 1 <= output.Length
        invariant output[..write] == done + input[start..read]
      {
        if write >= output.Length {
          return 0;
        }
        output[write] := input[read];
        write, read := write + 1, read + 1;
        assert output[..write] == done + (input[start..read - 1] + [input[read - 1]]);
      }
      Regroup(done, rest[1..code], Separator(code, rest[code..]));
      if code != 0xFF && read < |input| {
        SeparatorIs(code, rest[code..]);
        if write >= output.Length {
          return 0;
        }
        output[write] := 0;
        write := write + 1;
        assert output[..write] == done + rest[1..code] + [0];
      } else {
        SeparatorIs(code, rest[code..]);
        assert output[..write] == done + rest[1..code] + [];
      }
      assert input[read..] == rest[code..];
    }
    assert input[read..] == [];
    DecodeNothing();
    assert output[..write] + [] == output[..write];
    return write;
  }

  lemma Regroup(a: seq<u8>, b: seq<u8>, c: seq<u8>)
    ensures a + (b + c) == (a + b) + c
  {
  }
}
