/** Bytes as integers and as their eight bits, most significant first. */
module Bits {
  type u8 = x: int | 0 <= x < 0x100
  type u16 = x: int | 0 <= x < 0x1_0000
  type u32 = x: int | 0 <= x < 0x1_0000_0000
  type u64 = x: int | 0 <= x < 0x1_0000_0000_0000_0000

  datatype Option<+T> = None | Some(value: T)

  /** Unsigned subtraction of 64-bit counters, wrapping as in the source. */
  function Elapsed(now: u64, since: u64): u64 {
    (now - since) % 0x1_0000_0000_0000_0000
  }

  type Byte = s: seq<bool> | |s| == 8 witness [false, false, false, false, false, false, false, false]

  type Nibble = s: seq<bool> | |s| == 4 witness [false, false, false, false]

  /** The four bits of n, most significant first. */
  function NibbleOf(n: nat): Nibble
    requires n < 16
  {
    [n >= 8, n % 8 >= 4, n % 4 >= 2, n % 2 == 1]
  }

  function NibbleValue(s: Nibble): (n: nat)
    ensures n < 16
  {
    (if s[0] then 8 else 0) + (if s[1] then 4 else 0) + (if s[2] then 2 else 0) + (if s[3] then 1 else 0)
  }

  lemma NibbleOfValue(s: Nibble)
    ensures NibbleOf(NibbleValue(s)) == s
  {
  }

  lemma ValueOfNibble(n: nat)
    requires n < 16
    ensures NibbleValue(NibbleOf(n)) == n
  {
  }

  function BitsOf(b: u8): Byte { NibbleOf(b / 16) + NibbleOf(b % 16) }

  function ValueOf(s: Byte): u8 { NibbleValue(s[..4]) * 16 + NibbleValue(s[4..]) }

  lemma BitsOfValue(s: Byte)
    ensures BitsOf(ValueOf(s)) == s
  {
    JoinedNibbles(s[..4], s[4..]);
    assert s == s[..4] + s[4..];
  }

  lemma JoinedNibbles(high: Nibble, low: Nibble)
    ensures BitsOf(NibbleValue(high) * 16 + NibbleValue(low)) == high + low
  {
    NibbleOfValue(high);
    NibbleOfValue(low);
    Quotients(NibbleValue(high), NibbleValue(low));
  }

  lemma Quotients(high: nat, low: nat)
    requires low < 16
    ensures (high * 16 + low) / 16 == high && (high * 16 + low) % 16 == low
  {
  }

  lemma ValueOfBits(b: u8)
    ensures ValueOf(BitsOf(b)) == b
  {
    ValueOfNibble(b / 16);
    ValueOfNibble(b % 16);
    assert BitsOf(b)[..4] == NibbleOf(b / 16) && BitsOf(b)[4..] == NibbleOf(b % 16);
  }
}
