/** Bytes, machine words and the fixed-width little-endian form in which they are stored. */
module Bytes {
  type byte = x: int | 0 <= x < 256
  type u64 = x: int | 0 <= x < 0x1_0000_0000_0000_0000

  function Pow256(n: nat): (p: nat)
    ensures p > 0
  {
    if n == 0 then 1 else 256 * Pow256(n - 1)
  }

  function LittleEndian(value: nat, width: nat): (s: seq<byte>)
    ensures |s| == width
  {
    if width == 0 then [] else [value % 256] + LittleEndian(value / 256, width - 1)
  }

  function FromLittleEndian(s: seq<byte>): nat {
    if s == [] then 0 else s[0] + 256 * FromLittleEndian(s[1..])
  }

  /** Writing a value that fits and reading it back gives the value. */
  lemma {:induction false} LittleEndianRoundTrip(value: nat, width: nat)
    requires value < Pow256(width)
    ensures FromLittleEndian(LittleEndian(value, width)) == value
  {
    if width > 0 {
      LittleEndianRoundTrip(value / 256, width - 1);
      assert LittleEndian(value, width)[1..] == LittleEndian(value / 256, width - 1);
    }
  }

  /** Reading bytes and writing the value back at the same width gives the bytes. */
  lemma {:induction false} FromLittleEndianRoundTrip(s: seq<byte>)
    ensures FromLittleEndian(s) < Pow256(|s|)
    ensures LittleEndian(FromLittleEndian(s), |s|) == s
  {
    if s != [] {
      FromLittleEndianRoundTrip(s[1..]);
      assert s == [s[0]] + s[1..];
    }
  }

  lemma WordFitsEightBytes()
    ensures Pow256(8) == 0x1_0000_0000_0000_0000
  {
    assert Pow256(4) == 0x1_0000_0000;
    assert Pow256(8) == 256 * (256 * (256 * (256 * Pow256(4))));
  }

  /** Storing a 64-bit word in eight bytes loses nothing. */
  lemma WordRoundTrip(value: u64)
    ensures FromLittleEndian(LittleEndian(value, 8)) == value
  {
    WordFitsEightBytes();
    LittleEndianRoundTrip(value, 8);
  }

  /** Eight bytes always hold a 64-bit word, and that word has no other spelling. */
  lemma EightBytesRoundTrip(s: seq<byte>)
    requires |s| == 8
    ensures FromLittleEndian(s) < 0x1_0000_0000_0000_0000
    ensures LittleEndian(FromLittleEndian(s), 8) == s
  {
    WordFitsEightBytes();
    FromLittleEndianRoundTrip(s);
  }
}
