// Wire bytes are integers below 256, so lengths and opcodes are plain arithmetic. Bit
// operations go through bit-vectors and come back; the lemmas here are the only places
// where the two views meet.
module Bytes {
  type byte = x: int | 0 <= x < 256

  /** Go's `uint32(b)`: the byte, zero-extended. */
  function Word(b: byte): bv32 {
    (b as bv8) as bv32
  }

  /** Go's `byte(w)`: the low eight bits of a word. */
  function LowByte(w: bv32): byte {
    ((w & 0xFF) as bv8) as int
  }

  /** Exclusive or of two bytes. */
  function Xor(a: byte, b: byte): byte {
    ((a as bv8) ^ (b as bv8)) as int
  }

  lemma WordIsLow(b: byte)
    ensures Word(b) & 0xFF == Word(b)
    ensures Word(b) >> 8 == 0
  {
    ExtendIsLow(b as bv8);
  }

  lemma ExtendIsLow(b: bv8)
    ensures (b as bv32) & 0xFF == b as bv32 && (b as bv32) >> 8 == 0
  {
  }

  lemma ExtendInjective(a: bv8, b: bv8)
    requires a as bv32 == b as bv32
    ensures a == b
  {
  }

  lemma TruncateThenExtend(w: bv32)
    ensures ((w & 0xFF) as bv8) as bv32 == w & 0xFF
  {
  }

  lemma WordInjective(a: byte, b: byte)
    requires Word(a) == Word(b)
    ensures a == b
  {
    ExtendInjective(a as bv8, b as bv8);
    Int8RoundTrip(a);
    Int8RoundTrip(b);
  }

  lemma WordOfLowByte(w: bv32)
    ensures Word(LowByte(w)) == w & 0xFF
  {
    Byte8RoundTrip((w & 0xFF) as bv8);
    TruncateThenExtend(w);
  }

  lemma Byte8RoundTrip(b: bv8)
    ensures (b as int) as bv8 == b
  {
  }

  lemma Int8RoundTrip(n: byte)
    ensures (n as bv8) as int == n
  {
    assert n % 256 == n;
  }

  lemma Xor8Cancels(x: bv8, y: bv8)
    ensures (x ^ y) ^ y == x
  {
  }

  lemma XorAsBits(a: byte, b: byte)
    ensures Xor(a, b) as bv8 == (a as bv8) ^ (b as bv8)
  {
    Byte8RoundTrip((a as bv8) ^ (b as bv8));
  }

  lemma XorCancels(a: byte, b: byte)
    ensures Xor(Xor(a, b), b) == a
  {
    calc {
      Xor(Xor(a, b), b);
      ((Xor(a, b) as bv8) ^ (b as bv8)) as int;
      { XorAsBits(a, b); }
      (((a as bv8) ^ (b as bv8)) ^ (b as bv8)) as int;
      { Xor8Cancels(a as bv8, b as bv8); }
      (a as bv8) as int;
      { Int8RoundTrip(a); }
      a;
    }
  }

  /** No byte of s is the string terminator. */
  predicate NulFree(s: seq<byte>) {
    forall i :: 0 <= i < |s| ==> s[i] != 0
  }

  /** n zero bytes. */
  function Zeros(n: nat): (z: seq<byte>)
    ensures |z| == n && forall i :: 0 <= i < n ==> z[i] == 0
  {
    seq(n, _ => 0)
  }
}
