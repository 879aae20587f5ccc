/** Bytes and little-endian unsigned integers, as `struct.pack('<H…')` and
    `struct.unpack` lay them out. */
module Bytes {

  type byte = bv8

  /** 256 to the power n: one past the largest value that fits in n bytes. */
  function Pow256(n: nat): (r: nat)
    ensures r >= 1
  {
    if n == 0 then 1 else 256 * Pow256(n - 1)
  }

  /** The n-byte little-endian encoding of v (struct.pack refuses a v that
      does not fit, so the caller must show that it does). */
  function LeBytes(v: nat, n: nat): (r: seq<byte>)
    requires v < Pow256(n)
    ensures |r| == n
    decreases n
  {
    if n == 0 then [] else [ByteOf(v % 256)] + LeBytes(v / 256, n - 1)
  }

  /** The unsigned value of a little-endian byte string. */
  function LeValue(s: seq<byte>): (v: nat)
    ensures v < Pow256(|s|)
  {
    if s == [] then 0 else s[0] as nat + 256 * LeValue(s[1..])
  }

  /** The pieces of a three-part concatenation. */
  lemma ConcatParts<X>(a: seq<X>, b: seq<X>, c: seq<X>)
    ensures (a + b + c)[..|a|] == a
    ensures (a + b + c)[|a|..|a| + |b|] == b
    ensures (a + b + c)[|a| + |b|..] == c
  {
  }

  /** The byte whose unsigned value is x, assembled from its bits. */
  function ByteOf(x: nat): byte
    requires x < 256
  {
    if x == 0 then 0 else (ByteOf(x / 2) << 1) | (if x % 2 == 1 then 1 else 0)
  }

  lemma ShiftIn(c: byte, bit: byte)
    requires c as nat < 128 && bit as nat < 2
    ensures ((c << 1) | bit) as nat == 2 * c as nat + bit as nat
  {
  }

  lemma {:induction false} ByteOfValue(x: nat)
    requires x < 256
    ensures ByteOf(x) as nat == x
  {
    if x > 0 {
      var c, bit: byte := ByteOf(x / 2), if x % 2 == 1 then 1 else 0;
      ByteOfValue(x / 2);
      ShiftIn(c, bit);
      assert bit as nat == x % 2;
    }
  }

  /** Every byte is the byte of its value. */
  lemma ByteOfByte(b: byte)
    ensures b as nat < 256 && ByteOf(b as nat) == b
  {
    ByteOfValue(b as nat);
    Bv8RoundTrip(b);
    Bv8RoundTrip(ByteOf(b as nat));
  }

  lemma Bv8RoundTrip(b: byte)
    ensures (b as nat) as byte == b
  {
  }

  /** Decoding an encoding gives the value back. */
  lemma {:induction false} LeValueOfLeBytes(v: nat, n: nat)
    requires v < Pow256(n)
    ensures LeValue(LeBytes(v, n)) == v
  {
    if n > 0 {
      LeValueOfLeBytes(v / 256, n - 1);
      var r := LeBytes(v, n);
      assert r[1..] == LeBytes(v / 256, n - 1);
      ByteOfValue(v % 256);
    }
  }

  /** Encoding a decoded string gives the string back: every byte string is
      the encoding of exactly one value. */
  lemma {:induction false} LeBytesOfLeValue(s: seq<byte>)
    ensures LeBytes(LeValue(s), |s|) == s
  {
    if s != [] {
      var low, high := s[0] as nat, LeValue(s[1..]);
      assert LeValue(s) == low + 256 * high;
      DigitSplit(low, high);
      assert LeBytes(low + 256 * high, |s|) == [ByteOf(low)] + LeBytes(high, |s| - 1);
      LeBytesOfLeValue(s[1..]);
      ByteOfByte(s[0]);
      assert [s[0]] + s[1..] == s;
    }
  }

  lemma DigitSplit(low: nat, high: nat)
    requires low < 256
    ensures (low + 256 * high) % 256 == low && (low + 256 * high) / 256 == high
  {
  }

  /** Two-byte little-endian encoding (struct format `<H`). */
  function U16(v: nat): (r: seq<byte>)
    requires v < 0x1_0000
    ensures |r| == 2
  {
    LeBytes(v, 2)
  }

  lemma U16Value(v: nat)
    requires v < 0x1_0000
    ensures LeValue(U16(v)) == v
  {
    LeValueOfLeBytes(v, 2);
  }

  /** Eight-byte little-endian encoding (struct format `<Q`). */
  function U64(v: nat): (r: seq<byte>)
    requires v < 0x1_0000_0000_0000_0000
    ensures |r| == 8 && LeValue(r) == v
  {
    assert Pow256(8) == 0x1_0000_0000_0000_0000;
    LeValueOfLeBytes(v, 8);
    LeBytes(v, 8)
  }

  /** Four-byte little-endian encoding (struct format `<I`). */
  function U32(v: nat): (r: seq<byte>)
    requires v < 0x1_0000_0000
    ensures |r| == 4 && LeValue(r) == v
  {
    assert Pow256(4) == 0x1_0000_0000;
    LeValueOfLeBytes(v, 4);
    LeBytes(v, 4)
  }

  /** The value of a two-byte string. */
  lemma LeValue2(s: seq<byte>)
    requires |s| == 2
    ensures LeValue(s) == s[0] as nat + 256 * s[1] as nat
  {
    assert s[1..][1..] == [];
  }

  /** Byte strings of one length with the same little-endian value are
      equal. */
  lemma LeValueInjective(x: seq<byte>, y: seq<byte>)
    requires |x| == |y| && LeValue(x) == LeValue(y)
    ensures x == y
  {
    LeBytesOfLeValue(x);
    LeBytesOfLeValue(y);
  }

  /** Different byte strings of one length have different little-endian
      values. */
  lemma LeValueDistinct(x: seq<byte>, y: seq<byte>)
    requires |x| == |y| && x != y
    ensures LeValue(x) != LeValue(y)
  {
    LeBytesOfLeValue(x);
    LeBytesOfLeValue(y);
  }

  /** Different registers have different values. */
  lemma Bv16Distinct(a: bv16, b: bv16)
    requires a != b
    ensures a as nat != b as nat
  {
    Bv16RoundTrip(a);
    Bv16RoundTrip(b);
  }

  /** Two-byte little-endian encoding of a 16-bit register, taken from its
      bits. */
  function Le16(c: bv16): (r: seq<byte>)
    ensures |r| == 2
  {
    [(c & 0xFF) as byte, (c >> 8) as byte]
  }

  lemma Le16Value(c: bv16)
    ensures LeValue(Le16(c)) == c as nat
  {
    LeValue2(Le16(c));
    Bv16Halves(c);
  }

  /** A 16-bit register is its low byte plus 256 times its high byte. */
  lemma Bv16Halves(c: bv16)
    ensures c as nat == ((c & 0xFF) as byte) as nat + 256 * ((c >> 8) as byte) as nat
  {
  }

  lemma Bv16RoundTrip(a: bv16)
    ensures (a as nat) as bv16 == a
  {
  }
}
