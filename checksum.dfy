/** The frame checksum of pc-app/protocol.py: CRC-16/MODBUS, that is the
    reflected polynomial 0xA001, initial value 0xFFFF and no final XOR
    (Modbus over Serial Line V1.02, section 6.2.2). Bytes are fed least
    significant bit first: one XOR of the byte into the low half of the
    register, then eight shift rounds. */
module Checksum {
  import opened Bytes

  const Initial: bv16 := 0xFFFF

  /** One shift round: shift right, and XOR the reflected polynomial 0xA001
      in when the bit shifted out was set. */
  function Round(c: bv16): bv16
  {
    if c & 1 == 1 then (c >> 1) ^ 0xA001 else c >> 1
  }

  /** k shift rounds. */
  function Rounds(c: bv16, k: nat): bv16
    decreases k
  {
    if k == 0 then c else Rounds(Round(c), k - 1)
  }

  /** Running one more round first is running one more round. */
  lemma RoundsSucc(c: bv16, k: nat)
    ensures Rounds(c, k + 1) == Rounds(Round(c), k)
  {
  }

  /** The register after one more byte: one XOR, then eight rounds. */
  function UpdateByte(c: bv16, b: byte): bv16
  {
    Rounds(c ^ (b as bv16), 8)
  }

  /** The checksum of a byte string, byte by byte from the initial value. */
  function Crc16(data: seq<byte>): bv16
  {
    if data == [] then Initial else UpdateByte(Crc16(data[..|data| - 1]), data[|data| - 1])
  }

  lemma Crc16Snoc(s: seq<byte>, b: byte)
    ensures Crc16(s + [b]) == UpdateByte(Crc16(s), b)
  {
    assert (s + [b])[..|s|] == s;
  }

  /** The checksum of one more byte of a string read from the front. */
  lemma Crc16Prefix(data: seq<byte>, i: nat)
    requires i < |data|
    ensures Crc16(data[..i + 1]) == UpdateByte(Crc16(data[..i]), data[i])
  {
    assert data[..i + 1] == data[..i] + [data[i]];
    Crc16Snoc(data[..i], data[i]);
  }

  /** The standard check value of CRC-16/MODBUS: the checksum of the ASCII
      string "123456789" is 0x4B37 (CRC-16/ARC, whose initial value is 0,
      gives 0xBB3D instead). */
  lemma CheckValue(s: seq<byte>)
    requires s == [0x31, 0x32, 0x33, 0x34, 0x35, 0x36, 0x37, 0x38, 0x39]
    ensures Crc16(s) == 0x4B37
  {
    var p: seq<byte> := [];
    assert Crc16(p) == Initial;
    assert UpdateByte(0xFFFF, 0x31) == 0x947E;
    Crc16Snoc(p, 0x31);
    p := p + [0x31];
    assert UpdateByte(0x947E, 0x32) == 0xF595;
    Crc16Snoc(p, 0x32);
    p := p + [0x32];
    assert UpdateByte(0xF595, 0x33) == 0x7A75;
    Crc16Snoc(p, 0x33);
    p := p + [0x33];
    assert UpdateByte(0x7A75, 0x34) == 0x30BA;
    Crc16Snoc(p, 0x34);
    p := p + [0x34];
    assert UpdateByte(0x30BA, 0x35) == 0xA471;
    Crc16Snoc(p, 0x35);
    p := p + [0x35];
    assert UpdateByte(0xA471, 0x36) == 0x32E4;
    Crc16Snoc(p, 0x36);
    p := p + [0x36];
    assert UpdateByte(0x32E4, 0x37) == 0x9D73;
    Crc16Snoc(p, 0x37);
    p := p + [0x37];
    assert UpdateByte(0x9D73, 0x38) == 0x37DD;
    Crc16Snoc(p, 0x38);
    p := p + [0x38];
    assert UpdateByte(0x37DD, 0x39) == 0x4B37;
    Crc16Snoc(p, 0x39);
    p := p + [0x39];
    assert p == s;
  }

  /** A round loses no information: it is a bijection of the register. */
  lemma RoundInjective(a: bv16, b: bv16)
    requires Round(a) == Round(b)
    ensures a == b
  {
  }

  lemma {:induction false} RoundsInjective(a: bv16, b: bv16, k: nat)
    requires Rounds(a, k) == Rounds(b, k)
    ensures a == b
    decreases k
  {
    if k > 0 {
      RoundsInjective(Round(a), Round(b), k - 1);
      RoundInjective(a, b);
    }
  }

  /** Feeding one byte keeps registers apart, and keeps two different bytes
      apart on the same register. */
  lemma UpdateByteInjective(c1: bv16, b1: byte, c2: bv16, b2: byte)
    requires c1 == c2 || b1 == b2
    requires UpdateByte(c1, b1) == UpdateByte(c2, b2)
    ensures c1 == c2 && b1 == b2
  {
    RoundsInjective(c1 ^ (b1 as bv16), c2 ^ (b2 as bv16), 8);
    MixInjective(c1, b1, c2, b2);
  }

  lemma MixInjective(c1: bv16, b1: byte, c2: bv16, b2: byte)
    requires c1 == c2 || b1 == b2
    requires c1 ^ (b1 as bv16) == c2 ^ (b2 as bv16)
    ensures c1 == c2 && b1 == b2
  {
  }

  /** Feeding one byte into two registers keeps them apart when exactly one
      of the register and the byte differs. */
  lemma UpdateByteDistinct(c1: bv16, b1: byte, c2: bv16, b2: byte)
    requires (c1 == c2 && b1 != b2) || (c1 != c2 && b1 == b2)
    ensures UpdateByte(c1, b1) != UpdateByte(c2, b2)
  {
    if UpdateByte(c1, b1) == UpdateByte(c2, b2) {
      UpdateByteInjective(c1, b1, c2, b2);
    }
  }

  /** Any corruption confined to one byte (a single flipped bit in
      particular) changes the checksum. */
  lemma {:induction false} Crc16DetectsSingleByteError(x: seq<byte>, y: seq<byte>, k: nat)
    requires |x| == |y| && k < |x|
    requires x[k] != y[k]
    requires forall i :: 0 <= i < |x| && i != k ==> x[i] == y[i]
    ensures Crc16(x) != Crc16(y)
  {
    var n := |x|;
    var px, py := x[..n - 1], y[..n - 1];
    assert Crc16(x) == UpdateByte(Crc16(px), x[n - 1]);
    assert Crc16(y) == UpdateByte(Crc16(py), y[n - 1]);
    if k == n - 1 {
      assert px == py;
    } else {
      Crc16DetectsSingleByteError(px, py, k);
    }
    UpdateByteDistinct(Crc16(px), x[n - 1], Crc16(py), y[n - 1]);
  }
}
