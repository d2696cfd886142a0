/** Octets, their little-endian groups, and the exclusive-or the ciphers use.
    An octet is an integer below 256, so that lengths, offsets and fields stay
    plain arithmetic; only `Xor` looks at the bits. */
module Bytes {
  type uint8 = x: int | 0 <= x < 256
  type uint16 = x: int | 0 <= x < 65536
  type uint32 = x: int | 0 <= x < 4294967296

  const INT_MAX: nat := 2147483647
  type int32 = x: int | -2147483648 <= x <= INT_MAX

  /** Sixteen octets: an AES block, a key, a MAC. */
  type Block = s: seq<uint8> | |s| == 16 witness seq(16, _ => 0)

  /** Eight octets: the random numbers and the client UID of the handshake. */
  type Half = s: seq<uint8> | |s| == 8 witness seq(8, _ => 0)

  const ZERO_BLOCK: Block := Repeated(16)
  const ZERO_HALF: Half := Repeated(8)

  /** n zero octets. */
  function Repeated(n: nat): (r: seq<uint8>)
    ensures |r| == n
  {
    seq(n, _ => 0)
  }

  /** The bit pattern of an octet, found by counting up to it. */
  function Bits(a: uint8): bv8 {
    if a == 0 then 0 else Bits(a - 1) + 1
  }

  function FromBits(v: bv8): uint8 { v as int }

  function Xor(a: uint8, b: uint8): uint8 {
    FromBits(Bits(a) ^ Bits(b))
  }

  /** C's `~` on an octet. */
  function Complement(a: uint8): uint8 { 255 - a }

  function XorBlock(a: Block, b: Block): Block {
    seq(16, i requires 0 <= i < 16 => Xor(a[i], b[i]))
  }

  function ComplementBlock(a: Block): Block {
    seq(16, i requires 0 <= i < 16 => Complement(a[i]))
  }

  lemma FromBitsInjective(v: bv8, w: bv8)
    requires FromBits(v) == FromBits(w)
    ensures v == w
  {
  }

  lemma NextBits(v: bv8)
    requires v != 255
    ensures FromBits(v + 1) == FromBits(v) + 1
  {
  }

  lemma FromBitsBits(a: uint8)
    ensures FromBits(Bits(a)) == a
  {
    if a > 0 {
      FromBitsBits(a - 1);
      if Bits(a - 1) == 255 {
        assert false;
      }
      NextBits(Bits(a - 1));
    }
  }

  lemma BitsFromBits(v: bv8)
    ensures Bits(FromBits(v)) == v
  {
    FromBitsBits(FromBits(v));
    FromBitsInjective(Bits(FromBits(v)), v);
  }

  lemma XorBits(a: uint8, b: uint8)
    ensures Bits(Xor(a, b)) == Bits(a) ^ Bits(b)
  {
    BitsFromBits(Bits(a) ^ Bits(b));
  }

  lemma XorCancels(a: uint8, b: uint8)
    ensures Xor(Xor(a, b), b) == a
  {
    XorBits(a, b);
    assert (Bits(a) ^ Bits(b)) ^ Bits(b) == Bits(a);
    FromBitsBits(a);
  }

  lemma XorBlockCancels(a: Block, b: Block)
    ensures XorBlock(XorBlock(a, b), b) == a
  {
    forall i | 0 <= i < 16
      ensures XorBlock(XorBlock(a, b), b)[i] == a[i]
    {
      XorCancels(a[i], b[i]);
    }
  }

  /** BYTE_0 .. BYTE_3 */
  function Byte0(x: nat): uint8 { x % 256 }
  function Byte1(x: nat): uint8 { x / 256 % 256 }
  function Byte2(x: nat): uint8 { x / 65536 % 256 }
  function Byte3(x: nat): uint8 { x / 16777216 % 256 }

  function Le16(b0: uint8, b1: uint8): uint16 { b0 + 256 * b1 }
  function Le24(b0: uint8, b1: uint8, b2: uint8): (r: nat)
    ensures r < 16777216
  {
    b0 + 256 * b1 + 65536 * b2
  }
  function Le32(b0: uint8, b1: uint8, b2: uint8, b3: uint8): uint32 {
    b0 + 256 * b1 + 65536 * b2 + 16777216 * b3
  }

  lemma Le16RoundTrip(x: uint16)
    ensures Le16(Byte0(x), Byte1(x)) == x
  {
  }

  lemma TwoSteps(x: nat)
    ensures x / 65536 == x / 256 / 256
  {
    var q := x / 256;
    var r := 256 * (q % 256) + x % 256;
    assert x == 65536 * (q / 256) + r && 0 <= r < 65536;
  }

  lemma ThreeSteps(x: nat)
    ensures x / 16777216 == x / 65536 / 256
  {
    var q := x / 65536;
    var r := 65536 * (q % 256) + x % 65536;
    assert x == 16777216 * (q / 256) + r && 0 <= r < 16777216;
  }

  lemma Le24RoundTrip(x: nat)
    requires x < 16777216
    ensures Le24(Byte0(x), Byte1(x), Byte2(x)) == x
  {
    TwoSteps(x);
  }

  lemma Le32RoundTrip(x: uint32)
    ensures Le32(Byte0(x), Byte1(x), Byte2(x), Byte3(x)) == x
  {
    TwoSteps(x);
    ThreeSteps(x);
    var q := x / 65536;
    assert x == 256 * (x / 256) + x % 256;
    assert x / 256 == 256 * q + x / 256 % 256;
    assert q == 256 * (q / 256) + q % 256 && q / 256 < 256;
  }

  lemma OctetsOfLe16(a: uint8, b: uint8)
    ensures Byte0(Le16(a, b)) == a && Byte1(Le16(a, b)) == b
  {
  }

  lemma OctetsOfLe24(a: uint8, b: uint8, c: uint8)
    ensures var x := Le24(a, b, c); x < 16777216 && Byte0(x) == a && Byte1(x) == b && Byte2(x) == c
  {
    var x := Le24(a, b, c);
    TwoSteps(x);
    assert x / 256 == b + 256 * c;
  }

  lemma OctetsOfLe32(a: uint8, b: uint8, c: uint8, d: uint8)
    ensures var x := Le32(a, b, c, d); Byte0(x) == a && Byte1(x) == b && Byte2(x) == c && Byte3(x) == d
  {
    var x: nat := Le32(a, b, c, d);
    TwoSteps(x);
    ThreeSteps(x);
    var y: nat, z: nat := b + 256 * c + 65536 * d, c + 256 * d;
    assert x == 256 * y + a && y == 256 * z + b;
    Digit(y, a);
    Digit(z, b);
    Digit(d, c);
  }

  lemma Digit(high: nat, low: uint8)
    ensures (256 * high + low) / 256 == high && (256 * high + low) % 256 == low
  {
  }
}
