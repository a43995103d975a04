/** Bytes, 32-bit words and their fixed-width encoding in memory. */
module Bytes {
  const W32 := 0x1_0000_0000

  type byte = x: int | 0 <= x < 256

  type uint32 = x: int | 0 <= x < 0x1_0000_0000

  function Min(a: int, b: int): (m: int)
    ensures m <= a && m <= b && (m == a || m == b)
  {
    if a <= b then a else b
  }

  /** The four bytes a little-endian host keeps in memory for x. */
  function Encode32(x: uint32): (b: seq<byte>)
    ensures |b| == 4
  {
    [x % 256, x / 256 % 256, x / 65536 % 256, x / 16777216]
  }

  function Decode32(b: seq<byte>): uint32
    requires |b| == 4
  {
    var b0: int, b1: int, b2: int, b3: int := b[0], b[1], b[2], b[3];
    b0 + 256 * b1 + 65536 * b2 + 16777216 * b3
  }

  lemma DecodeEncode32(x: uint32)
    ensures Decode32(Encode32(x)) == x
  {
    var x1 := x / 256;
    var x2 := x1 / 256;
    assert x == 256 * x1 + x % 256;
    assert x1 == 256 * x2 + x1 % 256;
    assert x / 65536 == x2 && x / 16777216 == x2 / 256;
    assert x2 == 256 * (x2 / 256) + x2 % 256;
  }
}
