/**
 Bytes and the little-endian 32-bit integers that make up a usbmuxd header.
 */
module Bytes {

  newtype byte = b: int | 0 <= b < 256

  const U32Limit: int := 0x1_0000_0000

  /** An unsigned 32-bit integer, the width of every header field. */
  type u32 = n: nat | n < U32Limit

  /** The least significant byte of `n`. */
  function LowByte(n: int): (b: byte)
  {
    (n % 0x100) as byte
  }

  /** The byte above the least significant one, the high byte of a 16-bit value. */
  function HighByte(n: int): (b: byte)
  {
    LowByte(n / 0x100)
  }

  /** The four bytes of `n`, least significant first. */
  function U32LE(n: u32): (r: seq<byte>)
    ensures |r| == 4
    ensures r[0] as int == n % 0x100 && r[3] as int == n / 0x100_0000
  {
    var n1 := n / 0x100;
    var n2 := n1 / 0x100;
    [LowByte(n), LowByte(n1), LowByte(n2), LowByte(n2 / 0x100)]
  }

  /** The little-endian integer held in the first four bytes of `b`. */
  function ReadU32LE(b: seq<byte>): (n: u32)
    requires |b| >= 4
    ensures n % 0x100 == b[0] as int && n / 0x100_0000 == b[3] as int
  {
    (b[0] as int) + 0x100 * ((b[1] as int) + 0x100 * ((b[2] as int) + 0x100 * (b[3] as int)))
  }

  /** One base-256 digit and the number above it. */
  lemma Digit(lo: int, hi: int)
    requires 0 <= lo < 0x100
    ensures (lo + 0x100 * hi) % 0x100 == lo
    ensures (lo + 0x100 * hi) / 0x100 == hi
  {
  }

  /** Reading the four bytes written for `n` gives back `n`. */
  lemma ReadWrite(n: u32)
    ensures ReadU32LE(U32LE(n)) == n
  {
    var n1 := n / 0x100;
    var n2 := n1 / 0x100;
    var n3 := n2 / 0x100;
    assert n == n % 0x100 + 0x100 * n1;
    assert n1 == n1 % 0x100 + 0x100 * n2;
    assert n2 == n2 % 0x100 + 0x100 * n3;
    assert n1 < 0x100_0000;
    assert n2 < 0x1_0000;
    assert n3 < 0x100;
  }

  /** Writing the integer read from four bytes gives back those bytes. */
  lemma WriteRead(b: seq<byte>)
    requires |b| == 4
    ensures U32LE(ReadU32LE(b)) == b
  {
    var b0, b1, b2, b3 := b[0] as int, b[1] as int, b[2] as int, b[3] as int;
    var m2 := b2 + 0x100 * b3;
    var m1 := b1 + 0x100 * m2;
    var n := b0 + 0x100 * m1;
    assert ReadU32LE(b) == n;
    Digit(b0, m1);
    Digit(b1, m2);
    Digit(b2, b3);
    Digit(b3, 0);
    assert U32LE(n) == [b0 as byte, b1 as byte, b2 as byte, b3 as byte];
  }

  /** Two buffers that start with the same four bytes hold the same length. */
  lemma ReadSamePrefix(a: seq<byte>, b: seq<byte>)
    requires |a| >= 4 && |b| >= 4 && a[..4] == b[..4]
    ensures ReadU32LE(a) == ReadU32LE(b)
  {
    assert a[0] == a[..4][0] && a[1] == a[..4][1] && a[2] == a[..4][2] && a[3] == a[..4][3];
  }
}
