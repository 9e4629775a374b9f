/** Bytes and the big-endian integers that `struct.pack` writes. */
module Wire {

  type byte = x: int | 0 <= x < 256
  type bytes = seq<byte>

  /** `struct.pack(">H", n)` */
  function U16(n: nat): bytes
    requires n < 0x1_0000
  {
    [n / 256, n % 256]
  }

  /** `struct.pack(">I", n)` */
  function U32(n: nat): bytes
    requires n < 0x1_0000_0000
  {
    [n / 0x100_0000, n / 0x1_0000 % 256, n / 256 % 256, n % 256]
  }

  /** `struct.unpack_from(">H", b, at)` */
  function GetU16(b: bytes, at: nat): (n: nat)
    requires at + 2 <= |b|
    ensures n < 0x1_0000
  {
    (b[at] as int) * 256 + b[at + 1] as int
  }

  /** `struct.unpack_from(">I", b, at)` */
  function GetU32(b: bytes, at: nat): (n: nat)
    requires at + 4 <= |b|
    ensures n < 0x1_0000_0000
  {
    (b[at] as int) * 0x100_0000 + (b[at + 1] as int) * 0x1_0000 + (b[at + 2] as int) * 256 + b[at + 3] as int
  }

  lemma U16Get(b: bytes, at: nat, n: nat)
    requires n < 0x1_0000 && at + 2 <= |b| && b[at..at + 2] == U16(n)
    ensures GetU16(b, at) == n
  {
    var w := b[at..at + 2];
    assert b[at] == w[0] && b[at + 1] == w[1];
  }

  lemma U16Put(b: bytes, at: nat)
    requires at + 2 <= |b|
    ensures b[at..at + 2] == U16(GetU16(b, at))
  {
  }

  lemma DigitsOf(a: int, b: int, c: int, d: int, n: int)
    requires 0 <= a < 256 && 0 <= b < 256 && 0 <= c < 256 && 0 <= d < 256
    requires n == a * 0x100_0000 + b * 0x1_0000 + c * 256 + d
    ensures n / 256 == a * 0x1_0000 + b * 256 + c && n % 256 == d
    ensures n / 0x1_0000 == a * 256 + b && n / 256 % 256 == c
    ensures n / 0x100_0000 == a && n / 0x1_0000 % 256 == b
  {
  }

  lemma U32Put(b: bytes, at: nat)
    requires at + 4 <= |b|
    ensures b[at..at + 4] == U32(GetU32(b, at))
  {
    DigitsOf(b[at], b[at + 1], b[at + 2], b[at + 3], GetU32(b, at));
    var w := b[at..at + 4];
    assert w == [b[at], b[at + 1], b[at + 2], b[at + 3]];
  }

  lemma Recompose(n: nat)
    ensures n / 0x100_0000 * 0x100_0000 + n / 0x1_0000 % 256 * 0x1_0000 + n / 256 % 256 * 256 + n % 256 == n
  {
    assert n / 0x1_0000 == n / 0x100_0000 * 256 + n / 0x1_0000 % 256;
    assert n / 256 == n / 0x1_0000 * 256 + n / 256 % 256;
  }

  lemma U32Get(b: bytes, at: nat, n: nat)
    requires n < 0x1_0000_0000 && at + 4 <= |b| && b[at..at + 4] == U32(n)
    ensures GetU32(b, at) == n
  {
    var w := b[at..at + 4];
    assert w == [b[at], b[at + 1], b[at + 2], b[at + 3]];
    var u := U32(n);
    assert b[at] == u[0] && b[at + 1] == u[1] && b[at + 2] == u[2] && b[at + 3] == u[3];
    Recompose(n);
  }

  /** Network byte order. */
  lemma BigEndian()
    ensures U16(0x0102) == [1, 2] && U32(0x0102_0304) == [1, 2, 3, 4]
  {
  }
}
