/** Octets and 32-bit words as C keeps them, with the little-endian layout MD5 uses. */
module Bytes {
  const WORD: int := 0x1_0000_0000

  type Byte = b: int | 0 <= b < 256

  type Word = w: int | 0 <= w < 0x1_0000_0000

  function Zeros(n: nat): (z: seq<Byte>)
    ensures |z| == n
  {
    seq(n, _ => 0)
  }

  /** Four octets, least significant first. */
  function WordBytes(w: Word): (s: seq<Byte>)
    ensures |s| == 4
  {
    [w % 256, w / 0x100 % 256, w / 0x1_0000 % 256, w / 0x100_0000 % 256]
  }

  /** The word whose four octets start at s[0]. */
  function BytesWord(s: seq<Byte>): Word
    requires |s| == 4
  {
    var a: int, b: int, c: int, d: int := s[0], s[1], s[2], s[3];
    a + 0x100 * b + 0x1_0000 * c + 0x100_0000 * d
  }

  lemma WordRoundTrip(w: Word)
    ensures BytesWord(WordBytes(w)) == w
  {
    assert w / 0x1_0000 == w / 0x100 / 256;
    assert w / 0x100_0000 == w / 0x1_0000 / 256;
  }

  lemma WordBytesOf(a: Byte, b: Byte, c: Byte, d: Byte)
    ensures WordBytes(a + 0x100 * b + 0x1_0000 * c + 0x100_0000 * d) == [a, b, c, d]
  {
    var w := a + 0x100 * b + 0x1_0000 * c + 0x100_0000 * d;
    ByteOf(w, b + 0x100 * c + 0x1_0000 * d, a, 0x100);
    ByteOf(b + 0x100 * c + 0x1_0000 * d, c + 0x100 * d, b, 0x100);
    ByteOf(c + 0x100 * d, d, c, 0x100);
    ByteOf(w, c + 0x100 * d, a + 0x100 * b, 0x1_0000);
    ByteOf(w, d, a + 0x100 * b + 0x1_0000 * c, 0x100_0000);
  }

  lemma ByteOf(n: nat, q: nat, r: nat, m: nat)
    requires m == 0x100 || m == 0x1_0000 || m == 0x100_0000
    requires r < m && n == m * q + r
    ensures n / m == q && n % m == r
  {}

  lemma ZerosAre(n: nat, k: nat)
    requires k < n
    ensures Zeros(n)[k] == 0
  {}

  /** A quotient and a remainder by 2^32, from the equation that defines them. */
  lemma WordDivMod(n: nat, q: nat, r: nat)
    requires r < WORD && n == WORD * q + r
    ensures n / WORD == q && n % WORD == r
  {}

  /** Bitwise exclusive or of two octets. */
  function XorByte(x: Byte, y: Byte): Byte {
    ((x as bv8) ^ (y as bv8)) as Byte
  }

  /** The chunks of a message, put back together. */
  function Flatten(chunks: seq<seq<Byte>>): seq<Byte> {
    if chunks == [] then [] else Flatten(chunks[..|chunks| - 1]) + chunks[|chunks| - 1]
  }
}
