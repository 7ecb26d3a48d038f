/** MD5 as RFC 1321 defines it: padding (sections 3.1 and 3.2), the step operation and
    its schedule (section 3.4) and the digest (section 3.5).  Nothing here knows about
    buffers or chunks; the two implementations are proved against it. */
module Md5 {
  import opened Bytes

  datatype State = State(a: Word, b: Word, c: Word, d: Word)

  /** Section 3.3. */
  const INITIAL := State(0x67452301, 0xefcdab89, 0x98badcfe, 0x10325476)

  function Plus(x: Word, y: Word): Word {
    (x + y) % WORD
  }

  function And(x: Word, y: Word): Word {
    ((x as bv32) & (y as bv32)) as Word
  }

  function Or(x: Word, y: Word): Word {
    ((x as bv32) | (y as bv32)) as Word
  }

  function Xor(x: Word, y: Word): Word {
    ((x as bv32) ^ (y as bv32)) as Word
  }

  function Not(x: Word): Word {
    (!(x as bv32)) as Word
  }

  function Rotl(w: Word, s: nat): Word
    requires 0 < s < 32
  {
    (((w as bv32) << s) | ((w as bv32) >> (32 - s))) as Word
  }

  function F(x: Word, y: Word, z: Word): Word {
    Or(And(x, y), And(Not(x), z))
  }

  function G(x: Word, y: Word, z: Word): Word {
    Or(And(x, z), And(y, Not(z)))
  }

  function H(x: Word, y: Word, z: Word): Word {
    Xor(Xor(x, y), z)
  }

  function I(x: Word, y: Word, z: Word): Word {
    Xor(y, Or(x, Not(z)))
  }

  /** The auxiliary function of the round that step i belongs to. */
  function Mix(i: nat, x: Word, y: Word, z: Word): Word {
    if i < 16 then F(x, y, z) else if i < 32 then G(x, y, z) else if i < 48 then H(x, y, z) else I(x, y, z)
  }

  /** Which message word step i adds: strides 1, 5, 3 and 7 modulo 16. */
  function Index(i: nat): (k: nat)
    requires i < 64
    ensures k < 16
  {
    if i < 16 then i
    else if i < 32 then (5 * i + 1) % 16
    else if i < 48 then (3 * i + 5) % 16
    else (7 * i) % 16
  }

  /** How far step i rotates. */
  function Shift(i: nat): (s: nat)
    requires i < 64
    ensures 0 < s < 32
  {
    match (i / 16, i % 4)
    case (0, r) => 7 + 5 * r
    case (1, 0) => 5
    case (1, 1) => 9
    case (1, 2) => 14
    case (1, _) => 20
    case (2, 0) => 4
    case (2, 1) => 11
    case (2, 2) => 16
    case (2, _) => 23
    case (_, 0) => 6
    case (_, 1) => 10
    case (_, 2) => 15
    case (_, _) => 21
  }

  /** Section 3.4: the integer part of 2^32 times abs(sin(i + 1)), i in radians. */
  function T(i: nat): Word
    requires i < 64
  {
    if i < 32 then
      if i < 16 then
        if i < 8 then
          if i < 4 then
            if i < 2 then (if i < 1 then 0xd76aa478 else 0xe8c7b756) else (if i < 3 then 0x242070db else 0xc1bdceee)
          else
            if i < 6 then (if i < 5 then 0xf57c0faf else 0x4787c62a) else (if i < 7 then 0xa8304613 else 0xfd469501)
        else
          if i < 12 then
            if i < 10 then (if i < 9 then 0x698098d8 else 0x8b44f7af) else (if i < 11 then 0xffff5bb1 else 0x895cd7be)
          else
            if i < 14 then (if i < 13 then 0x6b901122 else 0xfd987193) else (if i < 15 then 0xa679438e else 0x49b40821)
      else
        if i < 24 then
          if i < 20 then
            if i < 18 then (if i < 17 then 0xf61e2562 else 0xc040b340) else (if i < 19 then 0x265e5a51 else 0xe9b6c7aa)
          else
            if i < 22 then (if i < 21 then 0xd62f105d else 0x02441453) else (if i < 23 then 0xd8a1e681 else 0xe7d3fbc8)
        else
          if i < 28 then
            if i < 26 then (if i < 25 then 0x21e1cde6 else 0xc33707d6) else (if i < 27 then 0xf4d50d87 else 0x455a14ed)
          else
            if i < 30 then (if i < 29 then 0xa9e3e905 else 0xfcefa3f8) else (if i < 31 then 0x676f02d9 else 0x8d2a4c8a)
    else
      if i < 48 then
        if i < 40 then
          if i < 36 then
            if i < 34 then (if i < 33 then 0xfffa3942 else 0x8771f681) else (if i < 35 then 0x6d9d6122 else 0xfde5380c)
          else
            if i < 38 then (if i < 37 then 0xa4beea44 else 0x4bdecfa9) else (if i < 39 then 0xf6bb4b60 else 0xbebfbc70)
        else
          if i < 44 then
            if i < 42 then (if i < 41 then 0x289b7ec6 else 0xeaa127fa) else (if i < 43 then 0xd4ef3085 else 0x04881d05)
          else
            if i < 46 then (if i < 45 then 0xd9d4d039 else 0xe6db99e5) else (if i < 47 then 0x1fa27cf8 else 0xc4ac5665)
      else
        if i < 56 then
          if i < 52 then
            if i < 50 then (if i < 49 then 0xf4292244 else 0x432aff97) else (if i < 51 then 0xab9423a7 else 0xfc93a039)
          else
            if i < 54 then (if i < 53 then 0x655b59c3 else 0x8f0ccc92) else (if i < 55 then 0xffeff47d else 0x85845dd1)
        else
          if i < 60 then
            if i < 58 then (if i < 57 then 0x6fa87e4f else 0xfe2ce6e0) else (if i < 59 then 0xa3014314 else 0x4e0811a1)
          else
            if i < 62 then (if i < 61 then 0xf7537e82 else 0xbd3af235) else (if i < 63 then 0x2ad7d2bb else 0xeb86d391)
  }

  /** The value step i gives to its first register. */
  function NewWord(i: nat, a: Word, b: Word, c: Word, d: Word, xk: Word, s: nat, t: Word): Word
    requires 0 < s < 32
  {
    Plus(b, Rotl(Plus(Plus(Plus(a, Mix(i, b, c, d)), xk), t), s))
  }

  /** One step; the registers then change places, so that the next step again writes "a". */
  function Step(s: State, x: seq<Word>, i: nat): State
    requires |x| == 16 && i < 64
  {
    State(s.d, NewWord(i, s.a, s.b, s.c, s.d, x[Index(i)], Shift(i), T(i)), s.b, s.c)
  }

  /** Steps i to n - 1. */
  function Steps(s: State, x: seq<Word>, i: nat, n: nat): State
    requires |x| == 16 && i <= n <= 64
    decreases n - i
  {
    if i == n then s else Steps(Step(s, x, i), x, i + 1, n)
  }

  function Words(block: seq<Byte>): (x: seq<Word>)
    requires |block| == 64
    ensures |x| == 16
  {
    seq(16, i requires 0 <= i < 16 => BytesWord(block[4 * i..4 * i + 4]))
  }

  /** Section 3.4: every word takes part in four steps; then the old registers are added back. */
  function Compress(s: State, block: seq<Byte>): State
    requires |block| == 64
  {
    var x := Words(block);
    var r := Steps(s, x, 0, 4 * |x|);
    State(Plus(s.a, r.a), Plus(s.b, r.b), Plus(s.c, r.c), Plus(s.d, r.d))
  }

  function Absorb(s: State, m: seq<Byte>): State
    requires |m| % 64 == 0
    decreases |m|
  {
    if m == [] then s
    else
      var n := |m| - 64;
      Compress(Absorb(s, m[..n]), m[n..])
  }

  /** Section 3.2: the bit count modulo 2^64, low word first. */
  function LengthField(n: nat): (s: seq<Byte>)
    ensures |s| == 8
  {
    WordBytes(8 * n % WORD) + WordBytes(8 * n / WORD % WORD)
  }

  /** Sections 3.1 and 3.2: what is appended to a message of n octets. */
  function Padding(n: nat): (s: seq<Byte>)
    ensures (n + |s|) % 64 == 0
  {
    PaddingFits(n);
    [0x80] + Zeros((55 - n) % 64) + LengthField(n)
  }

  lemma PaddingFits(n: nat)
    ensures (n + 1 + (55 - n) % 64 + 8) % 64 == 0
  {
    var z := (55 - n) % 64;
    var q := (55 - n) / 64;
    assert n + z + 9 == 64 * (1 - q);
  }

  /** Section 3.5. */
  function Encode(s: State): (d: seq<Byte>)
    ensures |d| == 16
  {
    WordBytes(s.a) + WordBytes(s.b) + WordBytes(s.c) + WordBytes(s.d)
  }

  function Decode(d: seq<Byte>): State
    requires |d| == 16
  {
    State(BytesWord(d[..4]), BytesWord(d[4..8]), BytesWord(d[8..12]), BytesWord(d[12..]))
  }

  /** The digest of a message. */
  function Digest(m: seq<Byte>): (d: seq<Byte>)
    ensures |d| == 16
  {
    Encode(Absorb(INITIAL, m + Padding(|m|)))
  }

  // ----- how a chaining value and a partial block stand for the octets fed so far

  /** Feeding `fed` from the chaining value `from` leads to the chaining value `now`,
      with `tail` not yet compressed. */
  ghost predicate Represents(from: State, fed: seq<Byte>, now: State, tail: seq<Byte>) {
    && |tail| == |fed| % 64
    && tail == fed[|fed| - |tail|..]
    && now == Absorb(from, fed[..|fed| - |tail|])
  }

  /** With nothing left over, the chaining value is that of the whole message. */
  lemma RepresentsWhole(from: State, fed: seq<Byte>, now: State, tail: seq<Byte>)
    requires Represents(from, fed, now, tail) && tail == []
    ensures |fed| % 64 == 0 && now == Absorb(from, fed)
  {
    assert fed[..|fed|] == fed;
  }

  lemma {:induction false} AbsorbConcat(s: State, m: seq<Byte>, n: seq<Byte>)
    requires |m| % 64 == 0 && |n| % 64 == 0
    ensures Absorb(s, m + n) == Absorb(Absorb(s, m), n)
    decreases |n|
  {
    hide Compress;
    if n == [] {
      assert m + n == m;
    } else {
      var k := |n| - 64;
      assert (m + n)[..|m| + k] == m + n[..k] && (m + n)[|m| + k..] == n[k..];
      AbsorbConcat(s, m, n[..k]);
    }
  }

  lemma AbsorbBlock(s: State, block: seq<Byte>)
    requires |block| == 64
    ensures Absorb(s, block) == Compress(s, block)
  {
    hide Compress;
    assert block[..0] == [] && block[0..] == block;
  }

  /** Completing a block compresses it. */
  lemma RepresentsBlock(from: State, fed: seq<Byte>, now: State, tail: seq<Byte>, p: seq<Byte>)
    requires Represents(from, fed, now, tail) && |tail| + |p| == 64
    ensures Represents(from, fed + p, Compress(now, tail + p), [])
  {
    hide Compress;
    var whole := fed[..|fed| - |tail|];
    assert (fed + p)[..|fed + p|] == fed + p == whole + (tail + p);
    assert (fed + p)[..|whole|] == whole && (fed + p)[|whole|..] == tail + p;
  }

  /** Octets that do not complete a block only lengthen the partial one. */
  lemma RepresentsTail(from: State, fed: seq<Byte>, now: State, tail: seq<Byte>, p: seq<Byte>)
    requires Represents(from, fed, now, tail) && |tail| + |p| < 64
    ensures Represents(from, fed + p, now, tail + p)
  {
    hide Compress;
    assert (fed + p)[..|fed| - |tail|] == fed[..|fed| - |tail|];
    assert (fed + p)[|fed| - |tail|..] == tail + p;
  }

  /** Saving a chaining value as a digest and reading it back loses nothing. */
  lemma DecodeEncode(s: State)
    ensures Decode(Encode(s)) == s
  {
    var d := Encode(s);
    assert d[..4] == WordBytes(s.a) && d[4..8] == WordBytes(s.b);
    assert d[8..12] == WordBytes(s.c) && d[12..] == WordBytes(s.d);
    WordRoundTrip(s.a);
    WordRoundTrip(s.b);
    WordRoundTrip(s.c);
    WordRoundTrip(s.d);
  }

  /** Wrap-around addition may be regrouped and exchanged. */
  lemma PlusLaws(x: Word, y: Word, z: Word)
    ensures Plus(Plus(x, y), z) == Plus(x, Plus(y, z))
    ensures Plus(x, y) == Plus(y, x)
  {
    PlusIs(x, y);
    PlusIs(y, x);
    PlusIs(y, z);
    PlusIs(Plus(x, y), z);
    PlusIs(x, Plus(y, z));
    hide Plus;
  }

  lemma PlusIs(x: Word, y: Word)
    ensures Plus(x, y) == if x + y < WORD then x + y else x + y - WORD
  {}

  lemma Steps4(s: State, x: seq<Word>, i: nat, n: nat)
    requires |x| == 16 && i + 4 <= n <= 64
    ensures Steps(s, x, i, n) ==
      Steps(Step(Step(Step(Step(s, x, i), x, i + 1), x, i + 2), x, i + 3), x, i + 4, n)
  {
    var s1 := Step(s, x, i);
    var s2 := Step(s1, x, i + 1);
    var s3 := Step(s2, x, i + 2);
    assert Steps(s1, x, i + 1, n) == Steps(s2, x, i + 2, n);
    assert Steps(s2, x, i + 2, n) == Steps(s3, x, i + 3, n);
  }
}
