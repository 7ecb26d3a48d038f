/** The MD5 of wmail/md5/md5.c: a context that is fed any number of octets at a time, is
    told the total length at the end, and whose chaining value can be saved and restored. */
module CourierMd5 {
  import opened Bytes
  import opened Md5

  method Round1(a: Word, b: Word, c: Word, d: Word, x: seq<Word>, k: nat, s: nat, i: nat) returns (w: Word)
    requires 0 <= i < 16 && |x| == 16 && k == Index(i) && s == Shift(i)
    ensures State(d, w, b, c) == Step(State(a, b, c, d), x, i)
  {
    hide Plus, Rotl, F;
    var zz := Plus(Plus(Plus(a, F(b, c, d)), x[k]), T(i));
    w := Plus(b, Rotl(zz, s));
  }

  method Round2(a: Word, b: Word, c: Word, d: Word, x: seq<Word>, k: nat, s: nat, i: nat) returns (w: Word)
    requires 16 <= i < 32 && |x| == 16 && k == Index(i) && s == Shift(i)
    ensures State(d, w, b, c) == Step(State(a, b, c, d), x, i)
  {
    hide Plus, Rotl, G;
    var zz := Plus(Plus(Plus(a, G(b, c, d)), x[k]), T(i));
    w := Plus(b, Rotl(zz, s));
  }

  method Round3(a: Word, b: Word, c: Word, d: Word, x: seq<Word>, k: nat, s: nat, i: nat) returns (w: Word)
    requires 32 <= i < 48 && |x| == 16 && k == Index(i) && s == Shift(i)
    ensures State(d, w, b, c) == Step(State(a, b, c, d), x, i)
  {
    hide Plus, Rotl, H;
    var zz := Plus(Plus(Plus(a, H(b, c, d)), x[k]), T(i));
    w := Plus(b, Rotl(zz, s));
  }

  method Round4(a: Word, b: Word, c: Word, d: Word, x: seq<Word>, k: nat, s: nat, i: nat) returns (w: Word)
    requires 48 <= i < 64 && |x| == 16 && k == Index(i) && s == Shift(i)
    ensures State(d, w, b, c) == Step(State(a, b, c, d), x, i)
  {
    hide Plus, Rotl, I;
    var zz := Plus(Plus(Plus(a, I(b, c, d)), x[k]), T(i));
    w := Plus(b, Rotl(zz, s));
  }

  method Group1(s: State, x: seq<Word>) returns (r: State)
    requires |x| == 16
    ensures Steps(r, x, 16, 4 * |x|) == Steps(s, x, 0, 4 * |x|)
  {
    hide Step, Steps;
    var A, B, C, D := s.a, s.b, s.c, s.d;
    Steps4(State(A, B, C, D), x, 0, 4 * |x|);
    A := Round1(A, B, C, D, x, 0, 7, 0);
    D := Round1(D, A, B, C, x, 1, 12, 1);
    C := Round1(C, D, A, B, x, 2, 17, 2);
    B := Round1(B, C, D, A, x, 3, 22, 3);
    Steps4(State(A, B, C, D), x, 4, 4 * |x|);
    A := Round1(A, B, C, D, x, 4, 7, 4);
    D := Round1(D, A, B, C, x, 5, 12, 5);
    C := Round1(C, D, A, B, x, 6, 17, 6);
    B := Round1(B, C, D, A, x, 7, 22, 7);
    Steps4(State(A, B, C, D), x, 8, 4 * |x|);
    A := Round1(A, B, C, D, x, 8, 7, 8);
    D := Round1(D, A, B, C, x, 9, 12, 9);
    C := Round1(C, D, A, B, x, 10, 17, 10);
    B := Round1(B, C, D, A, x, 11, 22, 11);
    Steps4(State(A, B, C, D), x, 12, 4 * |x|);
    A := Round1(A, B, C, D, x, 12, 7, 12);
    D := Round1(D, A, B, C, x, 13, 12, 13);
    C := Round1(C, D, A, B, x, 14, 17, 14);
    B := Round1(B, C, D, A, x, 15, 22, 15);
    r := State(A, B, C, D);
  }

  method Group2(s: State, x: seq<Word>) returns (r: State)
    requires |x| == 16
    ensures Steps(r, x, 32, 4 * |x|) == Steps(s, x, 16, 4 * |x|)
  {
    hide Step, Steps;
    var A, B, C, D := s.a, s.b, s.c, s.d;
    Steps4(State(A, B, C, D), x, 16, 4 * |x|);
    A := Round2(A, B, C, D, x, 1, 5, 16);
    D := Round2(D, A, B, C, x, 6, 9, 17);
    C := Round2(C, D, A, B, x, 11, 14, 18);
    B := Round2(B, C, D, A, x, 0, 20, 19);
    Steps4(State(A, B, C, D), x, 20, 4 * |x|);
    A := Round2(A, B, C, D, x, 5, 5, 20);
    D := Round2(D, A, B, C, x, 10, 9, 21);
    C := Round2(C, D, A, B, x, 15, 14, 22);
    B := Round2(B, C, D, A, x, 4, 20, 23);
    Steps4(State(A, B, C, D), x, 24, 4 * |x|);
    A := Round2(A, B, C, D, x, 9, 5, 24);
    D := Round2(D, A, B, C, x, 14, 9, 25);
    C := Round2(C, D, A, B, x, 3, 14, 26);
    B := Round2(B, C, D, A, x, 8, 20, 27);
    Steps4(State(A, B, C, D), x, 28, 4 * |x|);
    A := Round2(A, B, C, D, x, 13, 5, 28);
    D := Round2(D, A, B, C, x, 2, 9, 29);
    C := Round2(C, D, A, B, x, 7, 14, 30);
    B := Round2(B, C, D, A, x, 12, 20, 31);
    r := State(A, B, C, D);
  }

  method Group3(s: State, x: seq<Word>) returns (r: State)
    requires |x| == 16
    ensures Steps(r, x, 48, 4 * |x|) == Steps(s, x, 32, 4 * |x|)
  {
    hide Step, Steps;
    var A, B, C, D := s.a, s.b, s.c, s.d;
    Steps4(State(A, B, C, D), x, 32, 4 * |x|);
    A := Round3(A, B, C, D, x, 5, 4, 32);
    D := Round3(D, A, B, C, x, 8, 11, 33);
    C := Round3(C, D, A, B, x, 11, 16, 34);
    B := Round3(B, C, D, A, x, 14, 23, 35);
    Steps4(State(A, B, C, D), x, 36, 4 * |x|);
    A := Round3(A, B, C, D, x, 1, 4, 36);
    D := Round3(D, A, B, C, x, 4, 11, 37);
    C := Round3(C, D, A, B, x, 7, 16, 38);
    B := Round3(B, C, D, A, x, 10, 23, 39);
    Steps4(State(A, B, C, D), x, 40, 4 * |x|);
    A := Round3(A, B, C, D, x, 13, 4, 40);
    D := Round3(D, A, B, C, x, 0, 11, 41);
    C := Round3(C, D, A, B, x, 3, 16, 42);
    B := Round3(B, C, D, A, x, 6, 23, 43);
    Steps4(State(A, B, C, D), x, 44, 4 * |x|);
    A := Round3(A, B, C, D, x, 9, 4, 44);
    D := Round3(D, A, B, C, x, 12, 11, 45);
    C := Round3(C, D, A, B, x, 15, 16, 46);
    B := Round3(B, C, D, A, x, 2, 23, 47);
    r := State(A, B, C, D);
  }

  method Group4(s: State, x: seq<Word>) returns (r: State)
    requires |x| == 16
    ensures Steps(r, x, 64, 4 * |x|) == Steps(s, x, 48, 4 * |x|)
  {
    hide Step, Steps;
    var A, B, C, D := s.a, s.b, s.c, s.d;
    Steps4(State(A, B, C, D), x, 48, 4 * |x|);
    A := Round4(A, B, C, D, x, 0, 6, 48);
    D := Round4(D, A, B, C, x, 7, 10, 49);
    C := Round4(C, D, A, B, x, 14, 15, 50);
    B := Round4(B, C, D, A, x, 5, 21, 51);
    Steps4(State(A, B, C, D), x, 52, 4 * |x|);
    A := Round4(A, B, C, D, x, 12, 6, 52);
    D := Round4(D, A, B, C, x, 3, 10, 53);
    C := Round4(C, D, A, B, x, 10, 15, 54);
    B := Round4(B, C, D, A, x, 1, 21, 55);
    Steps4(State(A, B, C, D), x, 56, 4 * |x|);
    A := Round4(A, B, C, D, x, 8, 6, 56);
    D := Round4(D, A, B, C, x, 15, 10, 57);
    C := Round4(C, D, A, B, x, 6, 15, 58);
    B := Round4(B, C, D, A, x, 13, 21, 59);
    Steps4(State(A, B, C, D), x, 60, 4 * |x|);
    A := Round4(A, B, C, D, x, 4, 6, 60);
    D := Round4(D, A, B, C, x, 11, 10, 61);
    C := Round4(C, D, A, B, x, 2, 15, 62);
    B := Round4(B, C, D, A, x, 9, 21, 63);
    r := State(A, B, C, D);
  }

  /** The loop that loads a block into sixteen words. */
  method LoadWords(block: seq<Byte>) returns (x: seq<Word>)
    requires |block| == 64
    ensures x == Words(block)
  {
    x := [];
    for i := 0 to 16
      invariant x == Words(block)[..i]
    {
      x := x + [BytesWord(block[4 * i..4 * i + 4])];
    }
  }

  /** What md5_context_endstream writes as the length: `ll` is cut to 32 bits first. */
  function LengthBytes(ll: nat): (s: seq<Byte>)
    ensures |s| == 8
  {
    WordBytes(8 * (ll % WORD) % WORD) + WordBytes(ll % WORD / 0x2000_0000)
  }

  /** With n written as a multiple of 2^61, of 2^32, and a 32-bit rest. */
  lemma BitCount(n: nat, q: nat, h: nat, l: nat)
    requires h < 0x2000_0000 && l < WORD && n == 0x2000_0000_0000_0000 * q + WORD * h + l
    ensures n % WORD == l
    ensures 8 * n % WORD == 8 * l % WORD
    ensures 8 * n / WORD % WORD == 8 * h + l / 0x2000_0000
  {
    var t := l / 0x2000_0000;
    var u := 8 * l - WORD * t;
    WordDivMod(n, 0x2000_0000 * q + h, l);
    WordDivMod(8 * n, WORD * q + 8 * h + t, u);
    WordDivMod(8 * l, t, u);
    WordDivMod(WORD * q + 8 * h + t, q, 8 * h + t);
  }

  /** The 32-bit cut is harmless exactly while the count, modulo 2^61, is below 2^32. */
  lemma LengthBytesExact(ll: nat)
    ensures LengthBytes(ll) == LengthField(ll) <==> ll % 0x2000_0000_0000_0000 < WORD
  {
    var q, r := ll / 0x2000_0000_0000_0000, ll % 0x2000_0000_0000_0000;
    var h, l := r / WORD, r % WORD;
    BitCount(ll, q, h, l);
    hide WordBytes, BytesWord;
    var cut, full := l / 0x2000_0000, 8 * h + l / 0x2000_0000;
    assert LengthBytes(ll)[4..] == WordBytes(cut) && LengthField(ll)[4..] == WordBytes(full);
    WordRoundTrip(cut);
    WordRoundTrip(full);
  }

  /** How many zeros take a block that holds `used` octets to 56. */
  function ZerosTo56(used: nat): nat
    requires used < 64
  {
    if used <= 56 then 56 - used else 120 - used
  }

  lemma ZerosConcat(m: nat, n: nat)
    ensures Zeros(m) + Zeros(n) == Zeros(m + n)
  {}

  /** The zeros of one turn are some of those that are needed. */
  lemma MoreZeros(n: nat, more: nat)
    requires n % 64 != 56 && more == if n % 64 > 56 then 64 - n % 64 else 56 - n % 64
    ensures ZerosTo56(n % 64) == more + ZerosTo56((n + more) % 64)
  {
    var q, r := n / 64, n % 64;
    if r > 56 {
      Mod64(n + more, q + 1, 0);
    } else {
      Mod64(n + more, q, 56);
    }
  }

  lemma NoMoreZeros()
    ensures ZerosTo56(56) == 0
  {}

  lemma ZerosMatch(n: nat)
    ensures ZerosTo56((n + 1) % 64) == (55 - n) % 64
  {
    var q, r := n / 64, n % 64;
    if r == 63 {
      Mod64(n + 1, q + 1, 0);
    } else {
      Mod64(n + 1, q, r + 1);
    }
    ZerosNeeded(n);
  }

  lemma Mod64(n: int, q: int, r: nat)
    requires n == 64 * q + r && r < 64
    ensures n % 64 == r
  {}

  lemma ZerosNeeded(n: nat)
    ensures (55 - n) % 64 == if n % 64 <= 55 then 55 - n % 64 else 119 - n % 64
  {
    var q, r := n / 64, n % 64;
    if r <= 55 {
      Mod64(55 - n, -q, 55 - r);
    } else {
      Mod64(55 - n, -q - 1, 119 - r);
    }
  }

  lemma RepresentsNothing(s: State)
    ensures Represents(s, [], s, [])
  {}

  class Context {
    var A: Word
    var B: Word
    var C: Word
    var D: Word
    var blk: array<Byte>
    var blkPtr: nat

    /** The chaining value the octets in `fed` were added to. */
    ghost var origin: State
    ghost var fed: seq<Byte>

    ghost predicate Valid()
      reads this, blk
    {
      blk.Length == 64 && blkPtr < 64 && Represents(origin, fed, Chaining(), blk[..blkPtr])
    }

    function Chaining(): State
      reads this
    {
      State(A, B, C, D)
    }

    constructor ()
      ensures Valid() && fresh(blk) && origin == INITIAL && fed == []
    {
      A, B, C, D := INITIAL.a, INITIAL.b, INITIAL.c, INITIAL.d;
      blk := new Byte[64](_ => 0);
      blkPtr := 0;
      origin, fed := INITIAL, [];
    }

    /** md5_context_init on a context that was used before. */
    method Init()
      requires blk.Length == 64
      modifies this
      ensures Valid() && blk == old(blk) && origin == INITIAL && fed == []
    {
      A := 0x67452301;
      B := 0xefcdab89;
      C := 0x98badcfe;
      D := 0x10325476;
      blkPtr := 0;
      origin, fed := INITIAL, [];
      hide Represents;
      RepresentsNothing(INITIAL);
      assert blk[..blkPtr] == [];
    }

    /** md5_context_hash. */
    method Hash(block: seq<Byte>)
      requires |block| == 64
      modifies this`A, this`B, this`C, this`D
      ensures Chaining() == Compress(old(Chaining()), block)
    {
      hide Step, Plus;
      var x := LoadWords(block);
      var r := Group1(Chaining(), x);
      r := Group2(r, x);
      r := Group3(r, x);
      r := Group4(r, x);
      A := Plus(A, r.a);
      B := Plus(B, r.b);
      C := Plus(C, r.c);
      D := Plus(D, r.d);
    }

    /** The buffering half of md5_context_hashstream: octets that fit behind those in `blk`. */
    method Buffer(part: seq<Byte>)
      requires Valid() && |part| <= 64 - blkPtr
      modifies this, blk
      ensures Valid() && blk == old(blk) && origin == old(origin) && fed == old(fed) + part
    {
      hide Represents, Compress;
      ghost var tail := blk[..blkPtr];
      forall k | 0 <= k < |part| {
        blk[blkPtr + k] := part[k];
      }
      blkPtr := blkPtr + |part|;
      assert blk[..blkPtr] == tail + part;
      fed := fed + part;
      if blkPtr >= 64 {
        RepresentsBlock(origin, old(fed), Chaining(), tail, part);
        assert blk[..] == tail + part;
        Hash(blk[..]);
        blkPtr := 0;
        assert blk[..blkPtr] == [];
      } else {
        RepresentsTail(origin, old(fed), Chaining(), tail, part);
      }
    }

    /** The other half: a whole block straight from the input. */
    method Whole(block: seq<Byte>)
      requires Valid() && |block| == 64 && blkPtr == 0
      modifies this
      ensures Valid() && blk == old(blk) && blkPtr == 0
      ensures origin == old(origin) && fed == old(fed) + block
    {
      hide Represents, Compress;
      assert blk[..blkPtr] == [] && [] + block == block;
      RepresentsBlock(origin, fed, Chaining(), [], block);
      Hash(block);
      fed := fed + block;
    }

    /** md5_context_hashstream. */
    method HashStream(p: seq<Byte>)
      requires Valid() && |p| < WORD
      modifies this, blk
      ensures Valid() && blk == old(blk) && origin == old(origin) && fed == old(fed) + p
    {
      hide Represents, Compress;
      var cp := 0;
      while cp < |p|
        invariant cp <= |p| && Valid() && blk == old(blk)
        invariant origin == old(origin) && fed == old(fed) + p[..cp]
      {
        var ll := |p| - cp;
        if blkPtr == 0 && ll >= 64 {
          ll := 64;
          Whole(p[cp..cp + ll]);
        } else {
          if ll > 64 - blkPtr {
            ll := 64 - blkPtr;
          }
          Buffer(p[cp..cp + ll]);
        }
        assert p[..cp] + p[cp..cp + ll] == p[..cp + ll];
        cp := cp + ll;
      }
      assert p[..cp] == p;
    }

    /** The loop of md5_context_endstream: zeros until eight octets of the block are left. */
    method PadZeros()
      requires Valid()
      modifies this, blk
      ensures Valid() && blk == old(blk) && origin == old(origin)
      ensures blkPtr == 56 && fed == old(fed) + Zeros(ZerosTo56(old(blkPtr)))
    {
      hide Valid, Zeros, ZerosTo56;
      ghost var done := 0;
      assert fed == fed + Zeros(0);
      BlkPtrIs();
      while blkPtr != 56
        invariant Valid() && blk == old(blk) && origin == old(origin) && blkPtr == |fed| % 64
        invariant 0 <= done && fed == old(fed) + Zeros(done)
        invariant ZerosTo56(old(blkPtr)) == done + ZerosTo56(blkPtr)
        decreases ZerosTo56(blkPtr)
      {
        var more := if blkPtr > 56 then 64 - blkPtr else 56 - blkPtr;
        ZerosConcat(done, more);
        MoreZeros(|fed|, more);
        HashStream(Zeros(more));
        done := done + more;
        BlkPtrIs();
      }
      NoMoreZeros();
    }

    /** md5_context_endstream: the padding, then the length the caller names. */
    method EndStream(ll: nat)
      requires Valid()
      modifies this, blk
      ensures Valid() && blk == old(blk) && origin == old(origin) && blkPtr == 0
      ensures fed == old(fed) + [0x80] + Zeros((55 - |old(fed)|) % 64) + LengthBytes(ll)
    {
      hide Represents, Compress, WordBytes, Zeros, ZerosTo56;
      ZerosMatch(|fed|);
      PaddingFits(|fed|);
      HashStream([0x80]);
      BlkPtrIs();
      PadZeros();
      var l := 8 * (ll % WORD) % WORD;
      var buf := WordBytes(l);
      l := ll % WORD;
      l := l / 0x2000_0000;
      buf := buf + WordBytes(l);
      HashStream(buf);
      BlkPtrIs();
    }

    lemma BlkPtrIs()
      requires Valid()
      ensures blkPtr == |fed| % 64
    {}

    /** md5_context_digest. */
    method GetDigest() returns (d: seq<Byte>)
      requires Valid() && blkPtr == 0
      ensures d == Encode(Absorb(origin, fed))
    {
      hide Absorb, WordBytes, Represents;
      RepresentsWhole(origin, fed, Chaining(), blk[..blkPtr]);
      d := WordBytes(A) + WordBytes(B) + WordBytes(C) + WordBytes(D);
    }

    /** md5_context_restore. */
    method Restore(d: seq<Byte>)
      requires |d| == 16 && blk.Length == 64
      modifies this
      ensures Valid() && blk == old(blk) && origin == Decode(d) && fed == [] && blkPtr == 0
    {
      D := BytesWord(d[12..]);
      C := BytesWord(d[8..12]);
      B := BytesWord(d[4..8]);
      A := BytesWord(d[..4]);
      blkPtr := 0;
      origin, fed := Decode(d), [];
    }
  }

  /** md5_digest: MD5 as the RFC has it, for every length its argument type allows. */
  method Md5Digest(msg: seq<Byte>) returns (d: seq<Byte>)
    requires |msg| < WORD
    ensures d == Digest(msg)
  {
    hide Represents, Compress, Absorb, LengthField, LengthBytes, Encode;
    var c := new Context();
    c.HashStream(msg);
    c.EndStream(|msg|);
    LengthBytesExact(|msg|);
    assert c.fed == msg + Padding(|msg|);
    d := c.GetDigest();
  }

  /** However a message is cut up, hashing the pieces gives the digest of the whole. */
  method DigestOfChunks(chunks: seq<seq<Byte>>) returns (d: seq<Byte>)
    requires forall k :: 0 <= k < |chunks| ==> |chunks[k]| < WORD
    ensures |Flatten(chunks)| % 0x2000_0000_0000_0000 < WORD ==> d == Digest(Flatten(chunks))
  {
    hide Represents, Compress, Absorb, LengthField, LengthBytes, Encode;
    var c := new Context();
    var total := 0;
    for i := 0 to |chunks|
      invariant c.Valid() && fresh(c) && fresh(c.blk)
      invariant c.origin == INITIAL && c.fed == Flatten(chunks[..i]) && total == |c.fed|
    {
      c.HashStream(chunks[i]);
      total := total + |chunks[i]|;
      assert chunks[..i + 1][..i] == chunks[..i];
    }
    assert chunks[..|chunks|] == chunks;
    c.EndStream(total);
    LengthBytesExact(total);
    assert total % 0x2000_0000_0000_0000 < WORD ==> c.fed == Flatten(chunks) + Padding(total);
    d := c.GetDigest();
  }
}
