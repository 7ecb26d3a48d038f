/** The MD5 of License/md5/md5c.c: a context that counts the bits it is fed in two 32-bit
    words, from which it also finds its place in the buffer.  Words have 32 bits here, as
    License/md5/global.h calls them. */
module RsaMd5 {
  import opened Bytes
  import opened Md5

  const S11 := 7
  const S12 := 12
  const S13 := 17
  const S14 := 22
  const S21 := 5
  const S22 := 9
  const S23 := 14
  const S24 := 20
  const S31 := 4
  const S32 := 11
  const S33 := 16
  const S34 := 23
  const S41 := 6
  const S42 := 10
  const S43 := 15
  const S44 := 21

  method FF(a: Word, b: Word, c: Word, d: Word, x: seq<Word>, k: nat, s: nat, ac: Word, ghost i: nat)
    returns (w: Word)
    requires 0 <= i < 16 && |x| == 16 && k == Index(i) && s == Shift(i) && ac == T(i)
    ensures State(d, w, b, c) == Step(State(a, b, c, d), x, i)
  {
    hide Plus, Rotl, F;
    PlusLaws(Plus(a, F(b, c, d)), x[k], ac);
    PlusLaws(a, F(b, c, d), Plus(x[k], ac));
    PlusLaws(F(b, c, d), x[k], ac);
    w := Plus(a, Plus(Plus(F(b, c, d), x[k]), ac));
    w := Rotl(w, s);
    PlusLaws(w, b, 0);
    w := Plus(w, b);
  }

  method GG(a: Word, b: Word, c: Word, d: Word, x: seq<Word>, k: nat, s: nat, ac: Word, ghost i: nat)
    returns (w: Word)
    requires 16 <= i < 32 && |x| == 16 && k == Index(i) && s == Shift(i) && ac == T(i)
    ensures State(d, w, b, c) == Step(State(a, b, c, d), x, i)
  {
    hide Plus, Rotl, G;
    PlusLaws(Plus(a, G(b, c, d)), x[k], ac);
    PlusLaws(a, G(b, c, d), Plus(x[k], ac));
    PlusLaws(G(b, c, d), x[k], ac);
    w := Plus(a, Plus(Plus(G(b, c, d), x[k]), ac));
    w := Rotl(w, s);
    PlusLaws(w, b, 0);
    w := Plus(w, b);
  }

  method HH(a: Word, b: Word, c: Word, d: Word, x: seq<Word>, k: nat, s: nat, ac: Word, ghost i: nat)
    returns (w: Word)
    requires 32 <= i < 48 && |x| == 16 && k == Index(i) && s == Shift(i) && ac == T(i)
    ensures State(d, w, b, c) == Step(State(a, b, c, d), x, i)
  {
    hide Plus, Rotl, H;
    PlusLaws(Plus(a, H(b, c, d)), x[k], ac);
    PlusLaws(a, H(b, c, d), Plus(x[k], ac));
    PlusLaws(H(b, c, d), x[k], ac);
    w := Plus(a, Plus(Plus(H(b, c, d), x[k]), ac));
    w := Rotl(w, s);
    PlusLaws(w, b, 0);
    w := Plus(w, b);
  }

  method II(a: Word, b: Word, c: Word, d: Word, x: seq<Word>, k: nat, s: nat, ac: Word, ghost i: nat)
    returns (w: Word)
    requires 48 <= i < 64 && |x| == 16 && k == Index(i) && s == Shift(i) && ac == T(i)
    ensures State(d, w, b, c) == Step(State(a, b, c, d), x, i)
  {
    hide Plus, Rotl, I;
    PlusLaws(Plus(a, I(b, c, d)), x[k], ac);
    PlusLaws(a, I(b, c, d), Plus(x[k], ac));
    PlusLaws(I(b, c, d), x[k], ac);
    w := Plus(a, Plus(Plus(I(b, c, d), x[k]), ac));
    w := Rotl(w, s);
    PlusLaws(w, b, 0);
    w := Plus(w, b);
  }

  method Group1(s: State, x: seq<Word>) returns (r: State)
    requires |x| == 16
    ensures Steps(r, x, 16, 4 * |x|) == Steps(s, x, 0, 4 * |x|)
  {
    hide Step, Steps;
    var a, b, c, d := s.a, s.b, s.c, s.d;
    Steps4(State(a, b, c, d), x, 0, 4 * |x|);
    a := FF(a, b, c, d, x, 0, S11, 0xd76aa478, 0);
    d := FF(d, a, b, c, x, 1, S12, 0xe8c7b756, 1);
    c := FF(c, d, a, b, x, 2, S13, 0x242070db, 2);
    b := FF(b, c, d, a, x, 3, S14, 0xc1bdceee, 3);
    Steps4(State(a, b, c, d), x, 4, 4 * |x|);
    a := FF(a, b, c, d, x, 4, S11, 0xf57c0faf, 4);
    d := FF(d, a, b, c, x, 5, S12, 0x4787c62a, 5);
    c := FF(c, d, a, b, x, 6, S13, 0xa8304613, 6);
    b := FF(b, c, d, a, x, 7, S14, 0xfd469501, 7);
    Steps4(State(a, b, c, d), x, 8, 4 * |x|);
    a := FF(a, b, c, d, x, 8, S11, 0x698098d8, 8);
    d := FF(d, a, b, c, x, 9, S12, 0x8b44f7af, 9);
    c := FF(c, d, a, b, x, 10, S13, 0xffff5bb1, 10);
    b := FF(b, c, d, a, x, 11, S14, 0x895cd7be, 11);
    Steps4(State(a, b, c, d), x, 12, 4 * |x|);
    a := FF(a, b, c, d, x, 12, S11, 0x6b901122, 12);
    d := FF(d, a, b, c, x, 13, S12, 0xfd987193, 13);
    c := FF(c, d, a, b, x, 14, S13, 0xa679438e, 14);
    b := FF(b, c, d, a, x, 15, S14, 0x49b40821, 15);
    r := State(a, b, c, d);
  }

  method Group2(s: State, x: seq<Word>) returns (r: State)
    requires |x| == 16
    ensures Steps(r, x, 32, 4 * |x|) == Steps(s, x, 16, 4 * |x|)
  {
    hide Step, Steps;
    var a, b, c, d := s.a, s.b, s.c, s.d;
    Steps4(State(a, b, c, d), x, 16, 4 * |x|);
    a := GG(a, b, c, d, x, 1, S21, 0xf61e2562, 16);
    d := GG(d, a, b, c, x, 6, S22, 0xc040b340, 17);
    c := GG(c, d, a, b, x, 11, S23, 0x265e5a51, 18);
    b := GG(b, c, d, a, x, 0, S24, 0xe9b6c7aa, 19);
    Steps4(State(a, b, c, d), x, 20, 4 * |x|);
    a := GG(a, b, c, d, x, 5, S21, 0xd62f105d, 20);
    d := GG(d, a, b, c, x, 10, S22, 0x2441453, 21);
    c := GG(c, d, a, b, x, 15, S23, 0xd8a1e681, 22);
    b := GG(b, c, d, a, x, 4, S24, 0xe7d3fbc8, 23);
    Steps4(State(a, b, c, d), x, 24, 4 * |x|);
    a := GG(a, b, c, d, x, 9, S21, 0x21e1cde6, 24);
    d := GG(d, a, b, c, x, 14, S22, 0xc33707d6, 25);
    c := GG(c, d, a, b, x, 3, S23, 0xf4d50d87, 26);
    b := GG(b, c, d, a, x, 8, S24, 0x455a14ed, 27);
    Steps4(State(a, b, c, d), x, 28, 4 * |x|);
    a := GG(a, b, c, d, x, 13, S21, 0xa9e3e905, 28);
    d := GG(d, a, b, c, x, 2, S22, 0xfcefa3f8, 29);
    c := GG(c, d, a, b, x, 7, S23, 0x676f02d9, 30);
    b := GG(b, c, d, a, x, 12, S24, 0x8d2a4c8a, 31);
    r := State(a, b, c, d);
  }

  method Group3(s: State, x: seq<Word>) returns (r: State)
    requires |x| == 16
    ensures Steps(r, x, 48, 4 * |x|) == Steps(s, x, 32, 4 * |x|)
  {
    hide Step, Steps;
    var a, b, c, d := s.a, s.b, s.c, s.d;
    Steps4(State(a, b, c, d), x, 32, 4 * |x|);
    a := HH(a, b, c, d, x, 5, S31, 0xfffa3942, 32);
    d := HH(d, a, b, c, x, 8, S32, 0x8771f681, 33);
    c := HH(c, d, a, b, x, 11, S33, 0x6d9d6122, 34);
    b := HH(b, c, d, a, x, 14, S34, 0xfde5380c, 35);
    Steps4(State(a, b, c, d), x, 36, 4 * |x|);
    a := HH(a, b, c, d, x, 1, S31, 0xa4beea44, 36);
    d := HH(d, a, b, c, x, 4, S32, 0x4bdecfa9, 37);
    c := HH(c, d, a, b, x, 7, S33, 0xf6bb4b60, 38);
    b := HH(b, c, d, a, x, 10, S34, 0xbebfbc70, 39);
    Steps4(State(a, b, c, d), x, 40, 4 * |x|);
    a := HH(a, b, c, d, x, 13, S31, 0x289b7ec6, 40);
    d := HH(d, a, b, c, x, 0, S32, 0xeaa127fa, 41);
    c := HH(c, d, a, b, x, 3, S33, 0xd4ef3085, 42);
    b := HH(b, c, d, a, x, 6, S34, 0x4881d05, 43);
    Steps4(State(a, b, c, d), x, 44, 4 * |x|);
    a := HH(a, b, c, d, x, 9, S31, 0xd9d4d039, 44);
    d := HH(d, a, b, c, x, 12, S32, 0xe6db99e5, 45);
    c := HH(c, d, a, b, x, 15, S33, 0x1fa27cf8, 46);
    b := HH(b, c, d, a, x, 2, S34, 0xc4ac5665, 47);
    r := State(a, b, c, d);
  }

  method Group4(s: State, x: seq<Word>) returns (r: State)
    requires |x| == 16
    ensures Steps(r, x, 64, 4 * |x|) == Steps(s, x, 48, 4 * |x|)
  {
    hide Step, Steps;
    var a, b, c, d := s.a, s.b, s.c, s.d;
    Steps4(State(a, b, c, d), x, 48, 4 * |x|);
    a := II(a, b, c, d, x, 0, S41, 0xf4292244, 48);
    d := II(d, a, b, c, x, 7, S42, 0x432aff97, 49);
    c := II(c, d, a, b, x, 14, S43, 0xab9423a7, 50);
    b := II(b, c, d, a, x, 5, S44, 0xfc93a039, 51);
    Steps4(State(a, b, c, d), x, 52, 4 * |x|);
    a := II(a, b, c, d, x, 12, S41, 0x655b59c3, 52);
    d := II(d, a, b, c, x, 3, S42, 0x8f0ccc92, 53);
    c := II(c, d, a, b, x, 10, S43, 0xffeff47d, 54);
    b := II(b, c, d, a, x, 1, S44, 0x85845dd1, 55);
    Steps4(State(a, b, c, d), x, 56, 4 * |x|);
    a := II(a, b, c, d, x, 8, S41, 0x6fa87e4f, 56);
    d := II(d, a, b, c, x, 15, S42, 0xfe2ce6e0, 57);
    c := II(c, d, a, b, x, 6, S43, 0xa3014314, 58);
    b := II(b, c, d, a, x, 13, S44, 0x4e0811a1, 59);
    Steps4(State(a, b, c, d), x, 60, 4 * |x|);
    a := II(a, b, c, d, x, 4, S41, 0xf7537e82, 60);
    d := II(d, a, b, c, x, 11, S42, 0xbd3af235, 61);
    c := II(c, d, a, b, x, 2, S43, 0x2ad7d2bb, 62);
    b := II(b, c, d, a, x, 9, S44, 0xeb86d391, 63);
    r := State(a, b, c, d);
  }

  /** MD5_memcpy: octet by octet into `output` from position `at`. */
  method MemCpy(output: array<Byte>, at: nat, input: seq<Byte>)
    requires at + |input| <= output.Length
    modifies output
    ensures output[..] == old(output[..at]) + input + old(output[at + |input|..])
  {
    for i := 0 to |input|
      invariant forall k :: 0 <= k < output.Length ==>
        output[k] == if at <= k < at + i then input[k - at] else old(output[k])
    {
      output[at + i] := input[i];
    }
  }

  /** The loop of Decode on a block of 64 octets. */
  method DecodeBlock(input: seq<Byte>) returns (output: seq<Word>)
    requires |input| == 64
    ensures output == Words(input)
  {
    output := [];
    var i, j := 0, 0;
    while j < 64
      invariant i <= 16 && j == 4 * i && output == Words(input)[..i]
    {
      output := output + [BytesWord(input[j..j + 4])];
      i, j := i + 1, j + 4;
    }
  }

  /** PADDING. */
  function PaddingBytes(): (p: seq<Byte>)
    ensures |p| == 64
  {
    [0x80] + Zeros(63)
  }

  /** The low and the high word of the 64-bit count of the bits in n octets. */
  function LowCount(n: nat): Word {
    8 * n % WORD
  }

  function HighCount(n: nat): Word {
    8 * n / WORD % WORD
  }

  /** Adding the two halves separately, with a carry when the low one wraps, adds the counts. */
  lemma CountCarry(n: nat, l: nat)
    requires l < WORD
    ensures LowCount(n + l) == Plus(LowCount(n), LowCount(l))
    ensures var carry := if LowCount(n + l) < LowCount(l) then 1 else 0;
      HighCount(n + l) == Plus(Plus(HighCount(n), carry), l / 0x2000_0000)
  {
    var low, high := 8 * n % WORD, 8 * n / WORD;
    var low', high' := 8 * l % WORD, l / 0x2000_0000;
    WordDivMod(8 * l, high', low');
    var carry := if low + low' >= WORD then 1 else 0;
    WordDivMod(8 * (n + l), high + high' + carry, low + low' - WORD * carry);
    WordDivMod(low + low', carry, low + low' - WORD * carry);
    assert low + low' - WORD * carry < low' <==> carry == 1;
    CarryIn(high, carry, high');
  }

  lemma CarryIn(high: nat, carry: Word, high': Word)
    ensures Plus(Plus(high % WORD, carry), high') == (high + high' + carry) % WORD
  {
    var h := high % WORD;
    ModShift((h + carry) / WORD, Plus(h, carry) + high');
    ModShift(high / WORD, h + carry + high');
  }

  lemma ModShift(q: nat, r: nat)
    ensures (WORD * q + r) % WORD == r % WORD
  {
    WordDivMod(WORD * q + r, q + r / WORD, r % WORD);
  }

  lemma PlusNothing(x: Word)
    ensures Plus(x, 0) == x
  {}

  lemma LowCountIs(n: nat)
    ensures LowCount(n) == 8 * n % WORD
  {}

  /** Padding, cut to length, and the two words of the count are the padding of RFC 1321. */
  lemma PaddingIs(n: nat, padLen: nat)
    requires padLen == 1 + (55 - n) % 64
    ensures PaddingBytes()[..padLen] + (WordBytes(LowCount(n)) + WordBytes(HighCount(n))) == Padding(n)
  {
    hide WordBytes;
    assert PaddingBytes()[..padLen] == [0x80] + Zeros(padLen - 1);
  }

  /** Where the loop of MD5Update is in the input after k turns. */
  function Place(index: nat, k: nat): nat
    requires index < 64
  {
    64 - index + 64 * k
  }

  /** The index arithmetic of that loop wraps around, on the way to the end of the input, if and
      only if the buffered octets and the chunk come to 2^32. */
  lemma WrapsExactly(index: nat, l: Word)
    requires index < 64
    ensures (exists k: nat :: Place(index, k) <= l && (Place(index, k) + 63) % WORD != Place(index, k) + 63) <==>
      index + l >= WORD
  {
    if index + l >= WORD {
      LastPlace(index, l);
    }
    forall k: nat | Place(index, k) <= l && (Place(index, k) + 63) % WORD != Place(index, k) + 63
      ensures index + l >= WORD
    {
      assert 64 * (k + 1) > WORD - 64;
      assert k + 1 >= 0x400_0000;
    }
  }

  /** The test is then passed with less than a block left: the source reads behind the chunk. */
  lemma LastPlace(index: nat, l: Word)
    requires index < 64 && index + l >= WORD
    ensures var i := Place(index, 0x3FF_FFFF);
      i <= l < i + 64 && (i + 63) % WORD != i + 63 && (i + 63) % WORD < l
  {
    var i := Place(index, 0x3FF_FFFF);
    assert i == WORD - index;
    WordDivMod(i + 63, 1, 63 - index);
  }

  class Context {
    var state: State
    var count0: Word
    var count1: Word
    var buffer: array<Byte>

    ghost var fed: seq<Byte>

    ghost predicate Valid()
      reads this, buffer
    {
      && buffer.Length == 64
      && count0 == LowCount(|fed|) && count1 == HighCount(|fed|)
      && Represents(INITIAL, fed, state, buffer[..|fed| % 64])
    }

    /** MD5Init on a new context. */
    constructor ()
      ensures Valid() && fresh(buffer) && fed == []
    {
      count0, count1 := 0, 0;
      state := State(0x67452301, 0xefcdab89, 0x98badcfe, 0x10325476);
      buffer := new Byte[64](_ => 0);
      fed := [];
    }

    /** MD5Transform. */
    method Transform(block: seq<Byte>)
      requires |block| == 64
      modifies this`state
      ensures state == Compress(old(state), block)
    {
      hide Step, Plus;
      var x := DecodeBlock(block);
      var r := Group1(state, x);
      r := Group2(r, x);
      r := Group3(r, x);
      r := Group4(r, x);
      state := State(Plus(state.a, r.a), Plus(state.b, r.b), Plus(state.c, r.c), Plus(state.d, r.d));
    }

    /** The first lines of MD5Update: the place in the buffer, and the new bit count. */
    method AddBits(inputLen: Word) returns (index: nat)
      requires Valid()
      modifies this`count0, this`count1
      ensures index == |fed| % 64
      ensures count0 == LowCount(|fed| + inputLen) && count1 == HighCount(|fed| + inputLen)
    {
      hide Represents, Plus, HighCount, LowCount;
      CountCarry(|fed|, inputLen);
      IndexFromCount(|fed|);
      PlusNothing(count1);
      index := count0 / 8 % 64;
      var added := 8 * inputLen % WORD;
      LowCountIs(inputLen);
      count0 := Plus(count0, added);
      if count0 < added {
        count1 := Plus(count1, 1);
      }
      count1 := Plus(count1, inputLen / 0x2000_0000);
    }

    /** MD5Update.  The second requires is what keeps `i + 63` from wrapping around: see
        WrapsExactly. */
    method Update(input: seq<Byte>)
      requires Valid() && |fed| % 64 + |input| < WORD
      modifies this, buffer
      ensures Valid() && buffer == old(buffer) && fed == old(fed) + input
    {
      hide Represents, Compress, LowCount, HighCount;
      var index := AddBits(|input|);
      ghost var head := buffer[..index];
      var partLen := 64 - index;
      var i := 0;
      if |input| >= partLen {
        i := WholeBlocks(index, input);
        index, head := 0, [];
      } else {
        assert fed + input[..0] == fed;
      }
      MemCpy(buffer, index, input[i..]);
      assert buffer[..index + |input| - i] == head + input[i..];
      Settle(head, input, i);
    }

    /** The branch of MD5Update that completes the buffered block and then hashes in place. */
    method WholeBlocks(index: nat, input: seq<Byte>) returns (i: nat)
      requires buffer.Length == 64 && index < 64 <= index + |input| < WORD
      requires Represents(INITIAL, fed, state, buffer[..index])
      modifies this`state, buffer
      ensures i <= |input| < i + 64
      ensures Represents(INITIAL, fed + input[..i], state, [])
    {
      hide Represents, Compress;
      var partLen := 64 - index;
      MemCpy(buffer, index, input[..partLen]);
      RepresentsBlock(INITIAL, fed, state, old(buffer[..index]), input[..partLen]);
      assert buffer[..] == old(buffer[..index]) + input[..partLen];
      Transform(buffer[..]);
      i := partLen;
      ghost var rounds := 0;
      while (i + 63) % WORD < |input|
        invariant i == partLen + 64 * rounds && i <= |input|
        invariant Represents(INITIAL, fed + input[..i], state, [])
        decreases |input| - i
      {
        NoWrap(index, |input|, rounds, i);
        var block := input[i..i + 64];
        RepresentsBlock(INITIAL, fed + input[..i], state, [], block);
        assert [] + block == block;
        assert fed + input[..i] + block == fed + input[..i + 64];
        Transform(block);
        i := i + 64;
        rounds := rounds + 1;
      }
      NoWrap(index, |input|, rounds, i);
    }

    lemma NoWrap(index: nat, l: nat, rounds: nat, i: nat)
      requires index + l < WORD && i == 64 - index + 64 * rounds <= l
      ensures (i + 63) % WORD == i + 63
    {}

    /** Once the whole blocks are gone, what is left of the input is the new partial block. */
    ghost method Settle(head: seq<Byte>, input: seq<Byte>, i: nat)
      requires buffer.Length == 64 && i <= |input| && |head| + |input| - i < 64
      requires Represents(INITIAL, fed + input[..i], state, head)
      requires buffer[..|head| + |input| - i] == head + input[i..]
      requires count0 == LowCount(|fed| + |input|) && count1 == HighCount(|fed| + |input|)
      modifies this`fed
      ensures Valid() && fed == old(fed) + input
    {
      hide Compress, Absorb, LowCount, HighCount;
      RepresentsTail(INITIAL, fed + input[..i], state, head, input[i..]);
      assert fed + input[..i] + input[i..] == fed + input;
      fed := fed + input;
    }

    /** MD5Final: pads to 56 modulo 64, appends the count, and wipes the context. */
    method Final() returns (digest: seq<Byte>)
      requires Valid()
      modifies this, buffer
      ensures digest == Digest(old(fed))
      ensures state == State(0, 0, 0, 0) && count0 == count1 == 0
      ensures buffer == old(buffer) && forall k :: 0 <= k < buffer.Length ==> buffer[k] == 0
    {
      hide Represents, Compress, Absorb, WordBytes, LowCount, HighCount, Padding, PaddingBytes;
      IndexFromCount(|fed|);
      var bits := WordBytes(count0) + WordBytes(count1);
      var index := count0 / 8 % 64;
      var padLen := if index < 56 then 56 - index else 120 - index;
      PadLength(|fed|);
      PaddingIs(|fed|, padLen);
      Update(PaddingBytes()[..padLen]);
      Update(bits);
      assert fed == old(fed) + Padding(|old(fed)|);
      Finished();
      digest := WordBytes(state.a) + WordBytes(state.b) + WordBytes(state.c) + WordBytes(state.d);
      state, count0, count1 := State(0, 0, 0, 0), 0, 0;
      forall k | 0 <= k < buffer.Length {
        buffer[k] := 0;
      }
    }

    lemma Finished()
      requires Valid() && |fed| % 64 == 0
      ensures state == Absorb(INITIAL, fed)
    {
      hide Represents, Absorb, LowCount, HighCount;
      RepresentsWhole(INITIAL, fed, state, buffer[..|fed| % 64]);
    }
  }

  /** `(count >> 3) & 0x3F` is the number of octets in the partial block. */
  lemma IndexFromCount(n: nat)
    ensures LowCount(n) / 8 % 64 == n % 64
  {
    var q, r := 8 * n / WORD, 8 * n % WORD;
    assert n == 0x2000_0000 * q + r / 8;
    ModByBlocks(0x80_0000 * q, r / 8);
  }

  lemma ModByBlocks(q: nat, r: nat)
    ensures (64 * q + r) % 64 == r % 64
  {}

  lemma PadLength(n: nat)
    ensures var index := n % 64;
      (if index < 56 then 56 - index else 120 - index) == 1 + (55 - n) % 64
  {
    assert n == 64 * (n / 64) + n % 64;
  }

  /** However a message of any length is cut up, MD5Update and MD5Final give its digest. */
  method DigestOfChunks(chunks: seq<seq<Byte>>) returns (d: seq<Byte>)
    requires forall k :: 0 <= k < |chunks| ==> |Flatten(chunks[..k])| % 64 + |chunks[k]| < WORD
    ensures d == Digest(Flatten(chunks))
  {
    hide Represents, LowCount, HighCount, Digest;
    var c := new Context();
    for i := 0 to |chunks|
      invariant c.Valid() && fresh(c) && fresh(c.buffer) && c.fed == Flatten(chunks[..i])
    {
      c.Update(chunks[i]);
      assert chunks[..i + 1][..i] == chunks[..i];
    }
    assert chunks[..|chunks|] == chunks;
    d := c.Final();
  }
}
