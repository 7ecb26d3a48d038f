/** An entry of the test suite of RFC 1321, section A.5: the digest of the small letters, step by step.
    A word is given by its bits where a step works on bits. */
module Md5Suite {
  import opened Bytes
  import opened Md5

  function Bits(x: bv32): Word {
    x as int
  }

  lemma BitsBack(x: bv32)
    ensures Bits(x) as bv32 == x
  {}

  function BitAnd(x: bv32, y: bv32): bv32 {
    x & y
  }

  function BitOr(x: bv32, y: bv32): bv32 {
    x | y
  }

  function BitXor(x: bv32, y: bv32): bv32 {
    x ^ y
  }

  function BitNot(x: bv32): bv32 {
    !x
  }

  lemma AndWords(v: Word, w: Word)
    ensures And(v, w) == Bits(BitAnd(v as bv32, w as bv32))
  {}

  lemma OrWords(v: Word, w: Word)
    ensures Or(v, w) == Bits(BitOr(v as bv32, w as bv32))
  {}

  lemma XorWords(v: Word, w: Word)
    ensures Xor(v, w) == Bits(BitXor(v as bv32, w as bv32))
  {}

  lemma NotWord(v: Word)
    ensures Not(v) == Bits(BitNot(v as bv32))
  {}

  lemma OnBits(x: bv32, y: bv32)
    ensures And(Bits(x), Bits(y)) == Bits(BitAnd(x, y)) && Or(Bits(x), Bits(y)) == Bits(BitOr(x, y))
    ensures Xor(Bits(x), Bits(y)) == Bits(BitXor(x, y)) && Not(Bits(x)) == Bits(BitNot(x))
  {
    hide And, Or, Xor, Not, Bits, BitAnd, BitOr, BitXor, BitNot;
    BitsBack(x);
    BitsBack(y);
    AndWords(Bits(x), Bits(y));
    OrWords(Bits(x), Bits(y));
    XorWords(Bits(x), Bits(y));
    NotWord(Bits(x));
  }

  lemma AndBits(x: bv32, y: bv32, r: bv32)
    requires r == x & y
    ensures And(Bits(x), Bits(y)) == Bits(r)
  {
    hide And, Bits;
    OnBits(x, y);
  }

  lemma OrBits(x: bv32, y: bv32, r: bv32)
    requires r == x | y
    ensures Or(Bits(x), Bits(y)) == Bits(r)
  {
    hide Or, Bits;
    OnBits(x, y);
  }

  lemma XorBits(x: bv32, y: bv32, r: bv32)
    requires r == x ^ y
    ensures Xor(Bits(x), Bits(y)) == Bits(r)
  {
    hide Xor, Bits;
    OnBits(x, y);
  }

  lemma NotBits(x: bv32, r: bv32)
    requires r == !x
    ensures Not(Bits(x)) == Bits(r)
  {
    hide Not, Bits;
    OnBits(x, x);
  }

  lemma FBits(x: bv32, y: bv32, z: bv32, m: bv32)
    requires m == (x & y) | (!x & z)
    ensures F(Bits(x), Bits(y), Bits(z)) == Bits(m)
  {
    hide F, Bits;
    FParts(x, y, z, !x, x & y, !x & z, m);
  }

  lemma FParts(x: bv32, y: bv32, z: bv32, n: bv32, p: bv32, q: bv32, m: bv32)
    requires n == !x && p == x & y && q == n & z && m == p | q
    ensures F(Bits(x), Bits(y), Bits(z)) == Bits(m)
  {
    hide And, Or, Xor, Not, Bits;
    NotBits(x, n);
    AndBits(x, y, p);
    AndBits(n, z, q);
    OrBits(p, q, m);
  }

  lemma GBits(x: bv32, y: bv32, z: bv32, m: bv32)
    requires m == (x & z) | (y & !z)
    ensures G(Bits(x), Bits(y), Bits(z)) == Bits(m)
  {
    hide G, Bits;
    GParts(x, y, z, !z, x & z, y & !z, m);
  }

  lemma GParts(x: bv32, y: bv32, z: bv32, n: bv32, p: bv32, q: bv32, m: bv32)
    requires n == !z && p == x & z && q == y & n && m == p | q
    ensures G(Bits(x), Bits(y), Bits(z)) == Bits(m)
  {
    hide And, Or, Xor, Not, Bits;
    NotBits(z, n);
    AndBits(x, z, p);
    AndBits(y, n, q);
    OrBits(p, q, m);
  }

  lemma HBits(x: bv32, y: bv32, z: bv32, m: bv32)
    requires m == x ^ y ^ z
    ensures H(Bits(x), Bits(y), Bits(z)) == Bits(m)
  {
    hide H, Bits;
    HParts(x, y, z, x ^ y, m);
  }

  lemma HParts(x: bv32, y: bv32, z: bv32, p: bv32, m: bv32)
    requires p == x ^ y && m == p ^ z
    ensures H(Bits(x), Bits(y), Bits(z)) == Bits(m)
  {
    hide And, Or, Xor, Not, Bits;
    XorBits(x, y, p);
    XorBits(p, z, m);
  }

  lemma IBits(x: bv32, y: bv32, z: bv32, m: bv32)
    requires m == y ^ (x | !z)
    ensures I(Bits(x), Bits(y), Bits(z)) == Bits(m)
  {
    hide I, Bits;
    IParts(x, y, z, !z, x | !z, m);
  }

  lemma IParts(x: bv32, y: bv32, z: bv32, n: bv32, p: bv32, m: bv32)
    requires n == !z && p == x | n && m == y ^ p
    ensures I(Bits(x), Bits(y), Bits(z)) == Bits(m)
  {
    hide And, Or, Xor, Not, Bits;
    NotBits(z, n);
    OrBits(x, n, p);
    XorBits(y, p, m);
  }

  /** The only block of the padded message. */
  const BLOCK: seq<Word> := [
    0x64636261, 0x68676665, 0x6c6b6a69, 0x706f6e6d, 0x74737271, 0x78777675, 0x00807a79, 0x00000000,
    0x00000000, 0x00000000, 0x00000000, 0x00000000, 0x00000000, 0x00000000, 0x000000d0, 0x00000000]

  /** The registers after every fourth step. */
  const S0 := State(0x67452301, 0xefcdab89, 0x98badcfe, 0x10325476)
  const S4 := State(0xd6d117a6, 0x4503b812, 0x227d8cf1, 0xaab1aaaa)
  const S8 := State(0xfe15f787, 0xda9bbb0d, 0xb71122fc, 0xa811b278)
  const S12 := State(0xae752899, 0x56cfa5cb, 0x7d4bd80b, 0x2bbe757f)
  const S16 := State(0x1754a316, 0x608d6b7e, 0x00df74d5, 0x85567d90)
  const S20 := State(0x2d8071cc, 0x4c2145b3, 0xedfe7e4b, 0x5dcee119)
  const S24 := State(0x570c43e0, 0xc9f162d4, 0xc28ab49d, 0x977efd2a)
  const S28 := State(0x25bfae3b, 0xe6d3b398, 0xf8c8365f, 0x89980104)
  const S32 := State(0xf54d8710, 0xaeb35766, 0x2e69afc7, 0x927b72e2)
  const S36 := State(0xb4bf680e, 0x06a5e211, 0x2361ed0a, 0x4c8ffa80)
  const S40 := State(0xb9c0c733, 0x8d41bf99, 0x23a9451b, 0xf1e6dc7a)
  const S44 := State(0xa3e88ead, 0x90a35af5, 0x66f6468d, 0x02c0b11c)
  const S48 := State(0xb5d41f9c, 0x71d10367, 0x703d54d8, 0xa04b4904)
  const S52 := State(0xfc32dd6e, 0x33edb197, 0xb35602cb, 0x65456b34)
  const S56 := State(0xc1e942f1, 0x83877d1b, 0x23a68048, 0xd9bb987c)
  const S60 := State(0x0077c208, 0x5e6bc930, 0xa3e2247f, 0x847fc2e7)
  const S64 := State(0x708ed9c2, 0x1116e6d8, 0xd38f1e7f, 0x2baf1354)

  function Rotated(x: bv32, s: nat): bv32
    requires 0 < s < 32
  {
    (x << s) | (x >> (32 - s))
  }

  lemma RotlWord(w: Word, s: nat)
    requires 0 < s < 32
    ensures Rotl(w, s) == Bits(Rotated(w as bv32, s))
  {}

  lemma RotlBits(x: bv32, s: nat, r: bv32)
    requires 0 < s < 32 && r == Rotated(x, s)
    ensures Rotl(Bits(x), s) == Bits(r)
  {
    hide Rotl, Rotated, Bits;
    BitsBack(x);
    RotlWord(Bits(x), s);
  }

  lemma PlusMod(u: nat, x: Word)
    ensures Plus(u % WORD, x) == (u + x) % WORD
  {
    var q, r := u / WORD, u % WORD + x;
    WordDivMod(u + x, q + r / WORD, r % WORD);
  }

  lemma Sum(a: Word, m: Word, x: Word, t: Word)
    ensures Plus(Plus(Plus(a, m), x), t) == (a + m + x + t) % WORD
  {
    hide Plus;
    PlusMod(a, m);
    PlusMod(a + m, x);
    PlusMod(a + m + x, t);
    assert a % WORD == a;
  }

  /** The operation [abcd k s i], when m is the value of the auxiliary function. */
  lemma StepTo(s: State, k: nat, n: nat, i: nat, m: Word, t: bv32, r: bv32)
    requires i < 64 && k == Index(i) && n == Shift(i) && Mix(i, s.b, s.c, s.d) == m
    requires Bits(t) == (s.a + m + BLOCK[k] + T(i)) % WORD && r == Rotated(t, n)
    ensures Step(s, BLOCK, i) == State(s.d, (s.b + Bits(r)) % WORD, s.b, s.c)
  {
    hide Mix, Rotl, Rotated, Index, T, Shift, Bits;
    RotlBits(t, n, r);
    Sum(s.a, m, BLOCK[k], T(i));
  }

  lemma StepF(a: Word, b: bv32, c: bv32, d: bv32, k: nat, s: nat, i: nat, m: bv32, t: bv32, r: bv32)
    requires 0 <= i < 16 && k == Index(i) && s == Shift(i) && m == (b & c) | (!b & d)
    requires Bits(t) == (a + Bits(m) + BLOCK[k] + T(i)) % WORD && r == Rotated(t, s)
    ensures Step(State(a, Bits(b), Bits(c), Bits(d)), BLOCK, i) ==
            State(Bits(d), (Bits(b) + Bits(r)) % WORD, Bits(b), Bits(c))
  {
    hide F, Rotated, Index, T, Shift, Bits, Step;
    FBits(b, c, d, m);
    StepTo(State(a, Bits(b), Bits(c), Bits(d)), k, s, i, Bits(m), t, r);
  }

  lemma StepG(a: Word, b: bv32, c: bv32, d: bv32, k: nat, s: nat, i: nat, m: bv32, t: bv32, r: bv32)
    requires 16 <= i < 32 && k == Index(i) && s == Shift(i) && m == (b & d) | (c & !d)
    requires Bits(t) == (a + Bits(m) + BLOCK[k] + T(i)) % WORD && r == Rotated(t, s)
    ensures Step(State(a, Bits(b), Bits(c), Bits(d)), BLOCK, i) ==
            State(Bits(d), (Bits(b) + Bits(r)) % WORD, Bits(b), Bits(c))
  {
    hide G, Rotated, Index, T, Shift, Bits, Step;
    GBits(b, c, d, m);
    StepTo(State(a, Bits(b), Bits(c), Bits(d)), k, s, i, Bits(m), t, r);
  }

  lemma StepH(a: Word, b: bv32, c: bv32, d: bv32, k: nat, s: nat, i: nat, m: bv32, t: bv32, r: bv32)
    requires 32 <= i < 48 && k == Index(i) && s == Shift(i) && m == b ^ c ^ d
    requires Bits(t) == (a + Bits(m) + BLOCK[k] + T(i)) % WORD && r == Rotated(t, s)
    ensures Step(State(a, Bits(b), Bits(c), Bits(d)), BLOCK, i) ==
            State(Bits(d), (Bits(b) + Bits(r)) % WORD, Bits(b), Bits(c))
  {
    hide H, Rotated, Index, T, Shift, Bits, Step;
    HBits(b, c, d, m);
    StepTo(State(a, Bits(b), Bits(c), Bits(d)), k, s, i, Bits(m), t, r);
  }

  lemma StepI(a: Word, b: bv32, c: bv32, d: bv32, k: nat, s: nat, i: nat, m: bv32, t: bv32, r: bv32)
    requires 48 <= i < 64 && k == Index(i) && s == Shift(i) && m == c ^ (b | !d)
    requires Bits(t) == (a + Bits(m) + BLOCK[k] + T(i)) % WORD && r == Rotated(t, s)
    ensures Step(State(a, Bits(b), Bits(c), Bits(d)), BLOCK, i) ==
            State(Bits(d), (Bits(b) + Bits(r)) % WORD, Bits(b), Bits(c))
  {
    hide I, Rotated, Index, T, Shift, Bits, Step;
    IBits(b, c, d, m);
    StepTo(State(a, Bits(b), Bits(c), Bits(d)), k, s, i, Bits(m), t, r);
  }

  ghost predicate Leads(s: State, i: nat, t: State) {
    i + 4 <= 64 && Steps(s, BLOCK, i, 64) == Steps(t, BLOCK, i + 4, 64)
  }

  lemma Steps0To3()
    ensures Leads(S0, 0, S4)
  {
    hide Step, Steps;
    StepF(0x67452301, 0xefcdab89, 0x98badcfe, 0x10325476, 0, 7, 0, 0x98badcfe, 0x3bce06d8, 0xe7036c1d);
    StepF(0x10325476, 0xd6d117a6, 0xefcdab89, 0x98badcfe, 1, 12, 1, 0xceebcbd8, 0x304d3e09, 0xd3e09304);
    StepF(0x98badcfe, 0xaab1aaaa, 0xd6d117a6, 0xefcdab89, 2, 17, 2, 0xc7dd03a3, 0xf123bbe5, 0x77cbe247);
    StepF(0xefcdab89, 0x227d8cf1, 0xaab1aaaa, 0xd6d117a6, 3, 22, 3, 0xf6b19ba6, 0x18ac848a, 0x22862b21);
    Steps4(S0, BLOCK, 0, 64);
  }

  lemma Steps4To7()
    ensures Leads(S4, 4, S8)
  {
    hide Step, Steps;
    StepF(0xd6d117a6, 0x4503b812, 0x227d8cf1, 0xaab1aaaa, 4, 7, 4, 0xaab18ab8, 0xeb72247e, 0xb9123f75);
    StepF(0xaab1aaaa, 0xfe15f787, 0x4503b812, 0x227d8cf1, 5, 12, 5, 0x4469b872, 0xaf1a9fbb, 0xa9fbbaf1);
    StepF(0x227d8cf1, 0xa811b278, 0xfe15f787, 0x4503b812, 6, 17, 6, 0xed13ba02, 0xb842077f, 0x0eff7084);
    StepF(0x4503b812, 0xb71122fc, 0xa811b278, 0xfe15f787, 7, 22, 7, 0xe815f77b, 0x2a60448e, 0x238a9811);
    Steps4(S4, BLOCK, 4, 64);
  }

  lemma Steps8To11()
    ensures Leads(S8, 8, S12)
  {
    hide Step, Steps;
    StepF(0xfe15f787, 0xda9bbb0d, 0xb71122fc, 0xa811b278, 8, 7, 8, 0xb211227c, 0x19a7b2db, 0xd3d96d8c);
    StepF(0xa811b278, 0xae752899, 0xda9bbb0d, 0xb71122fc, 9, 12, 9, 0x9b112a6d, 0xce67d494, 0x7d494ce6);
    StepF(0xb71122fc, 0x2bbe757f, 0xae752899, 0xda9bbb0d, 10, 17, 10, 0xfa35aa19, 0xb14628c6, 0x518d628c);
    StepF(0xda9bbb0d, 0x7d4bd80b, 0x2bbe757f, 0xae752899, 11, 22, 11, 0xab3e709b, 0x0f370366, 0xd983cdc0);
    Steps4(S8, BLOCK, 8, 64);
  }

  lemma Steps12To15()
    ensures Leads(S12, 12, S16)
  {
    hide Step, Steps;
    StepF(0xae752899, 0x56cfa5cb, 0x7d4bd80b, 0x2bbe757f, 12, 7, 12, 0x7d7bd03f, 0x978109fa, 0xc084fd4b);
    StepF(0x2bbe757f, 0x1754a316, 0x56cfa5cb, 0x7d4bd80b, 13, 12, 13, 0x7e4ff90b, 0xa7a6e01d, 0x6e01da7a);
    StepF(0x7d4bd80b, 0x85567d90, 0x1754a316, 0x56cfa5cb, 14, 17, 14, 0x57dda15b, 0x7ba2bdc4, 0x7b88f745);
    StepF(0x56cfa5cb, 0x00df74d5, 0x85567d90, 0x1754a316, 15, 22, 15, 0x1756f792, 0xb7daa57e, 0x5fadf6a9);
    Steps4(S12, BLOCK, 12, 64);
  }

  lemma Steps16To19()
    ensures Leads(S16, 16, S20)
  {
    hide Step, Steps;
    StepG(0x1754a316, 0x608d6b7e, 0x00df74d5, 0x85567d90, 1, 5, 16, 0x008d6955, 0x76679832, 0xccf3064e);
    StepG(0x85567d90, 0x2d8071cc, 0x608d6b7e, 0x00df74d5, 6, 9, 17, 0x60807bee, 0xa6982737, 0x304e6f4d);
    StepG(0x00df74d5, 0x5dcee119, 0x2d8071cc, 0x608d6b7e, 11, 14, 18, 0x4d8c7198, 0x74ca40be, 0x902f9d32);
    StepG(0x608d6b7e, 0xedfe7e4b, 0x5dcee119, 0x2d8071cc, 0, 20, 19, 0x7dcef059, 0x2c7685e2, 0x5e22c768);
    Steps4(S16, BLOCK, 16, 64);
  }

  lemma Steps20To23()
    ensures Leads(S20, 20, S24)
  {
    hide Step, Steps;
    StepG(0x2d8071cc, 0x4c2145b3, 0xedfe7e4b, 0x5dcee119, 5, 5, 20, 0xec305f53, 0x685757f1, 0x0aeafe2d);
    StepG(0x5dcee119, 0x570c43e0, 0x4c2145b3, 0xedfe7e4b, 10, 9, 21, 0x450d43f0, 0xa520395c, 0x4072b94a);
    StepG(0xedfe7e4b, 0x977efd2a, 0x570c43e0, 0x4c2145b3, 15, 14, 22, 0x172c4762, 0xddccac2e, 0x2b0bb773);
    StepG(0x4c2145b3, 0xc28ab49d, 0x977efd2a, 0x570c43e0, 4, 20, 23, 0xc27abc8a, 0x6ae37076, 0x0766ae37);
    Steps4(S20, BLOCK, 20, 64);
  }

  lemma Steps24To27()
    ensures Leads(S24, 24, S28)
  {
    hide Step, Steps;
    StepG(0x570c43e0, 0xc9f162d4, 0xc28ab49d, 0x977efd2a, 9, 5, 24, 0xc1f06095, 0x3ade725b, 0x5bce4b67);
    StepG(0x977efd2a, 0x25bfae3b, 0xc9f162d4, 0xc28ab49d, 14, 9, 25, 0x09fbe659, 0x64b1ec29, 0x63d852c9);
    StepG(0xc28ab49d, 0x89980104, 0x25bfae3b, 0xc9f162d4, 3, 14, 26, 0xad9e8c2f, 0xd56dbcc0, 0x6f30355b);
    StepG(0xc9f162d4, 0xf8c8365f, 0x89980104, 0x25bfae3b, 8, 20, 27, 0xa888271f, 0xb7d39ee0, 0xee0b7d39);
    Steps4(S24, BLOCK, 24, 64);
  }

  lemma Steps28To31()
    ensures Leads(S28, 28, S32)
  {
    hide Step, Steps;
    StepG(0x25bfae3b, 0xe6d3b398, 0xf8c8365f, 0x89980104, 13, 5, 28, 0xf0d0375b, 0xc073ce9b, 0x0e79d378);
    StepG(0x89980104, 0xf54d8710, 0xe6d3b398, 0xf8c8365f, 2, 9, 29, 0xf65b8790, 0xe94e96f5, 0x9d2debd2);
    StepG(0xf8c8365f, 0x927b72e2, 0xf54d8710, 0xe6d3b398, 7, 14, 30, 0x935f3680, 0xf3966fb8, 0x9bee3ce5);
    StepG(0xe6d3b398, 0x2e69afc7, 0x927b72e2, 0xf54d8710, 12, 20, 31, 0x267bf7e2, 0x9a79f804, 0x8049a79f);
    Steps4(S28, BLOCK, 28, 64);
  }

  lemma Steps32To35()
    ensures Leads(S32, 32, S36)
  {
    hide Step, Steps;
    StepH(0xf54d8710, 0xaeb35766, 0x2e69afc7, 0x927b72e2, 5, 4, 32, 0x12a18a43, 0x8060c10a, 0x060c10a8);
    StepH(0x927b72e2, 0xb4bf680e, 0xaeb35766, 0x2e69afc7, 8, 11, 33, 0x346590af, 0x4e52fa12, 0x97d09272);
    StepH(0x2e69afc7, 0x4c8ffa80, 0xb4bf680e, 0xaeb35766, 11, 16, 34, 0x5683c5e8, 0xf28ad6d1, 0xd6d1f28a);
    StepH(0xaeb35766, 0x2361ed0a, 0x4c8ffa80, 0xb4bf680e, 14, 23, 35, 0xdb517f84, 0x87ea0fc6, 0xe343f507);
    Steps4(S32, BLOCK, 32, 64);
  }

  lemma Steps36To39()
    ensures Leads(S36, 36, S40)
  {
    hide Step, Steps;
    StepH(0xb4bf680e, 0x06a5e211, 0x2361ed0a, 0x4c8ffa80, 1, 4, 36, 0x694bf59b, 0x2b31ae52, 0xb31ae522);
    StepH(0x4c8ffa80, 0xb9c0c733, 0x06a5e211, 0x2361ed0a, 4, 11, 37, 0x9c04c828, 0xa8e704c2, 0x38261547);
    StepH(0x2361ed0a, 0xf1e6dc7a, 0xb9c0c733, 0x06a5e211, 7, 16, 38, 0x4e83f958, 0x68a131c2, 0x31c268a1);
    StepH(0x06a5e211, 0x23a9451b, 0xf1e6dc7a, 0xb9c0c733, 10, 23, 39, 0x6b8f5e52, 0x30f4fcd3, 0x69987a7e);
    Steps4(S36, BLOCK, 36, 64);
  }

  lemma Steps40To43()
    ensures Leads(S40, 40, S44)
  {
    hide Step, Steps;
    StepH(0xb9c0c733, 0x8d41bf99, 0x23a9451b, 0xf1e6dc7a, 13, 4, 40, 0x5f0e26f8, 0x416a6cf1, 0x16a6cf14);
    StepH(0xf1e6dc7a, 0xa3e88ead, 0x8d41bf99, 0x23a9451b, 0, 11, 41, 0x0d00742f, 0x4debdb04, 0x5ed8226f);
    StepH(0x23a9451b, 0x02c0b11c, 0xa3e88ead, 0x8d41bf99, 3, 16, 42, 0x2c698028, 0x95716435, 0x64359571);
    StepH(0x8d41bf99, 0x66f6468d, 0x02c0b11c, 0xa3e88ead, 6, 23, 43, 0xc7de793c, 0x5a28d053, 0x29ad1468);
    Steps4(S40, BLOCK, 40, 64);
  }

  lemma Steps44To47()
    ensures Leads(S44, 44, S48)
  {
    hide Step, Steps;
    StepH(0xa3e88ead, 0x90a35af5, 0x66f6468d, 0x02c0b11c, 9, 4, 44, 0xf495ad64, 0x72530c4a, 0x2530c4a7);
    StepH(0x02c0b11c, 0xb5d41f9c, 0x90a35af5, 0x66f6468d, 12, 11, 45, 0x438103e4, 0x2d1d4ee5, 0xea772968);
    StepH(0x66f6468d, 0xa04b4904, 0xb5d41f9c, 0x90a35af5, 15, 16, 46, 0x853c0c6d, 0x0bd4cff2, 0xcff20bd4);
    StepH(0x90a35af5, 0x703d54d8, 0xa04b4904, 0xb5d41f9c, 2, 23, 47, 0x65a20240, 0x275d1e03, 0x0193ae8f);
    Steps4(S44, BLOCK, 44, 64);
  }

  lemma Steps48To51()
    ensures Leads(S48, 48, S52)
  {
    hide Step, Steps;
    StepI(0xb5d41f9c, 0x71d10367, 0x703d54d8, 0xa04b4904, 0, 6, 48, 0x0fc8e327, 0x1e298768, 0x8a61da07);
    StepI(0xa04b4904, 0xfc32dd6e, 0x71d10367, 0x703d54d8, 7, 10, 49, 0x8e23fc08, 0x719a44a3, 0x69128dc6);
    StepI(0x703d54d8, 0x65456b34, 0xfc32dd6e, 0x71d10367, 14, 15, 50, 0x135d22d2, 0x2f2e9c21, 0x4e109797);
    StepI(0x71d10367, 0xb35602cb, 0x65456b34, 0xfc32dd6e, 5, 21, 51, 0xd69a49ef, 0xbd766404, 0x8097aecc);
    Steps4(S48, BLOCK, 48, 64);
  }

  lemma Steps52To55()
    ensures Leads(S52, 52, S56)
  {
    hide Step, Steps;
    StepI(0xfc32dd6e, 0x33edb197, 0xb35602cb, 0x65456b34, 12, 6, 52, 0x08a9b714, 0x6a37ee45, 0x8dfb915a);
    StepI(0x65456b34, 0xc1e942f1, 0x33edb197, 0xb35602cb, 3, 10, 53, 0xfe044e62, 0x62c5f495, 0x17d2558b);
    StepI(0xb35602cb, 0xd9bb987c, 0xc1e942f1, 0x33edb197, 10, 15, 54, 0x1c529c8d, 0xcf9893d5, 0x49eae7cc);
    StepI(0x33edb197, 0x23a68048, 0xd9bb987c, 0xc1e942f1, 1, 21, 55, 0xe60d2532, 0x07e69aff, 0x5fe0fcd3);
    Steps4(S52, BLOCK, 52, 64);
  }

  lemma Steps56To59()
    ensures Leads(S56, 56, S60)
  {
    hide Step, Steps;
    StepI(0xc1e942f1, 0x83877d1b, 0x23a68048, 0xd9bb987c, 8, 6, 56, 0x8461ffd3, 0xb5f3c113, 0x7cf044ed);
    StepI(0xd9bb987c, 0x0077c208, 0x83877d1b, 0x23a68048, 15, 10, 57, 0x5ff882a4, 0x37e10200, 0x840800df);
    StepI(0x23a68048, 0x847fc2e7, 0x0077c208, 0x83877d1b, 6, 15, 58, 0xfc0800ef, 0xc3303ec4, 0x1f626198);
    StepI(0x83877d1b, 0xa3e2247f, 0x847fc2e7, 0x0077c208, 13, 21, 59, 0x7b95ff18, 0x4d258dd4, 0xba89a4b1);
    Steps4(S56, BLOCK, 56, 64);
  }

  lemma Steps60To63()
    ensures Leads(S60, 60, S64)
  {
    hide Step, Steps;
    StepI(0x0077c208, 0x5e6bc930, 0xa3e2247f, 0x847fc2e7, 4, 6, 60, 0xdc09d947, 0x48488c42, 0x12231092);
    StepI(0x847fc2e7, 0x708ed9c2, 0x5e6bc930, 0xa3e2247f, 11, 10, 61, 0x22f412f2, 0x64aec80e, 0xbb203992);
    StepI(0xa3e2247f, 0x2baf1354, 0x708ed9c2, 0x5e6bc930, 2, 15, 62, 0xdb31ee1d, 0x16574fc0, 0xa7e00b2b);
    StepI(0x5e6bc930, 0xd38f1e7f, 0x2baf1354, 0x708ed9c2, 9, 21, 63, 0xf4502d2b, 0x3e42c9ec, 0x3d87c859);
    Steps4(S60, BLOCK, 60, 64);
  }

  const LETTERS: seq<Byte> := seq(26, k requires 0 <= k < 26 => 97 + k)

  function PaddedByte(k: nat): Byte {
    if k < 26 then 97 + k else if k == 26 then 0x80 else if k == 56 then 208 else 0
  }

  lemma PaddedAt(k: nat)
    requires k < 64
    ensures var p := LETTERS + Padding(26); |p| == 64 && p[k] == PaddedByte(k)
  {
    WordBytesOf(208, 0, 0, 0);
    WordBytesOf(0, 0, 0, 0);
    assert Padding(26) == [0x80] + Zeros(29) + [208, 0, 0, 0, 0, 0, 0, 0];
  }

  lemma PaddedWords()
    ensures |LETTERS + Padding(26)| == 64 && Words(LETTERS + Padding(26)) == BLOCK
  {
    hide Words, Padding;
    PaddedAt(0);
    var p := LETTERS + Padding(26);
    PaddedWord(0, 97, 98, 99, 100);
    PaddedWord(1, 101, 102, 103, 104);
    PaddedWord(2, 105, 106, 107, 108);
    PaddedWord(3, 109, 110, 111, 112);
    PaddedWord(4, 113, 114, 115, 116);
    PaddedWord(5, 117, 118, 119, 120);
    PaddedWord(6, 121, 122, 128, 0);
    PaddedWord(7, 0, 0, 0, 0);
    PaddedWord(8, 0, 0, 0, 0);
    PaddedWord(9, 0, 0, 0, 0);
    PaddedWord(10, 0, 0, 0, 0);
    PaddedWord(11, 0, 0, 0, 0);
    PaddedWord(12, 0, 0, 0, 0);
    PaddedWord(13, 0, 0, 0, 0);
    PaddedWord(14, 208, 0, 0, 0);
    PaddedWord(15, 0, 0, 0, 0);
    assert forall i :: 0 <= i < 16 ==> Words(p)[i] == BLOCK[i];
  }

  lemma PaddedWord(i: nat, a: Byte, b: Byte, c: Byte, d: Byte)
    requires i < 16 && a == PaddedByte(4 * i) && b == PaddedByte(4 * i + 1)
    requires c == PaddedByte(4 * i + 2) && d == PaddedByte(4 * i + 3)
    ensures |LETTERS + Padding(26)| == 64
    ensures Words(LETTERS + Padding(26))[i] == a + 0x100 * b + 0x1_0000 * c + 0x100_0000 * d
  {
    hide Words, Padding, PaddedByte;
    PaddedAt(4 * i);
    PaddedAt(4 * i + 1);
    PaddedAt(4 * i + 2);
    PaddedAt(4 * i + 3);
    WordAt(LETTERS + Padding(26), i, a, b, c, d);
  }

  lemma WordAt(p: seq<Byte>, i: nat, a: Byte, b: Byte, c: Byte, d: Byte)
    requires |p| == 64 && i < 16 && p[4 * i] == a && p[4 * i + 1] == b && p[4 * i + 2] == c && p[4 * i + 3] == d
    ensures Words(p)[i] == a + 0x100 * b + 0x1_0000 * c + 0x100_0000 * d
  {}

  lemma NoSteps(s: State, x: seq<Word>)
    requires |x| == 16
    ensures Steps(s, x, 64, 64) == s
  {}

  const RESULT := State(0xd7d3fcc3, 0x00e49261, 0x6c49fb7d, 0x3be167ca)

  lemma LastAdded()
    ensures RESULT == State(Plus(INITIAL.a, S64.a), Plus(INITIAL.b, S64.b),
                            Plus(INITIAL.c, S64.c), Plus(INITIAL.d, S64.d))
  {}

  lemma Encoded()
    ensures Encode(RESULT) == [0xc3, 0xfc, 0xd3, 0xd7, 0x61, 0x92, 0xe4, 0x00,
                               0x7d, 0xfb, 0x49, 0x6c, 0xca, 0x67, 0xe1, 0x3b]
  {
    WordBytesOf(0xc3, 0xfc, 0xd3, 0xd7);
    WordBytesOf(0x61, 0x92, 0xe4, 0x00);
    WordBytesOf(0x7d, 0xfb, 0x49, 0x6c);
    WordBytesOf(0xca, 0x67, 0xe1, 0x3b);
    hide WordBytes;
  }

  /** MD5 ("abcdefghijklmnopqrstuvwxyz") = c3fcd3d76192e4007dfb496cca67e13b */
  lemma Letters()
    ensures Digest(LETTERS) == [0xc3, 0xfc, 0xd3, 0xd7, 0x61, 0x92, 0xe4, 0x00,
                                0x7d, 0xfb, 0x49, 0x6c, 0xca, 0x67, 0xe1, 0x3b]
  {
    hide Steps, Padding, Words, Absorb, Encode, Plus;
    PaddedWords();
    AbsorbBlock(INITIAL, LETTERS + Padding(26));
    var x := Words(LETTERS + Padding(26));
    Steps0To3();
    Steps4To7();
    Steps8To11();
    Steps12To15();
    Steps16To19();
    Steps20To23();
    Steps24To27();
    Steps28To31();
    Steps32To35();
    Steps36To39();
    Steps40To43();
    Steps44To47();
    Steps48To51();
    Steps52To55();
    Steps56To59();
    Steps60To63();
    NoSteps(S64, x);
    LastAdded();
    Encoded();
  }
}
