/** wmail/md5/redhat-crypt-md5.c: the "$1$" password hash, a thousand MD5s deep.  Passwords,
    salts and results are the octets of C strings, without the NUL that ends them. */
module Md5Crypt {
  import opened Bytes
  import opened Md5
  import opened CourierMd5

  const DOLLAR: Byte := 36
  const MAGIC: seq<Byte> := [DOLLAR, 49, DOLLAR]
  const ROUNDS := 1000

  // ----- what is computed, over whole messages

  /** How many octets of `s` are salt: at most eight, and none from a dollar sign on. */
  function SaltLength(s: seq<Byte>, l: nat): (n: nat)
    requires l <= 8 && l <= |s|
    ensures l <= n <= 8 && n <= |s|
    ensures forall k :: l <= k < n ==> s[k] != DOLLAR
    ensures n == 8 || n == |s| || s[n] == DOLLAR
    decreases 8 - l
  {
    if l < 8 && l < |s| && s[l] != DOLLAR then SaltLength(s, l + 1) else l
  }

  function Salt(salt: seq<Byte>): (s: seq<Byte>)
    ensures |s| <= 8 && DOLLAR !in s
  {
    var s := if MAGIC <= salt then salt[3..] else salt;
    s[..SaltLength(s, 0)]
  }

  /** The first n octets of the endless repetition of a digest. */
  function Spread(d: seq<Byte>, n: nat): (s: seq<Byte>)
    requires |d| == 16
    ensures |s| == n
  {
    if n <= 16 then d[..n] else d + Spread(d, n - 16)
  }

  /** An octet for every binary digit of n, lowest first: NUL for 1, the first of pw for 0. */
  function Digits(pw: seq<Byte>, n: nat): seq<Byte>
    requires n > 0 ==> |pw| > 0
  {
    if n == 0 then [] else [if n % 2 == 1 then 0 else pw[0]] + Digits(pw, n / 2)
  }

  function FirstDigest(pw: seq<Byte>, s: seq<Byte>): (d: seq<Byte>)
    ensures |d| == 16
  {
    var inner := Digest(pw + s + pw);
    Digest(pw + MAGIC + s + Spread(inner, |pw|) + Digits(pw, |pw|))
  }

  /** The message of round i. */
  function RoundMessage(pw: seq<Byte>, s: seq<Byte>, i: nat, d: seq<Byte>): seq<Byte> {
    (if i % 2 == 1 then pw else d)
    + (if i % 3 != 0 then s else [])
    + (if i % 7 != 0 then pw else [])
    + (if i % 2 == 1 then d else pw)
  }

  /** The digest after n rounds. */
  function After(pw: seq<Byte>, s: seq<Byte>, n: nat): (d: seq<Byte>)
    ensures |d| == 16
  {
    if n == 0 then FirstDigest(pw, s) else Digest(RoundMessage(pw, s, n - 1, After(pw, s, n - 1)))
  }

  /** The characters "./0-9A-Za-z", in this order. */
  function Sixty(v: nat): (c: Byte)
    requires v < 64
    ensures c != DOLLAR && c != 0
  {
    if v < 12 then 46 + v else if v < 38 then 53 + v else 59 + v
  }

  lemma SixtyIs(v: nat)
    requires v < 64
    ensures Sixty(v) ==
      if v == 0 then '.' as int else if v == 1 then '/' as int else if v < 12 then '0' as int + (v - 2)
      else if v < 38 then 'A' as int + (v - 12) else 'a' as int + (v - 38)
  {}

  /** The lowest n sextets of j, lowest first. */
  function Six(j: nat, n: nat): (s: seq<Byte>)
    ensures |s| == n
  {
    if n == 0 then [] else [Sixty(j % 64)] + Six(j / 64, n - 1)
  }

  function Group(x: Byte, y: Byte, z: Byte): (g: seq<Byte>)
    ensures |g| == 4
  {
    Six(0x1_0000 * x + 0x100 * y + z, 4)
  }

  /** The groups printed before octet i of the digest starts one. */
  function Groups(d: seq<Byte>, i: nat): (g: seq<Byte>)
    requires |d| == 16 && i <= 5
    ensures |g| == 4 * i
  {
    if i == 0 then [] else Groups(d, i - 1) + Group(d[i - 1], d[i + 5], d[if i == 5 then 5 else 11 + i])
  }

  function Printed(d: seq<Byte>): (p: seq<Byte>)
    requires |d| == 16
    ensures |p| == 22
  {
    Groups(d, 5) + Six(d[11], 2)
  }

  function Crypt(pw: seq<Byte>, salt: seq<Byte>): seq<Byte> {
    var s := Salt(salt);
    MAGIC + s + [DOLLAR] + Printed(After(pw, s, ROUNDS))
  }

  // ----- the same in other words

  /** A group of three octets, six bits at a time from the lowest. */
  lemma SixIs(j: nat)
    ensures Six(j, 4) == [Sixty(j % 64), Sixty(j / 64 % 64), Sixty(j / 64 / 64 % 64), Sixty(j / 64 / 64 / 64 % 64)]
  {
    hide Sixty, Six;
    SixStep(j, 4);
    SixStep(j / 64, 3);
    SixStep(j / 64 / 64, 2);
    SixStep(j / 64 / 64 / 64, 1);
  }

  lemma SixStep(j: nat, n: nat)
    requires n > 0
    ensures Six(j, n) == [Sixty(j % 64)] + Six(j / 64, n - 1)
  {}

  lemma {:induction false} SpreadAt(d: seq<Byte>, n: nat, k: nat)
    requires |d| == 16 && k < n
    ensures Spread(d, n)[k] == d[k % 16]
  {
    if n > 16 && k >= 16 {
      SpreadAt(d, n - 16, k - 16);
    }
  }

  function Half(n: nat, k: nat): nat {
    if k == 0 then n else Half(n, k - 1) / 2
  }

  /** Octet k stands for binary digit k. */
  lemma {:induction false} DigitsAt(pw: seq<Byte>, n: nat, k: nat)
    requires |pw| > 0
    ensures k < |Digits(pw, n)| <==> Half(n, k) > 0
    ensures k < |Digits(pw, n)| ==> Digits(pw, n)[k] == if Half(n, k) % 2 == 1 then 0 else pw[0]
  {
    if k > 0 {
      HalfOfHalf(n, k);
      if n > 0 {
        DigitsAt(pw, n / 2, k - 1);
      } else {
        HalfOfNothing(k);
      }
    }
  }

  lemma {:induction false} HalfOfHalf(n: nat, k: nat)
    requires k > 0
    ensures Half(n, k) == Half(n / 2, k - 1)
  {
    if k > 1 {
      HalfOfHalf(n, k - 1);
    }
  }

  lemma {:induction false} HalfOfNothing(k: nat)
    ensures Half(0, k) == 0
  {
    if k > 0 {
      HalfOfNothing(k - 1);
    }
  }

  lemma FirstDigestIs(pw: seq<Byte>, s: seq<Byte>)
    ensures FirstDigest(pw, s) ==
      Digest(pw + [36, 49, 36] + s + Spread(Digest(pw + s + pw), |pw|) + Digits(pw, |pw|))
  {
    hide Digest, Spread, Digits;
  }

  /** The result: a dollar sign, the digit 1, a dollar sign, the salt, a dollar sign, and the
      digest after a thousand rounds. */
  lemma CryptIs(pw: seq<Byte>, salt: seq<Byte>)
    ensures Crypt(pw, salt) == [36, 49, 36] + Salt(salt) + [36] + Printed(After(pw, Salt(salt), 1000))
  {
    hide Salt, After, Printed;
  }

  // ----- what a caller relies on

  /** A password check hashes again with the stored result as salt. */
  lemma CryptAgain(pw: seq<Byte>, salt: seq<Byte>)
    ensures Crypt(pw, Crypt(pw, salt)) == Crypt(pw, salt)
  {
    hide After, Printed;
    var s := Salt(salt);
    SaltOfResult(s, Printed(After(pw, s, ROUNDS)));
  }

  lemma SaltOfResult(s: seq<Byte>, rest: seq<Byte>)
    requires |s| <= 8 && DOLLAR !in s
    ensures Salt(MAGIC + s + [DOLLAR] + rest) == s
  {
    var whole := MAGIC + s + [DOLLAR] + rest;
    assert MAGIC <= whole && whole[3..] == s + [DOLLAR] + rest;
    var n := SaltLength(whole[3..], 0);
    assert whole[3..][|s|] == DOLLAR;
    assert forall k :: 0 <= k < |s| ==> whole[3..][k] == s[k] && s[k] != DOLLAR;
    assert n == |s|;
  }

  /** Printing loses nothing, so equal results mean equal salts and equal last digests. */
  lemma CryptSeparates(pw: seq<Byte>, salt: seq<Byte>, pw': seq<Byte>, salt': seq<Byte>)
    requires Crypt(pw, salt) == Crypt(pw', salt')
    ensures Salt(salt) == Salt(salt')
    ensures After(pw, Salt(salt), ROUNDS) == After(pw', Salt(salt'), ROUNDS)
  {
    hide After, Printed, Salt;
    var s, s' := Salt(salt), Salt(salt');
    var d, d' := After(pw, s, ROUNDS), After(pw', s', ROUNDS);
    SaltOfResult(s, Printed(d));
    SaltOfResult(s', Printed(d'));
    var head := MAGIC + s + [DOLLAR];
    assert Crypt(pw, salt)[|head|..] == Printed(d);
    assert Crypt(pw', salt')[|head|..] == Printed(d');
    PrintedInjective(d, d');
  }

  function Pow64(n: nat): nat {
    if n == 0 then 1 else 64 * Pow64(n - 1)
  }

  lemma {:induction false} SixInjective(j: nat, j': nat, n: nat)
    requires j < Pow64(n) && j' < Pow64(n) && Six(j, n) == Six(j', n)
    ensures j == j'
  {
    if n > 0 {
      assert Six(j, n)[0] == Six(j', n)[0];
      assert Six(j, n)[1..] == Six(j / 64, n - 1) && Six(j', n)[1..] == Six(j' / 64, n - 1);
      SixInjective(j / 64, j' / 64, n - 1);
    }
  }

  lemma GroupInjective(x: Byte, y: Byte, z: Byte, x': Byte, y': Byte, z': Byte)
    requires Group(x, y, z) == Group(x', y', z')
    ensures x == x' && y == y' && z == z'
  {
    assert Pow64(4) == 0x100_0000;
    SixInjective(0x1_0000 * x + 0x100 * y + z, 0x1_0000 * x' + 0x100 * y' + z', 4);
  }

  lemma {:induction false} GroupAt(d: seq<Byte>, i: nat, n: nat)
    requires |d| == 16 && i < n <= 5
    ensures Groups(d, n)[4 * i..4 * i + 4] == Group(d[i], d[i + 6], d[if i == 4 then 5 else 12 + i])
  {
    hide Group;
    if i == n - 1 {
      assert Groups(d, n)[4 * i..] == Group(d[i], d[i + 6], d[if i == 4 then 5 else 12 + i]);
    } else {
      GroupAt(d, i, n - 1);
      assert Groups(d, n)[..4 * n - 4] == Groups(d, n - 1);
    }
  }

  lemma SameGroup(d: seq<Byte>, d': seq<Byte>, i: nat)
    requires |d| == |d'| == 16 && i < 5 && Groups(d, 5) == Groups(d', 5)
    ensures d[i] == d'[i] && d[i + 6] == d'[i + 6]
    ensures var m := if i == 4 then 5 else 12 + i; d[m] == d'[m]
  {
    hide Group;
    GroupAt(d, i, 5);
    GroupAt(d', i, 5);
    var m := if i == 4 then 5 else 12 + i;
    GroupInjective(d[i], d[i + 6], d[m], d'[i], d'[i + 6], d'[m]);
  }

  /** The five groups and the last octet cover all sixteen. */
  lemma PrintedInjective(d: seq<Byte>, d': seq<Byte>)
    requires |d| == |d'| == 16 && Printed(d) == Printed(d')
    ensures d == d'
  {
    hide Groups, Six;
    assert Printed(d)[..20] == Groups(d, 5) && Printed(d')[..20] == Groups(d', 5);
    assert Printed(d)[20..] == Six(d[11], 2) && Printed(d')[20..] == Six(d'[11], 2);
    assert Pow64(2) == 4096;
    SixInjective(d[11], d'[11], 2);
    SameGroup(d, d', 0);
    SameGroup(d, d', 1);
    SameGroup(d, d', 2);
    SameGroup(d, d', 3);
    SameGroup(d, d', 4);
  }

  function Pow2(k: nat): (p: nat)
    ensures p > 0
  {
    if k == 0 then 1 else 2 * Pow2(k - 1)
  }

  lemma {:induction false} DigitsBounded(pw: seq<Byte>, n: nat, k: nat)
    requires n > 0 ==> |pw| > 0
    ensures |Digits(pw, n)| <= k <==> n < Pow2(k)
  {
    if n > 0 && k > 0 {
      DigitsBounded(pw, n / 2, k - 1);
    }
  }

  lemma DigitsNearLimit(pw: seq<Byte>)
    ensures |Digits(pw, |pw|)| <= 31 <==> |pw| < 0x8000_0000
    ensures |Digits(pw, |pw|)| <= 30 <==> |pw| < 0x4000_0000
  {
    assert Pow2(8) == 256;
    assert Pow2(16) == 0x1_0000;
    assert Pow2(24) == 0x100_0000;
    assert Pow2(30) == 0x4000_0000;
    assert Pow2(31) == 0x8000_0000;
    DigitsBounded(pw, |pw|, 31);
    DigitsBounded(pw, |pw|, 30);
  }

  /** The 32-bit counter gives the length field of RFC 1321. */
  predicate LengthRight(n: nat) {
    LengthBytes(n % WORD) == LengthField(n)
  }

  /** The password is shorter than about two gigabytes. */
  predicate LengthsFit(pw: seq<Byte>, s: seq<Byte>) {
    2 * |pw| + |s| + 34 < WORD
  }

  /** Every message of a run gets the right length field if and only if the longest one, which
      is the second for passwords of nearly two gigabytes, stays below 2^32. */
  lemma LengthsRight(pw: seq<Byte>, s: seq<Byte>)
    requires |pw| < WORD && |s| <= 8
    ensures LengthsFit(pw, s) <==>
      && LengthRight(2 * |pw| + |s|)
      && LengthRight(2 * |pw| + |s| + 3 + |Digits(pw, |pw|)|)
      && forall i: nat, d: seq<Byte> :: |d| == 16 ==> LengthRight(|RoundMessage(pw, s, i, d)|)
  {
    hide LengthRight, RoundMessage, Digits;
    DigitsNearLimit(pw);
    DigitsUnder32(pw);
    LengthRightBelow(2 * |pw| + |s|);
    LengthRightBelow(2 * |pw| + |s| + 3 + |Digits(pw, |pw|)|);
    forall i: nat, d: seq<Byte> | |d| == 16
      ensures LengthRight(|RoundMessage(pw, s, i, d)|) <==> |RoundMessage(pw, s, i, d)| < WORD
      ensures |RoundMessage(pw, s, i, d)| <= 2 * |pw| + |s| + 16
    {
      RoundMessageIs(pw, s, i, d);
      LengthRightBelow(|RoundMessage(pw, s, i, d)|);
    }
  }

  lemma LengthRightBelow(n: nat)
    requires n < 4 * WORD
    ensures LengthRight(n) <==> n < WORD
  {
    hide LengthBytes, LengthField;
    LengthBytesExact(n);
    LengthBytesCut(n);
  }

  lemma LengthBytesCut(n: nat)
    ensures LengthBytes(n % WORD) == LengthBytes(n)
  {
    hide WordBytes;
  }

  // ----- the code

  /** md5_context_endstream and md5_context_digest.  `j` counts octets without a bound; the
      code's unsigned counter is `j` modulo 2^32. */
  method Finish(c: Context, j: nat) returns (d: seq<Byte>)
    requires c.Valid() && c.origin == INITIAL
    modifies c, c.blk
    ensures c.Valid() && c.blk == old(c.blk) && |d| == 16
    ensures j == |old(c.fed)| && j < WORD ==> d == Digest(old(c.fed))
  {
    hide Compress, Represents, Absorb, LengthField, LengthBytes, Encode;
    c.EndStream(j % WORD);
    LengthBytesExact(j);
    assert j == |old(c.fed)| && j < WORD ==> c.fed == old(c.fed) + Padding(j);
    d := c.GetDigest();
  }

  method SaltScan(s: seq<Byte>) returns (l: nat)
    ensures l == SaltLength(s, 0)
  {
    l := 0;
    while l < 8 && l < |s| && s[l] != DOLLAR
      invariant l <= 8 && l <= |s| && SaltLength(s, l) == SaltLength(s, 0)
    {
      l := l + 1;
    }
  }

  /** The loop that feeds as much of the digest, repeated, as the password is long. */
  method FeedSpread(c: Context, digest: seq<Byte>, pwl: nat)
    requires c.Valid() && |digest| == 16
    modifies c, c.blk
    ensures c.Valid() && c.blk == old(c.blk) && c.origin == old(c.origin)
    ensures c.fed == old(c.fed) + Spread(digest, pwl)
  {
    hide Compress, Represents;
    var i := pwl;
    while i > 0
      invariant 0 <= i <= pwl && c.Valid() && c.blk == old(c.blk) && c.origin == old(c.origin)
      invariant c.fed + Spread(digest, i) == old(c.fed) + Spread(digest, pwl)
    {
      var j := if i > 16 then 16 else i;
      assert Spread(digest, i) == digest[..j] + Spread(digest, i - j);
      c.HashStream(digest[..j]);
      i := i - j;
    }
  }

  /** The loop over the binary digits of the password's length. */
  method FeedDigits(c: Context, pw: seq<Byte>, start: nat) returns (j: nat)
    requires c.Valid() && |pw| < WORD
    modifies c, c.blk
    ensures c.Valid() && c.blk == old(c.blk) && c.origin == old(c.origin)
    ensures c.fed == old(c.fed) + Digits(pw, |pw|)
    ensures j == start + |Digits(pw, |pw|)|
  {
    hide Compress, Represents;
    ghost var all := Digits(pw, |pw|);
    var i := |pw|;
    j := start;
    while i > 0
      invariant 0 <= i <= |pw| && c.Valid() && c.blk == old(c.blk) && c.origin == old(c.origin)
      invariant c.fed + Digits(pw, i) == old(c.fed) + all
      invariant j == start + |all| - |Digits(pw, i)|
    {
      var one := if i % 2 == 1 then [0] else pw[..1];
      assert Digits(pw, i) == one + Digits(pw, i / 2);
      c.HashStream(one);
      j := j + 1;
      i := i / 2;
    }
  }

  /** Everything before the thousand rounds; lengths are C unsigned arithmetic. */
  method FirstPart(c: Context, pw: seq<Byte>, s: seq<Byte>) returns (digest: seq<Byte>)
    requires c.Valid() && |pw| < WORD && |s| <= 8
    modifies c, c.blk
    ensures c.Valid() && c.blk == old(c.blk) && |digest| == 16
    ensures LengthsFit(pw, s) ==> digest == FirstDigest(pw, s)
  {
    hide Compress, Represents, Digest, Digits, Spread, Pow2;
    var pwl, l := |pw|, |s|;
    c.Init();
    c.HashStream(pw);
    c.HashStream(s);
    c.HashStream(pw);
    assert c.fed == pw + s + pw;
    digest := Finish(c, 2 * pwl + l);
    ghost var inner := digest;
    c.Init();
    c.HashStream(pw);
    c.HashStream(MAGIC);
    assert c.fed == pw + MAGIC;
    c.HashStream(s);
    ghost var head := pw + MAGIC + s;
    assert c.fed == head;
    FeedSpread(c, digest, pwl);
    assert c.fed == head + Spread(inner, pwl) && |c.fed| == 2 * pwl + l + 3;
    var j := FeedDigits(c, pw, 2 * pwl + l + 3);
    DigitsNearLimit(pw);
    assert c.fed == head + Spread(inner, pwl) + Digits(pw, pwl);
    digest := Finish(c, j);
  }

  lemma DigitsUnder32(pw: seq<Byte>)
    requires |pw| < WORD
    ensures |Digits(pw, |pw|)| <= 32
  {
    assert Pow2(8) == 256;
    assert Pow2(16) == 0x1_0000;
    assert Pow2(24) == 0x100_0000;
    assert Pow2(32) == WORD;
    DigitsBounded(pw, |pw|, 32);
  }

  /** One turn of the loop over i < 1000. */
  method Round(c: Context, pw: seq<Byte>, s: seq<Byte>, i: nat, d: seq<Byte>) returns (digest: seq<Byte>)
    requires c.Valid() && |pw| < WORD && |s| <= 8 && |d| == 16
    modifies c, c.blk
    ensures c.Valid() && c.blk == old(c.blk) && |digest| == 16
    ensures LengthsFit(pw, s) ==> digest == Digest(RoundMessage(pw, s, i, d))
  {
    hide Compress, Represents, Digest, RoundMessage;
    var first := if i % 2 == 1 then pw else d;
    c.Init();
    c.HashStream(first);
    var j := |first|;
    if i % 3 != 0 {
      c.HashStream(s);
      j := j + |s|;
    }
    ghost var second := if i % 3 != 0 then s else [];
    assert c.fed == first + second && j == |c.fed|;
    if i % 7 != 0 {
      c.HashStream(pw);
      j := j + |pw|;
    }
    ghost var third := if i % 7 != 0 then pw else [];
    assert c.fed == first + second + third && j == |c.fed|;
    var last := if i % 2 == 1 then d else pw;
    c.HashStream(last);
    j := j + |last|;
    RoundMessageIs(pw, s, i, d);
    assert j == |c.fed|;
    digest := Finish(c, j);
  }

  lemma RoundMessageIs(pw: seq<Byte>, s: seq<Byte>, i: nat, d: seq<Byte>)
    ensures RoundMessage(pw, s, i, d) ==
      (if i % 2 == 1 then pw else d) + (if i % 3 != 0 then s else [])
      + (if i % 7 != 0 then pw else []) + (if i % 2 == 1 then d else pw)
  {}

  /** n times the statement `*p++= base64[j & 63]; j=j >> 6`. */
  method PrintSix(j: nat, n: nat) returns (p: seq<Byte>)
    ensures p == Six(j, n)
  {
    p := [];
    var rest := j;
    for k := 0 to n
      invariant p + Six(rest, n - k) == Six(j, n)
    {
      p, rest := p + [Sixty(rest % 64)], rest / 64;
    }
  }

  /** The loop that prints the digest. */
  method Print(d: seq<Byte>) returns (p: seq<Byte>)
    requires |d| == 16
    ensures p == Printed(d)
  {
    hide Six;
    p := [];
    for i := 0 to 5
      invariant p == Groups(d, i)
    {
      var high: nat, middle: nat := d[i], d[i + 6];
      var j := 0x1_0000 * high + 0x100 * middle + d[if i == 4 then 5 else 12 + i];
      var g := PrintSix(j, 4);
      p := p + g;
    }
    var g := PrintSix(d[11], 2);
    p := p + g;
  }

  /** md5_crypt_redhat, for all passwords for which its 32-bit lengths are right. */
  method CryptRedhat(pw: seq<Byte>, salt: seq<Byte>) returns (buffer: seq<Byte>)
    requires |pw| < WORD
    ensures LengthsFit(pw, Salt(salt)) ==> buffer == Crypt(pw, salt)
  {
    hide Compress, Represents, Digest, FirstDigest, RoundMessage, Printed;
    var rest := salt;
    if |salt| >= 3 && salt[0] == DOLLAR && salt[1] == 49 && salt[2] == DOLLAR {
      assert salt[..3] == MAGIC;
      rest := rest[3..];
    }
    var l := SaltScan(rest);
    var s := rest[..l];
    var c := new Context();
    var digest := FirstPart(c, pw, s);
    for i := 0 to ROUNDS
      invariant c.Valid() && fresh(c) && fresh(c.blk) && |digest| == 16
      invariant LengthsFit(pw, s) ==> digest == After(pw, s, i)
    {
      digest := Round(c, pw, s, i, digest);
    }
    var p := Print(digest);
    buffer := MAGIC + s + [DOLLAR] + p;
  }
}
