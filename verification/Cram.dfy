/** Challenge-response login (RFC 2195): the client's answer of
    wmail/authlib/authsaslclientcram.c, and the server's splitting and checking of it in
    wmail/authlib/cramlib.c. */
module Cram {
  import opened CStrings
  import opened Bytes
  import opened Base64
  import opened Hmac

  const NEWLINE: Byte := 10
  const SPACE: Byte := 32
  const CRAM: string := "cram-"

  // ----- hexadecimal

  /** The digit's value, or -1. */
  function Nybble(c: Byte): (n: int)
    ensures -1 <= n < 16
  {
    if 48 <= c <= 57 then c - 48
    else if 97 <= c <= 102 then c - 87
    else if 65 <= c <= 70 then c - 55
    else -1
  }

  function HexDigit(v: nat): (c: Byte)
    requires v < 16
    ensures Nybble(c) == v && c != 0 && c != SPACE
  {
    if v < 10 then 48 + v else 87 + v
  }

  lemma HexDigitIs(v: nat)
    requires v < 16
    ensures HexDigit(v) as char == "0123456789abcdef"[v]
  {}

  function Hex(b: seq<Byte>): (s: seq<Byte>)
    ensures |s| == 2 * |b|
    ensures 0 !in s && SPACE !in s
  {
    if b == [] then []
    else
      var n := |b| - 1;
      Hex(b[..n]) + [HexDigit(b[n] / 16), HexDigit(b[n] % 16)]
  }

  /** The octet two characters spell; a character that is no digit counts as -1. */
  function Spelled(s: seq<Byte>, i: nat): Byte
    requires 2 * i + 1 < |s|
  {
    (16 * Nybble(s[2 * i]) + Nybble(s[2 * i + 1])) % 256
  }

  predicate AllDigits(s: seq<Byte>) {
    forall k :: 0 <= k < |s| ==> Nybble(s[k]) >= 0
  }

  function FromHex(s: seq<Byte>): (b: seq<Byte>)
    requires |s| % 2 == 0
    ensures |b| == |s| / 2
  {
    seq(|s| / 2, i requires 0 <= i < |s| / 2 => Spelled(s, i))
  }

  lemma {:induction false} HexDigits(b: seq<Byte>, i: nat)
    requires i < |b|
    ensures Hex(b)[2 * i] == HexDigit(b[i] / 16) && Hex(b)[2 * i + 1] == HexDigit(b[i] % 16)
    decreases |b|
  {
    var n := |b| - 1;
    if i < n {
      HexDigits(b[..n], i);
    }
  }

  lemma FromHexHex(b: seq<Byte>)
    ensures FromHex(Hex(b)) == b && AllDigits(Hex(b))
  {
    forall i | 0 <= i < |b|
      ensures Spelled(Hex(b), i) == b[i]
    {
      HexDigits(b, i);
    }
    forall k | 0 <= k < |Hex(b)|
      ensures Nybble(Hex(b)[k]) >= 0
    {
      HexDigits(b, k / 2);
      assert k == 2 * (k / 2) || k == 2 * (k / 2) + 1;
    }
  }

  // ----- the server checks a response

  /** What auth_verify_cram compares the response with. */
  function Expected(challenge: seq<Byte>, hashsecret: seq<Byte>): (h: seq<Byte>)
    requires |hashsecret| == 4 * L
    ensures |h| == L
  {
    var context := FromHex(hashsecret);
    Resume(context[..L], Resume(context[L..], challenge))
  }

  /** auth_verify_cram; true stands for its result 0. */
  method VerifyCram(challenge: seq<Byte>, response: seq<Byte>, hashsecret: seq<Byte>) returns (ok: bool)
    requires |challenge| < WORD
    ensures ok <==>
      && |hashsecret| == 64 && |response| == 32 && AllDigits(hashsecret)
      && FromHex(response) == Expected(challenge, hashsecret)
  {
    hide Nybble, Resume;
    if |hashsecret| != L * 4 || |response| != L * 2 {
      return false;
    }
    var context: seq<Byte> := [];
    for i := 0 to L * 2
      invariant |context| == i
      invariant forall k :: 0 <= k < 2 * i ==> Nybble(hashsecret[k]) >= 0
      invariant forall k :: 0 <= k < i ==> context[k] == Spelled(hashsecret, k)
    {
      var a, b := Nybble(hashsecret[i * 2]), Nybble(hashsecret[i * 2 + 1]);
      if a < 0 || b < 0 {
        return false;
      }
      context := context + [Spelled(hashsecret, i)];
    }
    assert context == FromHex(hashsecret);
    var hash := HashText(challenge, context[..L], context[L..]);
    for i := 0 to L
      invariant forall k :: 0 <= k < i ==> hash[k] == Spelled(response, k)
    {
      if Spelled(response, i) != hash[i] {
        assert FromHex(response)[i] != hash[i];
        return false;
      }
    }
    assert FromHex(response) == hash;
    ok := true;
  }

  /** The stored form of a password: the saved key states, outer first, in hexadecimal. */
  function Secret(password: seq<Byte>): (s: seq<Byte>)
    ensures |s| == 4 * L
  {
    Hex(KeyState(password, 0x5C) + KeyState(password, 0x36))
  }

  lemma ExpectedIsHmac(challenge: seq<Byte>, password: seq<Byte>)
    requires |challenge| + B < WORD
    ensures AllDigits(Secret(password))
    ensures Expected(challenge, Secret(password)) == HmacMd5(password, challenge)
  {
    hide KeyState, HmacMd5, Resume, FromHex, Hex, AllDigits;
    var outer, inner := KeyState(password, 0x5C), KeyState(password, 0x36);
    FromHexHex(outer + inner);
    assert (outer + inner)[..L] == outer && (outer + inner)[L..] == inner;
    HmacFromStates(password, challenge);
  }

  /** In numbers: the outer saved state comes first, then the inner one, each in hexadecimal. */
  lemma ExpectedOfStates(challenge: seq<Byte>, outer: seq<Byte>, inner: seq<Byte>)
    requires |outer| == |inner| == 16
    ensures Expected(challenge, Hex(outer + inner)) == Resume(outer, Resume(inner, challenge))
  {
    hide Resume, FromHex, Hex, AllDigits;
    FromHexHex(outer + inner);
    assert (outer + inner)[..16] == outer && (outer + inner)[16..] == inner;
  }

  /** Of the responses spelled with digits, in either case, exactly those that spell the
      HMAC of the challenge pass. */
  lemma WhatPasses(challenge: seq<Byte>, password: seq<Byte>, response: seq<Byte>)
    requires |challenge| + B < WORD && |response| == 2 * L && AllDigits(response)
    ensures FromHex(response) == Expected(challenge, Secret(password)) <==>
      forall i :: 0 <= i < L ==>
        var h := HmacMd5(password, challenge)[i];
        Nybble(response[2 * i]) == h / 16 && Nybble(response[2 * i + 1]) == h % 16
  {
    hide HmacMd5, Nybble, Secret, Expected, AllDigits;
    ExpectedIsHmac(challenge, password);
    var h := HmacMd5(password, challenge);
    forall i | 0 <= i < L
      ensures FromHex(response)[i] == h[i] <==>
        Nybble(response[2 * i]) == h[i] / 16 && Nybble(response[2 * i + 1]) == h[i] % 16
    {
      Digits(response, 2 * i);
      Digits(response, 2 * i + 1);
      OctetPasses(response, i, h[i]);
    }
    assert FromHex(response) == h <==> forall i :: 0 <= i < L ==> FromHex(response)[i] == h[i];
  }

  lemma Digits(s: seq<Byte>, k: nat)
    requires k < |s| && AllDigits(s)
    ensures Nybble(s[k]) >= 0
  {}

  /** A response that is not all digits can pass too, as "zz" does for the octet 0xEF: it passes
      for an octet if the digits that are there fit the -1 that stands for the other. */
  lemma NoDigits()
    ensures !AllDigits([122, 122]) && FromHex([122, 122]) == [0xEF]
  {
    assert Nybble([122, 122][0]) == -1;
  }

  lemma OctetPasses(s: seq<Byte>, i: nat, h: Byte)
    requires 2 * i + 1 < |s|
    ensures var a, b := Nybble(s[2 * i]), Nybble(s[2 * i + 1]);
      Spelled(s, i) == h <==>
        || (a == h / 16 && b == h % 16)
        || (a == -1 && h / 16 == 15 && b == h % 16)
        || (a == (h / 16 + 1) % 16 && b == -1 && h % 16 == 15)
        || (a == -1 && b == -1 && h == 0xEF)
  {
    hide Nybble;
  }

  /** There is such a response if and only if some octet of the HMAC has a digit f. */
  lemma NotOnlyDigitsPass(challenge: seq<Byte>, password: seq<Byte>)
    requires |challenge| + B < WORD
    ensures
      (exists response: seq<Byte> ::
         |response| == 2 * L && !AllDigits(response) && FromHex(response) == Expected(challenge, Secret(password)))
      <==> exists i :: 0 <= i < L && HasF(HmacMd5(password, challenge)[i])
  {
    hide HmacMd5, Secret, Expected, AllDigits, FromHex, HasF;
    ExpectedIsHmac(challenge, password);
    var h := HmacMd5(password, challenge);
    forall response: seq<Byte> | |response| == 2 * L && !AllDigits(response) && FromHex(response) == h
      ensures exists i :: 0 <= i < L && HasF(h[i])
    {
      NotDigitsHaveF(response, h);
    }
    forall i | 0 <= i < L && HasF(h[i])
      ensures !AllDigits(WithoutF(h, i)) && FromHex(WithoutF(h, i)) == h
    {
      WithoutFPasses(h, i);
    }
    assert forall i :: 0 <= i < L ==> |WithoutF(h, i)| == 2 * L;
  }

  /** One of the two digits of the octet is f. */
  predicate HasF(h: Byte) {
    h / 16 == 15 || h % 16 == 15
  }

  lemma NotDigitsHaveF(response: seq<Byte>, h: seq<Byte>)
    requires |response| == 2 * |h| && !AllDigits(response) && FromHex(response) == h
    ensures exists i :: 0 <= i < |h| && HasF(h[i])
  {
    hide Nybble;
    var k :| 0 <= k < |response| && Nybble(response[k]) < 0;
    var i := k / 2;
    assert k == 2 * i || k == 2 * i + 1;
    assert Spelled(response, i) == h[i];
    OctetPasses(response, i, h[i]);
    assert HasF(h[i]);
  }

  /** The digits of `h` with a "z" for one of octet i. */
  function WithoutF(h: seq<Byte>, i: nat): (s: seq<Byte>)
    requires i < |h|
    ensures |s| == 2 * |h|
  {
    if h[i] / 16 == 15 then Hex(h)[2 * i := 122]
    else Hex(h)[2 * i := HexDigit(h[i] / 16 + 1)][2 * i + 1 := 122]
  }

  lemma WithoutFPasses(h: seq<Byte>, i: nat)
    requires i < |h| && HasF(h[i])
    ensures !AllDigits(WithoutF(h, i)) && FromHex(WithoutF(h, i)) == h
  {
    hide WithoutF, Spelled;
    var s := WithoutF(h, i);
    WithoutFAt(h, i);
    forall k | 0 <= k < |h| && k != i
      ensures Spelled(s, k) == h[k]
    {
      WithoutFElsewhere(h, i, k);
    }
    assert FromHex(s) == h;
  }

  lemma WithoutFAt(h: seq<Byte>, i: nat)
    requires i < |h| && HasF(h[i])
    ensures !AllDigits(WithoutF(h, i)) && Spelled(WithoutF(h, i), i) == h[i]
  {
    hide Spelled, Hex;
    var s := WithoutF(h, i);
    HexDigits(h, i);
    OctetPasses(s, i, h[i]);
    assert Nybble(122) == -1;
    assert Nybble(s[2 * i]) == -1 || Nybble(s[2 * i + 1]) == -1;
  }

  lemma WithoutFElsewhere(h: seq<Byte>, i: nat, k: nat)
    requires i < |h| && k < |h| && k != i
    ensures Spelled(WithoutF(h, i), k) == h[k]
  {
    hide Spelled, Hex, Nybble;
    var s := WithoutF(h, i);
    HexDigits(h, k);
    assert s[2 * k] == Hex(h)[2 * k] && s[2 * k + 1] == Hex(h)[2 * k + 1];
    OctetPasses(s, k, h[k]);
  }

  // ----- the client answers

  method FillString(s: seq<Byte>) returns (buf: array<Byte>)
    requires 0 !in s
    ensures fresh(buf) && buf.Length == |s| + 1 && StringAt(buf[..], 0, s)
  {
    buf := new Byte[|s| + 1](k requires 0 <= k <= |s| => if k < |s| then s[k] else 0);
  }

  /** authsaslclient_cram, up to the call that sends the answer; no answer stands for the error
      return.  Strings are given without their NUL. */
  method Answer(userid: seq<Byte>, password: seq<Byte>, challenge: seq<Byte>) returns (r: Option<seq<Byte>>)
    requires 0 !in challenge && |challenge| < 0x8000_0000 && |password| < WORD
    ensures r.None? <==> !Accepts(challenge)
    ensures Accepts(challenge) ==>
      r.value == Encode(userid + [32] + Hex(HmacMd5(password, Decoded(challenge))))
  {
    hide Decoded, Accepts, Encode, HmacMd5, Resume, KeyState, Hex;
    var base64buf := FillString(challenge);
    var i := FromBase64(base64buf, 0, challenge);
    if i < 0 {
      return None;
    }
    ghost var message := Decoded(challenge);
    assert |message| == i && base64buf[..i] == message;
    var kxopad, kxipad := HashKey(password);
    var hash := HashText(base64buf[..i], kxopad, kxipad);
    HmacFromStates(password, message);
    var hex: seq<Byte> := [];
    for k := 0 to L
      invariant hex == Hex(hash[..k])
    {
      HexSnoc(hash, k);
      hex := hex + [HexDigit(hash[k] / 16), HexDigit(hash[k] % 16)];
    }
    assert hash[..L] == hash;
    r := Some(Encode(userid + [SPACE] + hex));
  }

  lemma HexSnoc(b: seq<Byte>, k: nat)
    requires k < |b|
    ensures Hex(b[..k + 1]) == Hex(b[..k]) + [HexDigit(b[k] / 16), HexDigit(b[k] % 16)]
  {
    assert b[..k + 1][..k] == b[..k];
  }

  // ----- the server takes the login data apart

  /** strtok on newlines: where the first token starts, and where a token ends. */
  function TokenStart(s: seq<Byte>, j: nat): (a: nat)
    requires j <= |s|
    ensures j <= a <= |s| && (a == |s| || s[a] != 10) && forall k :: j <= k < a ==> s[k] == 10
    decreases |s| - j
  {
    if j < |s| && s[j] == NEWLINE then TokenStart(s, j + 1) else j
  }

  function TokenEnd(s: seq<Byte>, j: nat): (e: nat)
    requires j <= |s|
    ensures j <= e <= |s| && (forall k :: j <= k < e ==> s[k] != 10) && (e == |s| || s[e] == 10)
    decreases |s| - j
  {
    if j < |s| && s[j] != NEWLINE then TokenEnd(s, j + 1) else j
  }

  /** The first token of `s`, empty if there is none. */
  function Token(s: seq<Byte>): seq<Byte> {
    var a := TokenStart(s, 0);
    s[a..TokenEnd(s, a)]
  }

  /** What the next call of strtok goes on with. */
  function Rest(s: seq<Byte>): seq<Byte> {
    var e := TokenEnd(s, TokenStart(s, 0));
    if e < |s| then s[e + 1..] else []
  }

  /** Cuts the token off with a NUL.  The result is its place, or -1; `next` is the state of strtok. */
  method Strtok(buf: array<Byte>, from: nat, ghost s: seq<Byte>) returns (tok: int, next: nat)
    requires StringAt(buf[..], from, s)
    modifies buf
    ensures tok == -1 <==> Token(s) == []
    ensures tok == -1 ==> buf[..] == old(buf[..])
    ensures tok != -1 ==>
      && from <= tok && tok + |Token(s)| <= from + |s|
      && StringAt(buf[..], tok, Token(s)) && StringAt(buf[..], next, Rest(s))
      && (tok + |Token(s)| < next || (Rest(s) == [] && tok + |Token(s)| == next))
      && buf[..] == old(buf[..])[tok + |Token(s)| := 0]
  {
    hide TokenStart, TokenEnd, StringAt;
    ghost var was := buf[..];
    var a, e := FindToken(buf, from, s);
    if a == e {
      return -1, from + e;
    }
    AfterCut(was, from, s, a, e);
    tok, next := from + a, from + e;
    if buf[from + e] != 0 {
      buf[from + e] := 0;
      next := from + e + 1;
    }
    assert buf[..] == was[from + e := 0];
  }

  method FindToken(buf: array<Byte>, from: nat, ghost s: seq<Byte>) returns (a: nat, e: nat)
    requires StringAt(buf[..], from, s)
    ensures a == TokenStart(s, 0) && e == TokenEnd(s, a)
  {
    a := 0;
    while buf[from + a] == NEWLINE
      invariant a <= |s| && TokenStart(s, a) == TokenStart(s, 0)
      decreases |s| - a
    {
      assert buf[from + a] == s[a];
      a := a + 1;
    }
    assert a < |s| ==> buf[from + a] == s[a];
    assert a == TokenStart(s, 0);
    e := a;
    while buf[from + e] != 0 && buf[from + e] != NEWLINE
      invariant a <= e <= |s| && TokenEnd(s, e) == TokenEnd(s, a)
      decreases |s| - e
    {
      assert buf[from + e] == s[e];
      e := e + 1;
    }
    assert e < |s| ==> buf[from + e] == s[e];
  }

  /** Cutting a string in two at position e leaves a string on either side. */
  lemma AfterCut(buf: seq<Byte>, from: nat, s: seq<Byte>, a: nat, e: nat)
    requires StringAt(buf, from, s) && a <= e <= |s|
    ensures var cut := buf[from + e := 0];
      && |cut| == |buf| && from + e < |buf|
      && StringAt(cut, from + a, s[a..e])
      && (if e < |s| then StringAt(cut, from + e + 1, s[e + 1..]) else StringAt(cut, from + e, []))
    ensures if e < |s| then buf[from + e] == s[e] != 0 else buf[from + e] == 0
  {
    Substring(buf, from, s, a, e);
    if e < |s| {
      Suffix(buf, from, s, e + 1);
    }
  }

  lemma Substring(buf: seq<Byte>, from: nat, s: seq<Byte>, a: nat, e: nat)
    requires StringAt(buf, from, s) && a <= e <= |s|
    ensures StringAt(buf[from + e := 0], from + a, s[a..e])
  {
    forall k | 0 <= k < e - a
      ensures buf[from + e := 0][from + a + k] == s[a..e][k]
    {
      assert buf[from + (a + k)] == s[a + k];
    }
  }

  lemma Suffix(buf: seq<Byte>, from: nat, s: seq<Byte>, e: nat)
    requires StringAt(buf, from, s) && 0 < e <= |s|
    ensures StringAt(buf[from + e - 1 := 0], from + e, s[e..])
  {
    forall k | 0 <= k < |s| - e
      ensures buf[from + e - 1 := 0][from + e + k] == s[e..][k]
    {
      assert buf[from + (e + k)] == s[e + k];
    }
  }

  /** NotPermitted and NoAccess stand for the error returns with EPERM and EACCES; a login names
      the place of its hash in the list and of its strings in the data. */
  datatype Login = NotPermitted | NoAccess | Login(hash: nat, user: nat, challenge: nat, response: nat)

  /** The text with the first space of `d` as its end; all of `d` if there is none. */
  function SpaceAt(d: seq<Byte>, j: nat): (i: nat)
    requires j <= |d|
    ensures j <= i <= |d| && (forall k :: j <= k < i ==> d[k] != SPACE) && (i == |d| || d[i] == SPACE)
    decreases |d| - j
  {
    if j < |d| && d[j] != SPACE then SpaceAt(d, j + 1) else j
  }

  predicate Permitted(authtype: string, data: seq<Byte>) {
    CRAM <= authtype && Token(data) != [] && Token(Rest(data)) != []
  }

  predicate Understood(authtype: string, data: seq<Byte>, hashes: seq<string>)
    requires CRAM <= authtype
  {
    && authtype[5..] in hashes
    && Accepts(Token(data)) && Accepts(Token(Rest(data)))
    && SPACE in Decoded(Token(Rest(data)))
  }

  /** auth_get_cram, which works in the buffer that holds the login data. */
  method GetCram(authtype: string, buf: array<Byte>, hashes: seq<string>, ghost data: seq<Byte>) returns (r: Login)
    requires StringAt(buf[..], 0, data)
    modifies buf
    ensures r.NotPermitted? <==> !Permitted(authtype, data)
    ensures r.NoAccess? <==> Permitted(authtype, data) && !Understood(authtype, data, hashes)
    ensures r.Login? ==>
      r.hash < |hashes| && hashes[r.hash] == authtype[5..] && authtype[5..] !in hashes[..r.hash]
    ensures r.Login? ==>
      var answer := Decoded(Token(Rest(data)));
      var i := SpaceAt(answer, 0);
      && i < |answer|
      && TextAt(buf[..], r.challenge, Decoded(Token(data)))
      && TextAt(buf[..], r.user, answer[..i])
      && TextAt(buf[..], r.response, answer[i + 1..])
  {
    hide Decoded, Accepts, TokenStart, TokenEnd, Token, Rest;
    if !(CRAM <= authtype) {
      return NotPermitted;
    }
    var c, next := Strtok(buf, 0, data);
    if c < 0 {
      return NotPermitted;
    }
    ghost var was := buf[..];
    var p, end := Strtok(buf, next, Rest(data));
    if p < 0 {
      return NotPermitted;
    }
    ghost var first, second := Token(data), Token(Rest(data));
    Elsewhere(was, buf[..], c, first, p + |second|, p + |second| + 1);
    var h := FindHash(hashes, authtype[5..]);
    if h == |hashes| {
      return NoAccess;
    }
    r := Split(buf, c, p, first, second);
    if r.Login? {
      r := r.(hash := h);
    }
  }

  method FindHash(hashes: seq<string>, name: string) returns (h: nat)
    ensures h <= |hashes| && name !in hashes[..h] && (h == |hashes| || hashes[h] == name)
  {
    h := 0;
    while h < |hashes| && hashes[h] != name
      invariant h <= |hashes| && name !in hashes[..h]
    {
      h := h + 1;
    }
  }

  /** What lies outside the octets that changed is still there. */
  lemma Elsewhere(was: seq<Byte>, now: seq<Byte>, at: nat, s: seq<Byte>, lo: nat, hi: nat)
    requires TextAt(was, at, s) && |now| == |was|
    requires forall m :: 0 <= m < |was| && !(lo <= m < hi) ==> now[m] == was[m]
    requires at + |s| < lo || hi <= at
    ensures TextAt(now, at, s)
  {}

  /** The part of auth_get_cram that decodes both strings and looks for the space. */
  method Split(buf: array<Byte>, c: nat, p: nat, ghost first: seq<Byte>, ghost second: seq<Byte>) returns (r: Login)
    requires StringAt(buf[..], c, first) && StringAt(buf[..], p, second) && c + |first| < p
    modifies buf
    ensures !r.NotPermitted?
    ensures r.NoAccess? <==> !Accepts(first) || !Accepts(second) || SPACE !in Decoded(second)
    ensures r.Login? ==>
      var answer := Decoded(second);
      var i := SpaceAt(answer, 0);
      && i < |answer|
      && TextAt(buf[..], r.challenge, Decoded(first))
      && TextAt(buf[..], r.user, answer[..i])
      && TextAt(buf[..], r.response, answer[i + 1..])
  {
    hide Decoded, Accepts;
    var challengeL, responseL := DecodeBoth(buf, c, p, first, second);
    if challengeL < 0 || responseL < 0 {
      return NoAccess;
    }
    ghost var two, answer := buf[..], Decoded(second);
    var i := FindSpace(buf, p, responseL, answer);
    if i >= responseL {
      assert answer[0..i] == answer;
      return NoAccess;
    }
    assert answer[i] == SPACE;
    buf[p + i] := 0;
    buf[c + challengeL] := 0;
    buf[p + responseL] := 0;
    Ended(two, buf[..], c, Decoded(first), p, answer, i);
    r := Login(0, p, c, p + i + 1);
  }

  /** Both strings, each decoded where it stands. */
  method DecodeBoth(buf: array<Byte>, c: nat, p: nat, ghost first: seq<Byte>, ghost second: seq<Byte>)
    returns (challengeL: int, responseL: int)
    requires StringAt(buf[..], c, first) && StringAt(buf[..], p, second) && c + |first| < p
    modifies buf
    ensures challengeL < 0 <==> !Accepts(first)
    ensures challengeL >= 0 ==> (responseL < 0 <==> !Accepts(second))
    ensures challengeL >= 0 && responseL >= 0 ==>
      && challengeL == |Decoded(first)| && c + challengeL < p && p + responseL < buf.Length
      && responseL == |Decoded(second)|
      && OctetsAt(buf[..], c, Decoded(first)) && OctetsAt(buf[..], p, Decoded(second))
  {
    hide Decoded, Accepts;
    ghost var was := buf[..];
    responseL := -1;
    challengeL := DecodeAt(buf, c, first);
    if challengeL < 0 {
      return;
    }
    Elsewhere(was, buf[..], p, second, c, c + challengeL);
    responseL := DecodeAt(buf, p, second);
  }

  /** One string, decoded where it stands. */
  method DecodeAt(buf: array<Byte>, at: nat, ghost s: seq<Byte>) returns (k: int)
    requires StringAt(buf[..], at, s)
    modifies buf
    ensures k < 0 <==> !Accepts(s)
    ensures k >= 0 ==> k == |Decoded(s)| <= |s| && OctetsAt(buf[..], at, Decoded(s))
    ensures forall m :: 0 <= m < buf.Length && !(k >= 0 && at <= m < at + k) ==> buf[m] == old(buf[m])
  {
    hide Decoded, Accepts;
    ghost var was := buf[..];
    k := FromBase64(buf, at, s);
    if k >= 0 {
      Placed(was, at, Decoded(s), buf[..]);
    } else {
      assert forall m :: 0 <= m < buf.Length ==> buf[..][m] == was[m];
    }
  }

  method FindSpace(buf: array<Byte>, p: nat, responseL: nat, ghost answer: seq<Byte>) returns (i: nat)
    requires OctetsAt(buf[..], p, answer) && responseL == |answer|
    ensures i == SpaceAt(answer, 0)
  {
    i := 0;
    while i < responseL
      invariant i <= responseL && SpaceAt(answer, i) == SpaceAt(answer, 0)
    {
      assert buf[p + i] == answer[i];
      if buf[p + i] == SPACE {
        break;
      }
      i := i + 1;
    }
  }

  ghost predicate OctetsAt(buf: seq<Byte>, at: nat, d: seq<Byte>) {
    at + |d| <= |buf| && forall m {:trigger d[m]} :: 0 <= m < |d| ==> buf[at + m] == d[m]
  }

  lemma Placed(was: seq<Byte>, at: nat, d: seq<Byte>, now: seq<Byte>)
    requires at + |d| <= |was| && now == was[..at] + d + was[at + |d|..]
    ensures |now| == |was| && OctetsAt(now, at, d)
    ensures forall m :: 0 <= m < |was| && !(at <= m < at + |d|) ==> now[m] == was[m]
  {}

  /** The three NULs that auth_get_cram writes end the three strings. */
  lemma Ended(two: seq<Byte>, now: seq<Byte>, c: nat, challenge: seq<Byte>, p: nat, answer: seq<Byte>, i: nat)
    requires c + |challenge| < p && p + |answer| < |two| && i < |answer|
    requires OctetsAt(two, c, challenge) && OctetsAt(two, p, answer)
    requires now == two[p + i := 0][c + |challenge| := 0][p + |answer| := 0]
    ensures TextAt(now, c, challenge) && TextAt(now, p, answer[..i])
    ensures TextAt(now, p + i + 1, answer[i + 1..])
  {
    var tail := answer[i + 1..];
    forall m | 0 <= m < |tail|
      ensures now[p + i + 1 + m] == tail[m]
    {
      assert two[p + (i + 1 + m)] == answer[i + 1 + m];
    }
    forall m | 0 <= m < i
      ensures now[p + m] == answer[..i][m]
    {
      assert two[p + m] == answer[m];
    }
  }

  // ----- client and server together

  method ReadString(buf: array<Byte>, at: nat, ghost s: seq<Byte>) returns (r: seq<Byte>)
    requires StringAt(buf[..], at, s)
    ensures r == s
  {
    r := [];
    while buf[at + |r|] != 0
      invariant |r| <= |s| && r == s[..|r|]
      invariant |r| < |s| ==> buf[at + |r|] == s[|r|] != 0
      decreases |s| - |r|
    {
      r := r + [buf[at + |r|]];
      assert |r| < |s| ==> buf[at + |r|] == s[|r|];
    }
  }

  /** The login data of authsasl_cram: challenge and response, a line each. */
  function LoginData(challenge: seq<Byte>, response: seq<Byte>): seq<Byte> {
    challenge + [NEWLINE] + response + [NEWLINE]
  }

  lemma {:induction false} EncodePlain(b: seq<Byte>)
    ensures 0 !in Encode(b) && NEWLINE !in Encode(b)
  {
    if |b| > 3 {
      hide Letter;
      EncodePlain(b[3..]);
      LettersPlain();
      var s, t := Encode(b), Encode(b[3..]);
      assert s[4..] == t;
      forall k | 0 <= k < |s|
        ensures s[k] != 0 && s[k] != NEWLINE
      {
        assert k >= 4 ==> s[k] == t[k - 4];
      }
    } else {
      LettersPlain();
    }
  }

  lemma LettersPlain()
    ensures forall v: nat :: v < 64 ==> Letter(v) != 0 && Letter(v) != NEWLINE
  {}

  lemma {:induction false} TokenEndIs(s: seq<Byte>, j: nat, e: nat)
    requires j <= e < |s| && s[e] == NEWLINE && NEWLINE !in s[j..e]
    ensures TokenEnd(s, j) == e
    decreases e - j
  {
    if j < e {
      assert s[j] == s[j..e][0];
      assert s[j + 1..e] == s[j..e][1..];
      TokenEndIs(s, j + 1, e);
    }
  }

  lemma FirstLine(line: seq<Byte>, rest: seq<Byte>)
    requires line != [] && NEWLINE !in line
    ensures Token(line + [NEWLINE] + rest) == line && Rest(line + [NEWLINE] + rest) == rest
  {
    var s := line + [NEWLINE] + rest;
    assert s[0] == line[0];
    assert s[0..|line|] == line && s[|line| + 1..] == rest;
    TokenEndIs(s, 0, |line|);
  }

  lemma LoginLines(challenge: seq<Byte>, response: seq<Byte>)
    requires challenge != [] && response != [] && NEWLINE !in challenge && NEWLINE !in response
    ensures Token(LoginData(challenge, response)) == challenge
    ensures Token(Rest(LoginData(challenge, response))) == response
  {
    FirstLine(challenge, response + [NEWLINE]);
    assert challenge + [NEWLINE] + (response + [NEWLINE]) == LoginData(challenge, response);
    FirstLine(response, []);
    assert response + [NEWLINE] + [] == response + [NEWLINE];
  }

  /** Without a challenge the response is taken for it, and nothing is left. */
  lemma NoChallenge(response: seq<Byte>)
    requires response != [] && NEWLINE !in response
    ensures Token(Rest(LoginData([], response))) == []
  {
    hide Token;
    var s := LoginData([], response);
    assert s[0] == NEWLINE && s[1] == response[0];
    assert TokenStart(s, 0) == TokenStart(s, 1) == 1;
    assert s[1..1 + |response|] == response;
    TokenEndIs(s, 1, 1 + |response|);
    assert Rest(s) == [];
    assert Token([]) == [] by {
      EmptyToken();
    }
  }

  lemma EmptyToken()
    ensures Token([]) == []
  {}

  lemma {:induction false} SpaceAtIs(d: seq<Byte>, j: nat, e: nat)
    requires j <= e < |d| && d[e] == SPACE && SPACE !in d[j..e]
    ensures SpaceAt(d, j) == e
    decreases e - j
  {
    if j < e {
      assert d[j] == d[j..e][0];
      assert d[j + 1..e] == d[j..e][1..];
      SpaceAtIs(d, j + 1, e);
    }
  }

  /** Splitting the decoded answer at its first space. */
  lemma SplitAnswer(user: seq<Byte>, hex: seq<Byte>)
    requires SPACE !in hex
    ensures var answer := user + [SPACE] + hex;
      var i := SpaceAt(answer, 0);
      && i < |answer|
      && (SPACE !in user ==> answer[..i] == user && answer[i + 1..] == hex)
      && (SPACE in user ==> |answer[i + 1..]| > |hex|)
  {
    var answer := user + [SPACE] + hex;
    assert answer[|user|] == SPACE;
    if SPACE in user {
      var k :| 0 <= k < |user| && user[k] == SPACE;
      var i := SpaceAt(answer, 0);
      assert forall m :: 0 <= m < i ==> answer[0..i][m] == answer[m];
      assert answer[k] == SPACE;
      assert i <= k;
    } else {
      assert answer[0..|user|] == user;
      SpaceAtIs(answer, 0, |user|);
    }
  }

  /** One whole login: the server sends the challenge in base64, the client answers, and the
      server splits the login data and checks the response against the stored secret.  It ends
      well exactly for users whose name has no space, if the challenge is not empty. */
  method Session(challenge: seq<Byte>, user: seq<Byte>, password: seq<Byte>) returns (ok: bool, who: seq<Byte>)
    requires 0 !in challenge && |challenge| < 0x2000_0000
    requires 0 !in user && |password| < WORD
    ensures ok <==> 32 !in user && challenge != []
    ensures ok ==> who == user
  {
    hide Encode, Decoded, Accepts, HmacMd5, KeyState, Hex, SpaceAt, Expected, FromHex, Secret, AllDigits,
      Token, Rest, LoginData, IsTable, Resume;
    var sent := Encode(challenge);
    DecodeEncode(challenge);
    EncodePlain(challenge);
    var a := Answer(user, password, sent);
    ghost var h := HmacMd5(password, challenge);
    ghost var answer := user + [SPACE] + Hex(h);
    DecodeEncode(answer);
    EncodePlain(answer);
    if challenge == [] {
      NoChallenge(a.value);
    } else {
      LoginLines(sent, a.value);
    }
    var data := LoginData(sent, a.value);
    assert 0 !in data by {
      DataPlain(sent, a.value);
    }
    var buf := FillString(data);
    var r := GetCram("cram-md5", buf, ["md5"], data);
    if r.NotPermitted? {
      assert challenge == [] by {
        assert CRAM <= "cram-md5";
      }
      return false, [];
    }
    SpaceIn(user, Hex(h));
    SplitAnswer(user, Hex(h));
    assert r.Login? by {
      assert CRAM <= "cram-md5" && "cram-md5"[5..] == "md5";
    }
    ghost var i := SpaceAt(answer, 0);
    assert 0 !in answer[..i] && 0 !in answer[i + 1..];
    who := ReadString(buf, r.user, answer[..i]);
    var c := ReadString(buf, r.challenge, challenge);
    var response := ReadString(buf, r.response, answer[i + 1..]);
    ok := VerifyCram(c, response, Secret(password));
    ExpectedIsHmac(challenge, password);
    FromHexHex(h);
  }

  lemma SpaceIn(user: seq<Byte>, hex: seq<Byte>)
    ensures SPACE in user + [SPACE] + hex
  {
    assert (user + [SPACE] + hex)[|user|] == SPACE;
  }

  lemma DataPlain(challenge: seq<Byte>, response: seq<Byte>)
    requires 0 !in challenge && 0 !in response
    ensures 0 !in LoginData(challenge, response)
  {}
}
