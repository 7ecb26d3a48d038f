/** Base64 as section 6.8 of RFC 2045 encodes it, and the in-place decoder of
    wmail/authlib/authsaslfrombase64.c. */
module Base64 {
  import opened CStrings
  import opened Bytes

  const PAD: Byte := 61

  function Letter(v: nat): (c: Byte)
    requires v < 64
    ensures c != 0 && c != PAD
  {
    if v < 26 then 65 + v
    else if v < 52 then 71 + v
    else if v < 62 then v - 4
    else if v == 62 then 43
    else 47
  }

  lemma LetterIs(v: nat)
    requires v < 64
    ensures Letter(v) ==
      if v < 26 then 'A' as int + v else if v < 52 then 'a' as int + (v - 26)
      else if v < 62 then '0' as int + (v - 52) else if v == 62 then '+' as int else '/' as int
  {}

  /** decode64tab: the place of a character in the alphabet, or 100. */
  function Value(c: Byte): nat {
    if 65 <= c <= 90 then c - 65
    else if 97 <= c <= 122 then c - 71
    else if 48 <= c <= 57 then c + 4
    else if c == 43 then 62
    else if c == 47 then 63
    else 100
  }

  lemma ValueOfLetter(v: nat)
    requires v < 64
    ensures Value(Letter(v)) == v
  {}

  lemma Thirds(n: nat)
    requires n >= 3
    ensures (n + 2) / 3 == (n - 3 + 2) / 3 + 1
  {}

  function TwoLetters(a: Byte): (s: seq<Byte>)
    ensures |s| == 2
  {
    [Letter(a / 4), Letter(a % 4 * 16)]
  }

  function ThreeLetters(a: Byte, b: Byte): (s: seq<Byte>)
    ensures |s| == 3
  {
    [Letter(a / 4), Letter(a % 4 * 16 + b / 16), Letter(b % 16 * 4)]
  }

  function FourLetters(a: Byte, b: Byte, c: Byte): (s: seq<Byte>)
    ensures |s| == 4
  {
    [Letter(a / 4), Letter(a % 4 * 16 + b / 16), Letter(b % 16 * 4 + c / 64), Letter(c % 64)]
  }

  /** The four letters are the digits to base 64 of the number that the three octets are. */
  lemma FourLettersAre(a: Byte, b: Byte, c: Byte)
    ensures var s := FourLetters(a, b, c);
      0x4_0000 * Value(s[0]) + 0x1000 * Value(s[1]) + 64 * Value(s[2]) + Value(s[3]) == 0x1_0000 * a + 0x100 * b + c
  {
    hide Letter, Value;
    ValueOfLetter(a / 4);
    ValueOfLetter(a % 4 * 16 + b / 16);
    ValueOfLetter(b % 16 * 4 + c / 64);
    ValueOfLetter(c % 64);
  }

  /** The last one or two octets are filled up with zeros, and the letters that stand for nothing
      but those become pads. */
  lemma LastLetters(a: Byte, b: Byte)
    ensures Encode([a]) == FourLetters(a, 0, 0)[..2] + [61, 61]
    ensures Encode([a, b]) == FourLetters(a, b, 0)[..3] + [61]
  {
    hide Letter;
  }

  /** Three octets become four letters; the last group is filled up with pads. */
  function Encode(b: seq<Byte>): (s: seq<Byte>)
    ensures |s| % 4 == 0 && |s| == (|b| + 2) / 3 * 4
  {
    if |b| == 0 then []
    else if |b| == 1 then TwoLetters(b[0]) + [PAD, PAD]
    else if |b| == 2 then ThreeLetters(b[0], b[1]) + [PAD]
    else
      Thirds(|b|);
      FourLetters(b[0], b[1], b[2]) + Encode(b[3..])
  }

  // ----- which texts the decoder takes, and what it makes of them

  /** Where the letters that start at position j end. */
  function LettersEnd(s: seq<Byte>, j: nat): (e: nat)
    requires j <= |s|
    ensures j <= e <= |s|
    ensures forall k :: j <= k < e ==> Value(s[k]) < 100
    ensures e == |s| || Value(s[e]) >= 100
    decreases |s| - j
  {
    if j < |s| && Value(s[j]) < 100 then LettersEnd(s, j + 1) else j
  }

  function PadsEnd(s: seq<Byte>, j: nat): (e: nat)
    requires j <= |s|
    ensures j <= e <= |s|
    ensures forall k :: j <= k < e ==> s[k] == PAD
    ensures e == |s| || s[e] != PAD
    decreases |s| - j
  {
    if j < |s| && s[j] == PAD then PadsEnd(s, j + 1) else j
  }

  /** How much of the text is decoded: its letters and the pads behind them. */
  function BodyLength(s: seq<Byte>): (n: nat)
    ensures n <= |s|
  {
    PadsEnd(s, LettersEnd(s, 0))
  }

  /** At most two characters may follow the letters, and the body must be whole groups. */
  predicate Accepts(s: seq<Byte>) {
    |s| - LettersEnd(s, 0) <= 2 && BodyLength(s) % 4 == 0
  }

  function DecodeGroup(w: Byte, x: Byte, y: Byte, z: Byte): (b: seq<Byte>)
    requires Value(w) < 100 && Value(x) < 100
    ensures |b| == 1 + (if y != PAD then 1 else 0) + (if z != PAD then 1 else 0)
  {
    [4 * Value(w) + Value(x) / 16]
    + (if y != PAD then [(16 * Value(x) + Value(y) / 4) % 256] else [])
    + (if z != PAD then [(64 * Value(y) + Value(z)) % 256] else [])
  }

  predicate Letters(s: seq<Byte>) {
    forall k :: 0 <= k < |s| ==> Value(s[k]) < 100
  }

  /** Whole groups, with letters everywhere but in the last two places. */
  predicate Groups(s: seq<Byte>) {
    |s| % 4 == 0 && forall k :: 0 <= k < |s| - 2 ==> Value(s[k]) < 100
  }

  /** The octets of a text of whole groups, the last group on the right. */
  function Decode(s: seq<Byte>): (b: seq<Byte>)
    requires Groups(s)
    ensures 4 * |b| <= 3 * |s|
  {
    if s == [] then []
    else
      var n := |s| - 4;
      Decode(s[..n]) + DecodeGroup(s[n], s[n + 1], s[n + 2], s[n + 3])
  }

  lemma BodyIsGroups(s: seq<Byte>)
    requires Accepts(s)
    ensures Groups(s[..BodyLength(s)])
  {
    var e := LettersEnd(s, 0);
    assert BodyLength(s) - e <= 2;
  }

  /** The octets that an accepted text stands for. */
  function Decoded(s: seq<Byte>): seq<Byte> {
    if Accepts(s) then
      BodyIsGroups(s);
      Decode(s[..BodyLength(s)])
    else []
  }

  // ----- decoding undoes encoding

  /** A group of one, two or three octets. */
  lemma GroupRoundTrip(a: Byte, b: Byte, c: Byte, y: Byte, z: Byte)
    requires y == PAD || y == Letter(b % 16 * 4 + c / 64)
    requires z == PAD || z == Letter(c % 64)
    requires y == PAD ==> z == PAD
    ensures var w, x := Letter(a / 4), Letter(a % 4 * 16 + b / 16);
      && Value(w) < 100 && Value(x) < 100
      && (y != PAD ==> Value(y) < 100) && (z != PAD ==> Value(z) < 100)
      && DecodeGroup(w, x, y, z) == [a] + (if y != PAD then [b] else []) + (if z != PAD then [c] else [])
  {
    hide Letter, Value;
    ValueOfLetter(a / 4);
    ValueOfLetter(a % 4 * 16 + b / 16);
    ValueOfLetter(b % 16 * 4 + c / 64);
    ValueOfLetter(c % 64);
    Sextets(a, b, c);
  }

  lemma Sextets(a: nat, b: nat, c: nat)
    requires a < 256 && b < 256 && c < 256
    ensures var w, x, y, z := a / 4, a % 4 * 16 + b / 16, b % 16 * 4 + c / 64, c % 64;
      4 * w + x / 16 == a && (16 * x + y / 4) % 256 == b && (64 * y + z) % 256 == c
  {
    var x, y := a % 4 * 16 + b / 16, b % 16 * 4 + c / 64;
    assert x / 16 == a % 4 && y / 4 == b % 16;
    Mod256(16 * x + y / 4, a % 4, b);
    Mod256(64 * y + c % 64, b % 16, c);
  }

  lemma Mod256(n: nat, q: nat, r: nat)
    requires n == 256 * q + r && r < 256
    ensures n % 256 == r
  {}

  lemma DecodeEncodeGroup(b: seq<Byte>)
    requires 1 <= |b| <= 3
    ensures |Encode(b)| == 4 && Groups(Encode(b)) && Decode(Encode(b)) == b
    ensures |b| == 3 ==> Letters(Encode(b))
  {
    hide Letter, Value, DecodeGroup;
    var s := Encode(b);
    assert |b| == 3 ==> b[3..] == [];
    var b1, b2 := if |b| > 1 then b[1] else 0, if |b| > 2 then b[2] else 0;
    GroupRoundTrip(b[0], b1, b2, s[2], s[3]);
    assert s[..0] == [] && Decode(s[..0]) == [];
  }

  lemma GroupsConcat(s: seq<Byte>, t: seq<Byte>)
    requires Letters(s) && Groups(s) && Groups(t)
    ensures Groups(s + t)
  {
    hide Value;
    assert |s + t| == |s| + |t|;
  }

  lemma DecodeLast(s: seq<Byte>, n: nat)
    requires Groups(s) && |s| == n + 4
    ensures Groups(s[..n])
    ensures Value(s[n]) < 100 && Value(s[n + 1]) < 100
    ensures Decode(s) == Decode(s[..n]) + DecodeGroup(s[n], s[n + 1], s[n + 2], s[n + 3])
  {
    hide Value, DecodeGroup;
  }

  lemma WholeGroups(s: seq<Byte>)
    requires Groups(s)
    ensures s == [] || |s| >= 4
  {}

  lemma {:induction false} DecodeConcat(s: seq<Byte>, t: seq<Byte>)
    requires Letters(s) && Groups(s) && Groups(t)
    ensures Groups(s + t) && Decode(s + t) == Decode(s) + Decode(t)
    decreases |t|
  {
    hide Value, DecodeGroup, Letters, Decode, Groups;
    GroupsConcat(s, t);
    WholeGroups(t);
    if t == [] {
      NothingEncoded();
      assert s + t == s;
    } else {
      var n, st := |t| - 4, s + t;
      DecodeLast(t, n);
      DecodeLast(st, |s| + n);
      DecodeConcat(s, t[..n]);
      assert st[..|s| + n] == s + t[..n];
      var g := DecodeGroup(t[n], t[n + 1], t[n + 2], t[n + 3]);
      assert Decode(st) == Decode(st[..|s| + n]) + g;
      Regroup(Decode(s), Decode(t[..n]), g);
    }
  }

  lemma {:induction false} DecodeAll(b: seq<Byte>)
    ensures Groups(Encode(b)) && Decode(Encode(b)) == b
  {
    hide Value, Letter, Groups, Letters, Decode;
    if |b| > 3 {
      DecodeEncodeGroup(b[..3]);
      DecodeAll(b[3..]);
      assert Encode(b) == Encode(b[..3]) + Encode(b[3..]) by {
        assert b[..3][3..] == [];
      }
      DecodeConcat(Encode(b[..3]), Encode(b[3..]));
      assert b == b[..3] + b[3..];
    } else if |b| > 0 {
      DecodeEncodeGroup(b);
    } else {
      NothingEncoded();
    }
  }

  lemma NothingEncoded()
    ensures Groups([]) && Decode([]) == []
  {}

  /** The decoder takes all that the encoder writes, and gives back what was encoded. */
  lemma DecodeEncode(b: seq<Byte>)
    ensures Accepts(Encode(b)) && Decoded(Encode(b)) == b
  {
    hide Decode, Groups, Encode;
    EncodeShape(b);
    DecodeAll(b);
    var s := Encode(b);
    assert Pads(b) > 0 ==> Value(s[|s| - Pads(b)]) >= 100;
    assert LettersEnd(s, 0) == |s| - Pads(b);
    assert s[..BodyLength(s)] == s;
  }

  function Pads(b: seq<Byte>): (n: nat)
    ensures n <= 2
  {
    (3 - |b| % 3) % 3
  }

  lemma PadsOfLength(b: seq<Byte>)
    ensures Pads(b) == (3 - |b| % 3) % 3
  {}

  /** Letters, and behind them the pads. */
  lemma {:induction false} EncodeShape(b: seq<Byte>)
    ensures var s := Encode(b);
      && |s| >= Pads(b)
      && (forall k :: 0 <= k < |s| - Pads(b) ==> Value(s[k]) < 100)
      && (forall k :: |s| - Pads(b) <= k < |s| ==> s[k] == PAD)
  {
    hide Value, Letter;
    LettersHaveValues();
    if |b| >= 3 {
      hide Pads;
      assert Pads(b[3..]) == Pads(b) by {
        assert (|b| - 3) % 3 == |b| % 3;
        PadsOfLength(b);
        PadsOfLength(b[3..]);
      }
      EncodeShape(b[3..]);
      EncodeAfter(b);
    }
  }

  lemma LettersHaveValues()
    ensures forall v: nat :: v < 64 ==> Value(Letter(v)) < 100
  {
    hide Value, Letter;
    forall v: nat | v < 64
      ensures Value(Letter(v)) < 100
    {
      ValueOfLetter(v);
    }
  }

  /** Four letters, and then the rest. */
  lemma EncodeAfter(b: seq<Byte>)
    requires |b| >= 3
    ensures |Encode(b)| == |Encode(b[3..])| + 4
    ensures forall k :: 0 <= k < 4 ==> Value(Encode(b)[k]) < 100
    ensures forall k :: 4 <= k < |Encode(b)| ==> Encode(b)[k] == Encode(b[3..])[k - 4]
  {
    hide Value, Letter;
    LettersHaveValues();
  }

  // ----- the code

  ghost predicate IsTable(tab: seq<nat>) {
    |tab| == 256 && forall c: Byte :: tab[c] == Value(c)
  }

  /** The first call's loops over decode64tab. */
  method BuildTable() returns (tab: seq<nat>)
    ensures IsTable(tab)
  {
    var decode64tab := new nat[256](_ => 100);
    for i := 0 to 64
      invariant forall c: Byte :: decode64tab[c] == if Value(c) < i then Value(c) else 100
    {
      ValueOfLetter(i);
      decode64tab[Letter(i)] := i;
    }
    tab := decode64tab[..];
  }

  /** The octets `s` stand at `at` in a buffer, with a NUL behind them. */
  ghost predicate TextAt(buf: seq<Byte>, at: nat, s: seq<Byte>) {
    && at + |s| < |buf|
    && (forall k {:trigger s[k]} :: 0 <= k < |s| ==> buf[at + k] == s[k])
    && buf[at + |s|] == 0
  }

  /** A C string in a buffer: the octets from `at` up to the NUL. */
  ghost predicate StringAt(buf: seq<Byte>, at: nat, s: seq<Byte>) {
    TextAt(buf, at, s) && 0 !in s
  }

  /** authsasl_frombase64 on the string at `at`: its octets are put where its letters were.
      The result is their number, or -1. */
  method FromBase64(buf: array<Byte>, at: nat, ghost s: seq<Byte>) returns (k: int)
    requires StringAt(buf[..], at, s)
    modifies buf
    ensures k >= -1
    ensures k == -1 <==> !Accepts(s)
    ensures k == -1 ==> buf[..] == old(buf[..])
    ensures k >= 0 ==> k == |Decoded(s)| && 4 * k <= 3 * |s|
    ensures k >= 0 ==> buf[..] == old(buf[..])[..at] + Decoded(s) + old(buf[..])[at + k..]
  {
    hide Decode, DecodeGroup, Value;
    var tab := BuildTable();
    var i := Scan(buf, at, tab, s);
    if i < 0 {
      return -1;
    }
    BodyIsGroups(s);
    k := DecodeBody(buf, at, i, tab, s);
  }

  /** The decoding loop. */
  method DecodeBody(buf: array<Byte>, at: nat, i: nat, tab: seq<nat>, ghost s: seq<Byte>) returns (k: nat)
    requires StringAt(buf[..], at, s) && at + |s| < buf.Length && i <= |s| && Groups(s[..i])
    requires IsTable(tab)
    modifies buf
    ensures 4 * k <= 3 * i && k == |Decode(s[..i])|
    ensures buf[..] == old(buf[..])[..at] + Decode(s[..i]) + old(buf[..])[at + k..]
  {
    hide Decode, Groups, StringAt, IsTable, Done;
    ghost var was := buf[..];
    k := 0;
    var j := 0;
    NoneDone(was, at, s);
    while j < i
      invariant j <= i && j % 4 == 0 && Done(buf[..], was, at, s, j, k)
    {
      var n := DecodeNext(buf, at, k, i, j, tab, was, s);
      k := k + n;
      j := j + 4;
    }
    AllDone(buf[..], was, at, s, i, k);
  }

  /** The first j letters are decoded to the first k octets. */
  ghost predicate Done(now: seq<Byte>, was: seq<Byte>, at: nat, s: seq<Byte>, j: nat, k: nat) {
    && j <= |s| && at + k <= |was| && 4 * k <= 3 * j
    && Groups(s[..j]) && k == |Decode(s[..j])|
    && Put(now, was, at, Decode(s[..j]))
  }

  lemma NoneDone(was: seq<Byte>, at: nat, s: seq<Byte>)
    requires at <= |was|
    ensures Done(was, was, at, s, 0, 0)
  {
    NothingEncoded();
    assert s[..0] == [] && was == was[..at] + [] + was[at..];
  }

  lemma AllDone(now: seq<Byte>, was: seq<Byte>, at: nat, s: seq<Byte>, i: nat, k: nat)
    requires Done(now, was, at, s, i, k)
    ensures 4 * k <= 3 * i && Groups(s[..i]) && k == |Decode(s[..i])| && at + k <= |was|
    ensures now == was[..at] + Decode(s[..i]) + was[at + k..]
  {}

  /** One turn of the decoding loop. */
  method DecodeNext(buf: array<Byte>, at: nat, k: nat, i: nat, j: nat, tab: seq<nat>,
      ghost was: seq<Byte>, ghost s: seq<Byte>)
    returns (n: nat)
    requires StringAt(was, at, s) && at + |s| < |was| && i <= |s| && Groups(s[..i])
    requires j < i && j % 4 == 0 && Done(buf[..], was, at, s, j, k)
    requires IsTable(tab)
    modifies buf
    ensures j + 4 <= i && n <= 3 && Done(buf[..], was, at, s, j + 4, k + n)
  {
    hide Decode, DecodeGroup, Value, Groups, StringAt, IsTable, Put;
    ghost var done, before := Decode(s[..j]), buf[..];
    NextGroup(s, i, j);
    Unread(before, was, at, done, s, j);
    ghost var group := DecodeGroup(s[j], s[j + 1], s[j + 2], s[j + 3]);
    n := DecodeOne(buf, at + k, at + j, tab, group);
    Spliced(was, at, done, k, before, group, n, buf[..]);
  }

  /** The checks before the decoding loop: the length of the body, or -1. */
  method Scan(buf: array<Byte>, at: nat, tab: seq<nat>, ghost s: seq<Byte>) returns (i: int)
    requires StringAt(buf[..], at, s)
    requires IsTable(tab)
    ensures i == if Accepts(s) then BodyLength(s) else -1
  {
    hide Value;
    var j: nat := 0;
    while buf[at + j] != 0
      invariant j <= |s|
      invariant LettersEnd(s, j) == LettersEnd(s, 0)
      decreases |s| - j
    {
      assert buf[at + j] == s[j];
      if tab[buf[at + j]] >= 100 {
        break;
      }
      j := j + 1;
    }
    assert j < |s| ==> buf[at + j] == s[j];
    assert j == LettersEnd(s, 0);
    assert j + 1 < |s| ==> buf[at + j + 1] == s[j + 1];
    assert j + 2 < |s| ==> buf[at + j + 2] == s[j + 2];
    if buf[at + j] != 0 && buf[at + j + 1] != 0 && buf[at + j + 2] != 0 {
      return -1;
    }
    while buf[at + j] == PAD
      invariant LettersEnd(s, 0) <= j <= |s| && PadsEnd(s, j) == BodyLength(s)
      decreases |s| - j
    {
      assert buf[at + j] == s[j];
      j := j + 1;
    }
    assert j < |s| ==> buf[at + j] == s[j];
    assert j == BodyLength(s);
    return if j % 4 != 0 then -1 else j;
  }

  /** What has not been decoded yet has not been overwritten. */
  lemma Unread(now: seq<Byte>, was: seq<Byte>, at: nat, done: seq<Byte>, s: seq<Byte>, j: nat)
    requires StringAt(was, at, s) && |done| <= j && j + 4 <= |s|
    requires Put(now, was, at, done)
    ensures |now| == |was|
    ensures now[at + j] == s[j] && now[at + j + 1] == s[j + 1]
    ensures now[at + j + 2] == s[j + 2] && now[at + j + 3] == s[j + 3]
  {
    forall m | j <= m < j + 4
      ensures now[at + m] == s[m]
    {
      assert now[at + m] == was[at + |done|..][m - |done|];
    }
  }

  lemma NextGroup(s: seq<Byte>, i: nat, j: nat)
    requires i <= |s| && Groups(s[..i]) && j % 4 == 0 && j < i && Groups(s[..j])
    ensures j + 4 <= i && Value(s[j]) < 100 && Value(s[j + 1]) < 100 && Groups(s[..j + 4])
    ensures Decode(s[..j + 4]) == Decode(s[..j]) + DecodeGroup(s[j], s[j + 1], s[j + 2], s[j + 3])
  {
    hide Value, DecodeGroup;
    var t := s[..i];
    assert s[j] == t[j] && s[j + 1] == t[j + 1];
    var u := s[..j + 4];
    forall k | 0 <= k < j + 2
      ensures Value(u[k]) < 100
    {
      assert t[k] == u[k];
    }
    assert s[..j + 4][..j] == s[..j];
  }

  lemma Spliced(was: seq<Byte>, at: nat, done: seq<Byte>, k: nat,
      before: seq<Byte>, group: seq<Byte>, n: nat, now: seq<Byte>)
    requires k == |done| && n == |group|
    requires Put(before, was, at, done) && Put(now, before, at + k, group)
    ensures Put(now, was, at, done + group)
  {
    assert before[..at + k] == was[..at] + done;
    assert before[at + k + n..] == was[at + k + n..];
  }

  /** The body of the decoding loop: the group at `from` is decoded to `to`. */
  method DecodeOne(buf: array<Byte>, to: nat, from: nat, tab: seq<nat>, ghost group: seq<Byte>)
    returns (n: nat)
    requires to <= from && from + 4 <= buf.Length
    requires IsTable(tab)
    requires Value(buf[from]) < 100 && Value(buf[from + 1]) < 100
    requires group == DecodeGroup(buf[from], buf[from + 1], buf[from + 2], buf[from + 3])
    modifies buf
    ensures n == |group| && Put(buf[..], old(buf[..]), to, group)
  {
    hide IsTable, DecodeGroup, Value, Put;
    ghost var before := buf[..];
    var a, b, c := Unpack(buf[from], buf[from + 1], buf[from + 2], buf[from + 3], tab);
    ghost var done := [a];
    NothingPut(before, to);
    PutOctet(buf, to, 0, a, before, []);
    assert [] + [a] == done;
    n := 1;
    if buf[from + 2] != PAD {
      PutOctet(buf, to, n, b, before, done);
      done := done + [b];
      n := n + 1;
    }
    if buf[from + 3] != PAD {
      PutOctet(buf, to, n, c, before, done);
      done := done + [c];
      n := n + 1;
    }
    assert done == group;
  }

  /** The three octets of four letters, of which a pad cuts off the last two. */
  method Unpack(w: Byte, x: Byte, y: Byte, z: Byte, tab: seq<nat>) returns (a: Byte, b: Byte, c: Byte)
    requires IsTable(tab) && Value(w) < 100 && Value(x) < 100
    ensures DecodeGroup(w, x, y, z) == ([a] + if y != PAD then [b] else []) + if z != PAD then [c] else []
  {
    a := 4 * tab[w] + tab[x] / 16;
    b := (16 * tab[x] + tab[y] / 4) % 256;
    c := (64 * tab[y] + tab[z]) % 256;
  }

  /** In place of what was at `to` there is now `done`. */
  ghost predicate Put(now: seq<Byte>, before: seq<Byte>, to: nat, done: seq<Byte>) {
    to + |done| <= |before| && now == before[..to] + done + before[to + |done|..]
  }

  lemma NothingPut(buf: seq<Byte>, to: nat)
    requires to <= |buf|
    ensures Put(buf, buf, to, [])
  {}

  /** Stores one more octet behind those that are done. */
  method PutOctet(buf: array<Byte>, to: nat, n: nat, v: Byte, ghost before: seq<Byte>, ghost done: seq<Byte>)
    requires to + n < buf.Length == |before| && |done| == n && Put(buf[..], before, to, done)
    modifies buf
    ensures Put(buf[..], before, to, done + [v])
    ensures forall k :: to + n < k < buf.Length ==> buf[k] == before[k]
  {
    buf[to + n] := v;
    forall k | to + n < k < buf.Length
      ensures buf[k] == before[k]
    {
      assert old(buf[..])[k] == before[k];
    }
  }
}
