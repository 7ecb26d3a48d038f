/** Decimal numbers in text: the printer of wmail/numlib/strofft.c, and the runs of digits that
    the parsers of this library read.  Numbers have no bound here. */
module Decimal {
  import opened CStrings

  function Digit(d: nat): (c: char)
    requires d < 10
    ensures IsDigit(c) && DigitValue(c) == d
  {
    (48 + d) as char
  }

  predicate IsDigit(c: char) {
    '0' <= c <= '9'
  }

  function DigitValue(c: char): (d: nat)
    requires IsDigit(c)
    ensures d < 10
  {
    c as int - 48
  }

  function AllDigits(s: string): bool {
    forall k :: 0 <= k < |s| ==> IsDigit(s[k])
  }

  function OfNat(n: nat): (s: string)
    ensures |s| > 0 && AllDigits(s)
  {
    (if n < 10 then "" else OfNat(n / 10)) + [Digit(n % 10)]
  }

  function Of(n: int): (s: string)
    ensures |s| > 0
  {
    if n < 0 then "-" + OfNat(-n) else OfNat(n)
  }

  function Value(s: string): nat
    requires AllDigits(s)
  {
    if s == "" then 0 else 10 * Value(s[..|s| - 1]) + DigitValue(s[|s| - 1])
  }

  lemma {:induction false} ValueOfNat(n: nat)
    ensures Value(OfNat(n)) == n
  {
    hide Value;
    if n >= 10 {
      ValueOfNat(n / 10);
      ValueMore(OfNat(n / 10), n % 10);
    } else {
      ValueNothing();
      ValueMore("", n);
    }
  }

  lemma ValueNothing()
    ensures Value("") == 0
  {}

  lemma ValueMore(s: string, d: nat)
    requires AllDigits(s) && d < 10
    ensures AllDigits(s + [Digit(d)]) && Value(s + [Digit(d)]) == 10 * Value(s) + d
  {
    assert (s + [Digit(d)])[..|s|] == s;
  }

  function Pow10(k: nat): (p: nat)
    ensures p > 0
  {
    if k == 0 then 1 else 10 * Pow10(k - 1)
  }

  /** A number of at most k digits takes at most k places, and one for a sign. */
  lemma {:induction false} LengthOfNat(n: nat, k: nat)
    requires 0 < k && n < Pow10(k)
    ensures |OfNat(n)| <= k
  {
    if n >= 10 {
      LengthOfNat(n / 10, k - 1);
    }
  }

  /** Where the run of digits that starts at j ends. */
  function DigitsEnd(s: string, j: nat): (e: nat)
    requires j <= |s|
    ensures j <= e <= |s| && (forall k :: j <= k < e ==> IsDigit(s[k])) && (e == |s| || !IsDigit(s[e]))
    decreases |s| - j
  {
    if j < |s| && IsDigit(s[j]) then
      DigitsEnd(s, j + 1)
    else j
  }

  lemma {:induction false} DigitsEndIs(s: string, j: nat, e: nat)
    requires j <= e <= |s| && AllDigits(s[j..e]) && (e == |s| || !IsDigit(s[e]))
    ensures DigitsEnd(s, j) == e
    decreases e - j
  {
    if j < e {
      assert IsDigit(s[j..e][0]);
      assert s[j + 1..e] == s[j..e][1..];
      DigitsEndIs(s, j + 1, e);
    }
  }

  /** Of a number n, the digits above the last. */
  function Upper(n: nat): string {
    if n == 0 then "" else OfNat(n)
  }

  lemma LastDigit(n: nat)
    ensures OfNat(n) == Upper(n / 10) + [Digit(n % 10)]
  {}

  lemma Negative(n: nat)
    requires n > 0
    ensures Of(0 - n) == "-" + OfNat(n) && Of(n) == OfNat(n) && Of(0) == "0"
  {
    hide OfNat;
    Literal(0, 0);
  }

  /** Ten digits and the base of ten. */
  lemma Literal(d: nat, n: nat)
    requires d < 10
    ensures OfNat(d) == ["0123456789"[d]] && OfNat(10 * (n + 1) + d) == OfNat(n + 1) + ["0123456789"[d]]
  {
    hide Digit;
    DigitIs(d);
    assert (10 * (n + 1) + d) / 10 == n + 1 && (10 * (n + 1) + d) % 10 == d;
  }

  lemma DigitIs(d: nat)
    requires d < 10
    ensures Digit(d) == "0123456789"[d]
  {}

  /** libmail_str_off_t; its buffer of 60 bytes holds the digits of any 64-bit number. */
  method StrOffT(number: int) returns (s: string)
    ensures s == Of(number)
  {
    hide OfNat, Digit, IsDigit, DigitValue, AllDigits;
    var t := number;
    var isneg := false;
    if t < 0 {
      t := -t;
      isneg := true;
    }
    ghost var all := OfNat(t);
    LastDigit(t);
    s := [Digit(t % 10)];
    t := t / 10;
    while t > 0
      invariant t >= 0 && all == Upper(t) + s
    {
      LastDigit(t);
      Regroup(Upper(t / 10), [Digit(t % 10)], s);
      s := [Digit(t % 10)] + s;
      t := t / 10;
    }
    if isneg {
      s := "-" + s;
    }
  }

  /** A scan over digits, and one that also accumulates their value. */
  method SkipDigits(s: string, j: nat) returns (e: nat)
    requires j <= |s|
    ensures e == DigitsEnd(s, j)
  {
    e := j;
    while e < |s| && IsDigit(s[e])
      invariant j <= e <= |s| && DigitsEnd(s, e) == DigitsEnd(s, j)
    {
      e := e + 1;
    }
  }

  method ReadDigits(s: string, j: nat) returns (v: nat, e: nat)
    requires j <= |s|
    ensures e == DigitsEnd(s, j) && v == Value(s[j..e])
  {
    hide DigitValue, IsDigit;
    v, e := 0, j;
    assert s[j..j] == "";
    while e < |s| && IsDigit(s[e])
      invariant j <= e <= |s| && DigitsEnd(s, e) == DigitsEnd(s, j)
      invariant AllDigits(s[j..e]) && v == Value(s[j..e])
    {
      ValueSnoc(s, j, e);
      v := v * 10 + DigitValue(s[e]);
      e := e + 1;
    }
  }

  lemma ValueSnoc(s: string, j: nat, e: nat)
    requires j <= e < |s| && AllDigits(s[j..e]) && IsDigit(s[e])
    ensures AllDigits(s[j..e + 1]) && Value(s[j..e + 1]) == 10 * Value(s[j..e]) + DigitValue(s[e])
  {
    var t := s[j..e + 1];
    assert t == s[j..e] + [s[e]] && t[..|t| - 1] == s[j..e];
  }

  lemma {:induction false} DigitsEndSuffix(s: string, x: nat, t: string, y: nat)
    requires x <= |s| && y <= |t| && s[x..] == t[y..]
    ensures DigitsEnd(s, x) - x == DigitsEnd(t, y) - y
    decreases |s| - x
  {
    if x < |s| {
      assert s[x] == s[x..][0] == t[y..][0] == t[y];
      assert s[x + 1..] == s[x..][1..] == t[y + 1..];
      DigitsEndSuffix(s, x + 1, t, y + 1);
    }
  }

  lemma {:induction false} DigitsWithin(s: string, j: nat)
    requires j <= |s|
    ensures forall m :: j <= m < DigitsEnd(s, j) ==> IsDigit(s[m])
    decreases |s| - j
  {
    if j < |s| && IsDigit(s[j]) {
      DigitsWithin(s, j + 1);
    }
  }
}
