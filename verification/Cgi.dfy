/** The arguments of a CGI request, wmail/cgi/cgi.c: encoded one by one, split and decoded in
    place, looked up.  A character is one byte. */
module Cgi {
  import opened CStrings

  const NBSP: char := 160 as char

  /** What a C string can hold. */
  predicate CString(s: string) {
    forall k :: 0 <= k < |s| ==> 0 < s[k] as int < 256
  }

  // ----- encoding

  const PUNCT := "\"?;<>&=/:%@+#"

  predicate Escaped(c: char, punct: string) {
    c in punct || c < ' ' || c >= 127 as char
  }

  function HexDigit(n: nat): (c: char)
    requires n < 16
    ensures HexValue(c) == Some(n)
  {
    if n < 10 then ('0' as int + n) as char else ('A' as int + (n - 10)) as char
  }

  function HexValue(c: char): (n: Option<nat>)
    ensures n.Some? ==> n.value < 16
  {
    if '0' <= c <= '9' then Some(c as int - '0' as int)
    else if 'A' <= c <= 'F' then Some(c as int - 'A' as int + 10)
    else None
  }

  function EncodeOne(c: char, punct: string): (s: string)
    requires c as int < 256
    ensures |s| == if Escaped(c, punct) then 3 else 1
  {
    if Escaped(c, punct) then ['%', HexDigit(c as int / 16), HexDigit(c as int % 16)]
    else if c == ' ' then "+" else [c]
  }

  function Encode(s: string, punct: string): string
    requires CString(s)
  {
    if s == "" then "" else EncodeOne(s[0], punct) + Encode(s[1..], punct)
  }

  /** What is written as a code, and how; a blank becomes a plus sign. */
  lemma CodeOf(c: char)
    requires c as int < 256
    ensures EncodeOne(c, PUNCT) ==
      if c < ' ' || c as int >= 127 || c == '"' || c == '?' || c == ';' || c == '<' || c == '>' || c == '&' || c == '='
         || c == '/' || c == ':' || c == '%' || c == '@' || c == '+' || c == '#'
      then ['%', "0123456789ABCDEF"[c as int / 16], "0123456789ABCDEF"[c as int % 16]]
      else if c == ' ' then "+" else [c]
  {
    hide HexDigit;
    HexDigitIs(c as int / 16);
    HexDigitIs(c as int % 16);
  }

  lemma HexDigitIs(n: nat)
    requires n < 16
    ensures HexDigit(n) == "0123456789ABCDEF"[n]
  {}

  // ----- decoding

  datatype Step = Step(out: string, used: nat)

  /** The number so far, with one more digit if there is one, and whether there was. */
  function AddDigit(n: nat, t: string): (r: (nat, nat))
    requires n < 16
    ensures r.0 < 256 && r.1 <= 1 && r.1 <= |t| && (n == 0 ==> r.0 < 16)
  {
    var v := if t != "" then HexValue(t[0]) else None;
    if v.Some? then (16 * n + v.value, 1) else (n, 0)
  }

  /** The number behind a percent sign: up to two digits, of which the letters are capitals. */
  function Percent(t: string): (r: (nat, nat))
    ensures r.0 < 256 && r.1 <= 2 && r.1 <= |t|
  {
    var a := AddDigit(0, t);
    var b := AddDigit(a.0, t[a.1..]);
    (b.0, a.1 + b.1)
  }

  /** What a decoded byte is kept as, if it is kept. */
  function Keep(n: nat): string
    requires n < 256
  {
    if n == 160 then " " else if n == 0 || n == 13 then "" else [n as char]
  }

  function DecodeOne(t: string): (d: Step)
    requires t != ""
    ensures |d.out| <= 1 && 0 < d.used <= |t|
  {
    if t[0] == '+' || t[0] == NBSP then Step(" ", 1)
    else if t[0] != '%' then Step([t[0]], 1)
    else
      var p := Percent(t[1..]);
      Step(Keep(p.0), 1 + p.1)
  }

  function Decode(t: string): (s: string)
    ensures |s| <= |t|
    decreases |t|
  {
    if t == "" then "" else DecodeOne(t).out + Decode(t[DecodeOne(t).used..])
  }

  /** The bytes that a form field loses: carriage returns go, and a hard blank becomes a blank. */
  function Clean(s: string): string {
    if s == "" then ""
    else (if s[0] == '\r' then "" else if s[0] == NBSP then " " else [s[0]]) + Clean(s[1..])
  }

  lemma DecodeEncodedOne(c: char, punct: string, rest: string)
    requires 0 < c as int < 256 && '%' in punct && '+' in punct
    ensures DecodeOne(EncodeOne(c, punct) + rest) ==
            Step(if c == '\r' then "" else if c == NBSP then " " else [c], |EncodeOne(c, punct)|)
  {
    var t := EncodeOne(c, punct) + rest;
    if Escaped(c, punct) {
      assert t[1..][0] == HexDigit(c as int / 16) && t[1..][1] == HexDigit(c as int % 16);
      assert Percent(t[1..]) == (c as int, 2);
    }
  }

  lemma {:induction false} DecodeEncode(s: string, punct: string)
    requires CString(s) && '%' in punct && '+' in punct
    ensures Decode(Encode(s, punct)) == Clean(s)
  {
    hide EncodeOne, DecodeOne;
    if s != "" {
      var rest := Encode(s[1..], punct);
      DecodeEncode(s[1..], punct);
      DecodeEncodedOne(s[0], punct, rest);
      var t := EncodeOne(s[0], punct) + rest;
      assert t[|EncodeOne(s[0], punct)|..] == rest;
    }
  }

  /** A percent sign before a small letter is no code: the sign is lost and the letter stays. */
  lemma SmallLetter(c: char, rest: string)
    requires 'a' <= c <= 'f'
    ensures Decode(['%', c] + rest) == [c] + Decode(rest)
  {
    hide DecodeOne;
    SignLost(c, rest);
    assert (['%', c] + rest)[1..] == [c] + rest;
    assert ([c] + rest)[1..] == rest;
  }

  lemma SignLost(c: char, rest: string)
    requires 'a' <= c <= 'f'
    ensures DecodeOne(['%', c] + rest) == Step("", 1) && DecodeOne([c] + rest) == Step([c], 1)
  {
    assert (['%', c] + rest)[1..][0] == c;
  }

  /** A plus sign is a blank, and a code is its character. */
  lemma CodeMeans(hi: nat, lo: nat, rest: string)
    requires hi < 16 && lo < 16 && 16 * hi + lo != 0 && 16 * hi + lo != 13 && 16 * hi + lo != 160
    ensures Decode("+" + rest) == " " + Decode(rest)
    ensures Decode(['%', "0123456789ABCDEF"[hi], "0123456789ABCDEF"[lo]] + rest) ==
            [(16 * hi + lo) as char] + Decode(rest)
  {
    hide HexDigit, DecodeOne;
    HexDigitIs(hi);
    HexDigitIs(lo);
    var t := ['%', HexDigit(hi), HexDigit(lo)] + rest;
    CodeRead(hi, lo, rest);
    assert t[3..] == rest && ("+" + rest)[1..] == rest;
    PlusRead(rest);
  }

  lemma CodeRead(hi: nat, lo: nat, rest: string)
    requires hi < 16 && lo < 16 && 16 * hi + lo != 0 && 16 * hi + lo != 13 && 16 * hi + lo != 160
    ensures DecodeOne(['%', HexDigit(hi), HexDigit(lo)] + rest) == Step([(16 * hi + lo) as char], 3)
  {
    hide HexDigit, HexValue;
    var t := ['%', HexDigit(hi), HexDigit(lo)] + rest;
    assert t[1..][0] == HexDigit(hi) && t[1..][1..][0] == HexDigit(lo);
    assert Percent(t[1..]) == (16 * hi + lo, 2);
  }

  lemma PlusRead(rest: string)
    ensures DecodeOne("+" + rest) == Step(" ", 1)
  {}

  lemma {:induction false} CleanSame(s: string)
    ensures Clean(s) == s <==> '\r' !in s && NBSP !in s
    ensures |Clean(s)| <= |s|
  {
    if s != "" {
      CleanSame(s[1..]);
      assert s == [s[0]] + s[1..];
      if s[0] != '\r' {
        assert Clean(s)[1..] == Clean(s[1..]);
      }
    }
  }

  // ----- a query

  datatype Pair = Pair(name: string, value: string)

  function EncodePair(p: Pair): string
    requires CString(p.name) && CString(p.value)
  {
    Encode(p.name, PUNCT) + "=" + Encode(p.value, PUNCT)
  }

  predicate Printable(pairs: seq<Pair>) {
    forall k :: 0 <= k < |pairs| ==> CString(pairs[k].name) && CString(pairs[k].value)
  }

  function Query(pairs: seq<Pair>): string
    requires Printable(pairs)
  {
    if pairs == [] then ""
    else if |pairs| == 1 then EncodePair(pairs[0])
    else EncodePair(pairs[0]) + "&" + Query(pairs[1..])
  }

  /** Where the character c comes first in t, or the end of t. */
  function Find(t: string, c: char): (n: nat)
    ensures n <= |t| && (n < |t| ==> t[n] == c) && forall k :: 0 <= k < n ==> t[k] != c
  {
    if t == "" || t[0] == c then 0 else 1 + Find(t[1..], c)
  }

  function ParsePair(t: string): Pair {
    var e := Find(t, '=');
    if e < |t| then Pair(Decode(t[..e]), Decode(t[e + 1..])) else Pair(Decode(t), "")
  }

  function AfterAmp(t: string): (r: string)
    ensures t != "" ==> |r| < |t|
  {
    var n := Find(t, '&');
    if n < |t| then t[n + 1..] else ""
  }

  /** The list as it is when all of the query is parsed: what comes later is nearer the front. */
  function Parse(t: string, list: seq<Pair>): seq<Pair>
    decreases |t|
  {
    if t == "" then list else Parse(AfterAmp(t), [ParsePair(t[..Find(t, '&')])] + list)
  }

  function Reverse<T>(s: seq<T>): (r: seq<T>)
    ensures |r| == |s| && forall k :: 0 <= k < |s| ==> r[k] == s[|s| - 1 - k]
  {
    if s == [] then [] else Reverse(s[1..]) + [s[0]]
  }

  function CleanAll(pairs: seq<Pair>): (r: seq<Pair>)
    ensures |r| == |pairs|
  {
    if pairs == [] then [] else [Pair(Clean(pairs[0].name), Clean(pairs[0].value))] + CleanAll(pairs[1..])
  }

  lemma HexPlain(n: nat)
    requires n < 16
    ensures HexDigit(n) !in PUNCT && HexDigit(n) !in "&="
  {
    var c := HexDigit(n);
    assert '0' <= c <= '9' || 'A' <= c <= 'F';
  }

  lemma EncodedOnePlain(c: char)
    requires 0 < c as int < 256
    ensures '&' !in EncodeOne(c, PUNCT) && '=' !in EncodeOne(c, PUNCT)
  {
    if Escaped(c, PUNCT) {
      HexPlain(c as int / 16);
      HexPlain(c as int % 16);
      assert '&' in "&=" && '=' in "&=";
    } else {
      assert PUNCT[5] == '&' && PUNCT[6] == '=';
    }
  }

  lemma {:induction false} EncodedPlain(s: string)
    requires CString(s)
    ensures '&' !in Encode(s, PUNCT) && '=' !in Encode(s, PUNCT)
  {
    hide EncodeOne;
    if s != "" {
      EncodedOnePlain(s[0]);
      EncodedPlain(s[1..]);
    }
  }

  lemma {:induction false} FindIs(a: string, c: char, rest: string)
    requires c !in a && (rest == "" || rest[0] == c)
    ensures Find(a + rest, c) == |a|
  {
    if a == "" {
      assert a + rest == rest;
    } else {
      assert (a + rest)[1..] == a[1..] + rest;
      FindIs(a[1..], c, rest);
    }
  }

  /** The first equals sign parts name and value. */
  lemma PairParted(n: string, v: string)
    requires '=' !in n
    ensures ParsePair(n + "=" + v) == Pair(Decode(n), Decode(v)) && ParsePair(n) == Pair(Decode(n), "")
  {
    hide Decode;
    var t := n + "=" + v;
    assert t == n + ("=" + v) && n == n + "";
    FindIs(n, '=', "=" + v);
    FindIs(n, '=', "");
    assert t[..|n|] == n && t[|n| + 1..] == v;
  }

  lemma PairBack(p: Pair)
    requires CString(p.name) && CString(p.value)
    ensures ParsePair(EncodePair(p)) == Pair(Clean(p.name), Clean(p.value))
    ensures '&' !in EncodePair(p) && EncodePair(p) != ""
  {
    hide Encode, Decode, Clean;
    var n, v := Encode(p.name, PUNCT), Encode(p.value, PUNCT);
    EncodedPlain(p.name);
    EncodedPlain(p.value);
    var t := n + "=" + v;
    assert t == n + ("=" + v);
    FindIs(n, '=', "=" + v);
    assert t[..|n|] == n && t[|n| + 1..] == v;
    assert PUNCT[9] == '%' && PUNCT[11] == '+';
    DecodeEncode(p.name, PUNCT);
    DecodeEncode(p.value, PUNCT);
  }

  lemma ParseOne(t: string, rest: string, list: seq<Pair>)
    requires t != "" && '&' !in t && (rest == "" || rest[0] == '&')
    ensures Parse(t + rest, list) == Parse(if rest == "" then "" else rest[1..], [ParsePair(t)] + list)
  {
    hide ParsePair;
    FindIs(t, '&', rest);
    assert (t + rest)[..|t|] == t;
    assert rest != "" ==> (t + rest)[|t| + 1..] == rest[1..];
  }

  lemma {:induction false} ParseQuery(pairs: seq<Pair>, list: seq<Pair>)
    requires Printable(pairs)
    ensures Parse(Query(pairs), list) == Reverse(CleanAll(pairs)) + list
    decreases |pairs|
  {
    hide ParsePair, EncodePair, Clean, CString, Parse, Reverse, CleanAll;
    if pairs == [] {
      ParseNothing(list);
      NoPairs(list);
    } else {
      assert CString(pairs[0].name) && CString(pairs[0].value);
      PairBack(pairs[0]);
      var t, more := EncodePair(pairs[0]), pairs[1..];
      var first := Pair(Clean(pairs[0].name), Clean(pairs[0].value));
      if |pairs| == 1 {
        assert t + "" == t;
        ParseOne(t, "", list);
        ParseNothing([first] + list);
        NoPairs([first] + list);
        assert more == [];
      } else {
        assert Query(pairs) == t + ("&" + Query(more));
        assert ("&" + Query(more))[1..] == Query(more);
        ParseOne(t, "&" + Query(more), list);
        ParseQuery(more, [first] + list);
      }
      CleanAllStep(pairs);
      ReverseStep(first, CleanAll(more), list);
    }
  }

  lemma NoPairs(list: seq<Pair>)
    ensures CleanAll([]) == [] && Reverse<Pair>([]) + list == list
  {}

  lemma CleanAllStep(pairs: seq<Pair>)
    requires pairs != []
    ensures CleanAll(pairs) == [Pair(Clean(pairs[0].name), Clean(pairs[0].value))] + CleanAll(pairs[1..])
  {}

  lemma ReverseStep<T>(first: T, more: seq<T>, list: seq<T>)
    ensures Reverse([first] + more) + list == Reverse(more) + ([first] + list)
  {
    assert ([first] + more)[1..] == more;
  }

  lemma ParseNothing(list: seq<Pair>)
    ensures Parse("", list) == list
  {}

  predicate Plain(p: Pair) {
    '\r' !in p.name && NBSP !in p.name && '\r' !in p.value && NBSP !in p.value
  }

  lemma {:induction false} CleanAllSame(pairs: seq<Pair>)
    ensures CleanAll(pairs) == pairs <==> forall k :: 0 <= k < |pairs| ==> Plain(pairs[k])
  {
    if pairs != [] {
      CleanAllSame(pairs[1..]);
      CleanSame(pairs[0].name);
      CleanSame(pairs[0].value);
      hide Clean;
      assert pairs == [pairs[0]] + pairs[1..];
      assert CleanAll(pairs)[1..] == CleanAll(pairs[1..]);
      assert forall k :: 1 <= k < |pairs| ==> pairs[k] == pairs[1..][k - 1];
      assert forall k :: 0 <= k < |pairs| - 1 ==> pairs[1..][k] == pairs[k + 1];
    }
  }

  lemma ReverseSame<T>(a: seq<T>, b: seq<T>)
    requires |a| == |b|
    ensures Reverse(a) == Reverse(b) <==> a == b
  {
    if Reverse(a) == Reverse(b) {
      forall k | 0 <= k < |a|
        ensures a[k] == b[k]
      {
        assert Reverse(a)[|a| - 1 - k] == a[k] && Reverse(b)[|b| - 1 - k] == b[k];
      }
    }
  }

  /** A query comes back in reverse order, and exactly those pairs come back whole that hold no
      carriage return and no hard blank. */
  lemma QueryBack(pairs: seq<Pair>)
    requires Printable(pairs)
    ensures Parse(Query(pairs), []) == Reverse(CleanAll(pairs))
    ensures Parse(Query(pairs), []) == Reverse(pairs) <==> forall k :: 0 <= k < |pairs| ==> Plain(pairs[k])
  {
    hide Parse, Query, CleanAll, Reverse, Plain, Printable;
    ParseQuery(pairs, []);
    CleanAllSame(pairs);
    ReverseSame(CleanAll(pairs), pairs);
    assert Reverse(CleanAll(pairs)) + [] == Reverse(CleanAll(pairs));
  }

  // ----- several values of one name

  /** The values of a name, from the end of the list to its front. */
  function Values(list: seq<Pair>, name: string): seq<string> {
    if list == [] then []
    else Values(list[1..], name) + if list[0].name == name then [list[0].value] else []
  }

  function Join(values: seq<string>, sep: string): string {
    if values == [] then ""
    else if |values| == 1 then values[0]
    else Join(values[..|values| - 1], sep) + sep + values[|values| - 1]
  }

  /** What cgi_multiple writes: a separator only when something is written before it. */
  function Written(values: seq<string>, sep: string): string {
    if values == [] then ""
    else
      var before := Written(values[..|values| - 1], sep);
      before + (if before != "" then sep else "") + values[|values| - 1]
  }

  /** The size of its buffer. */
  function BufferSize(values: seq<string>, sep: string): (n: nat)
    ensures n > 0
  {
    if values == [] then 1
    else BufferSize(values[..|values| - 1], sep) + |values[|values| - 1]| + |sep|
  }

  lemma {:induction false} WrittenFits(values: seq<string>, sep: string)
    ensures |Written(values, sep)| < BufferSize(values, sep)
  {
    if values != [] {
      WrittenFits(values[..|values| - 1], sep);
    }
  }

  lemma {:induction false} WrittenShort(values: seq<string>, sep: string)
    ensures |Written(values, sep)| <= |Join(values, sep)|
    ensures |values| > 1 && values[0] == "" && sep != "" ==> |Written(values, sep)| < |Join(values, sep)|
    ensures |values| > 0 && values[0] != "" ==> Written(values, sep) != ""
    decreases |values|
  {
    if values != [] {
      WrittenShort(values[..|values| - 1], sep);
      if |values| == 1 {
        assert values[..0] == [];
      } else if |values| == 2 {
        assert values[..1][..0] == [];
      }
    }
  }

  lemma {:induction false} WrittenJoins(values: seq<string>, sep: string)
    requires sep == "" || |values| <= 1 || values[0] != ""
    ensures Written(values, sep) == Join(values, sep)
    decreases |values|
  {
    if values != [] {
      var before := values[..|values| - 1];
      WrittenJoins(before, sep);
      WrittenShort(before, sep);
      if |values| == 1 {
        assert before == [];
        assert "" + "" + values[0] == values[0];
      }
    }
  }

  /** The values are joined as they were submitted, exactly if the first of several is not empty
      or the separator is. */
  lemma WrittenIsJoin(values: seq<string>, sep: string)
    ensures Written(values, sep) == Join(values, sep) <==> sep == "" || |values| <= 1 || values[0] != ""
  {
    if sep == "" || |values| <= 1 || values[0] != "" {
      WrittenJoins(values, sep);
    } else {
      WrittenShort(values, sep);
    }
  }

  /** The values submitted for a name, in that order. */
  function Submitted(pairs: seq<Pair>, name: string): seq<string> {
    if pairs == [] then []
    else (if pairs[0].name == name then [pairs[0].value] else []) + Submitted(pairs[1..], name)
  }

  lemma {:induction false} ValuesJoin(a: seq<Pair>, b: seq<Pair>, name: string)
    ensures Values(a + b, name) == Values(b, name) + Values(a, name)
  {
    if a == [] {
      assert a + b == b;
    } else {
      assert (a + b)[1..] == a[1..] + b;
      ValuesJoin(a[1..], b, name);
    }
  }

  lemma {:induction false} ValuesReverse(pairs: seq<Pair>, name: string)
    ensures Values(Reverse(pairs), name) == Submitted(pairs, name)
  {
    if pairs != [] {
      var last := [pairs[0]];
      ValuesReverse(pairs[1..], name);
      ValuesJoin(Reverse(pairs[1..]), last, name);
      assert last[1..] == [];
    }
  }

  /** cgi: the value nearest the front. */
  function Lookup(list: seq<Pair>, name: string): string {
    if list == [] then "" else if list[0].name == name then list[0].value else Lookup(list[1..], name)
  }

  lemma {:induction false} LookupIsLast(list: seq<Pair>, name: string)
    ensures Lookup(list, name) ==
            if Values(list, name) == [] then "" else Values(list, name)[|Values(list, name)| - 1]
  {
    if list != [] {
      LookupIsLast(list[1..], name);
    }
  }

  /** From the form to the program: of the values submitted for a name the last is looked up, and
      all of them come joined in their order. */
  lemma FormValues(pairs: seq<Pair>, name: string, sep: string)
    requires Printable(pairs) && forall k :: 0 <= k < |pairs| ==> Plain(pairs[k])
    ensures var list := Parse(Query(pairs), []); var values := Submitted(pairs, name);
      && Values(list, name) == values
      && Lookup(list, name) == (if values == [] then "" else values[|values| - 1])
      && (Written(Values(list, name), sep) == Join(values, sep) <==> sep == "" || |values| <= 1 || values[0] != "")
  {
    hide Parse, Query, Values, Reverse, Written, Join, Plain, Lookup, Submitted;
    QueryBack(pairs);
    ValuesReverse(pairs, name);
    LookupIsLast(Reverse(pairs), name);
    WrittenIsJoin(Submitted(pairs, name), sep);
  }
}
