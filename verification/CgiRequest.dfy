/** The program of wmail/cgi/cgi.c: one buffer holds the query, and then its names and values. */
module CgiRequest {
  import opened CStrings
  import opened Cgi

  // ----- C strings in a buffer

  /** At this position of the memory m stands the C string s. */
  ghost predicate CAt(m: seq<char>, from: nat, s: string) {
    from + |s| < |m| && m[from..from + |s|] == s && m[from + |s|] == '\0' && '\0' !in s
  }

  lemma CAtSame(m: seq<char>, after: seq<char>, from: nat, s: string)
    requires CAt(m, from, s) && |after| == |m|
    requires forall k :: from <= k <= from + |s| ==> after[k] == m[k]
    ensures CAt(after, from, s)
  {
    assert after[from..from + |s|] == m[from..from + |s|];
  }

  lemma CharAt(m: seq<char>, from: nat, s: string, k: nat)
    requires CAt(m, from, s) && k <= |s|
    ensures m[from + k] == if k < |s| then s[k] else '\0'
    ensures k < |s| ==> m[from + k] != '\0'
  {
    if k < |s| {
      assert m[from..from + |s|][k] == s[k];
    }
  }

  lemma Tail(m: seq<char>, from: nat, s: string, k: nat)
    requires CAt(m, from, s) && k <= |s|
    ensures CAt(m, from + k, s[k..])
  {
    assert m[from + k..from + |s|] == m[from..from + |s|][k..];
  }

  /** A NUL written into a C string cuts it in two. */
  lemma CutAt(m: seq<char>, from: nat, s: string, k: nat)
    requires CAt(m, from, s) && k < |s|
    ensures CAt(m[from + k := '\0'], from, s[..k]) && CAt(m[from + k := '\0'], from + k + 1, s[k + 1..])
  {
    var after := m[from + k := '\0'];
    Tail(m, from, s, k + 1);
    CAtSame(m, after, from + k + 1, s[k + 1..]);
    assert after[from..from + k] == m[from..from + |s|][..k];
  }

  /** strchr, or the end of the string. */
  method FindChar(buf: array<char>, from: nat, c: char, ghost s: string) returns (n: nat)
    requires CAt(buf[..], from, s) && c != '\0'
    ensures n == from + Find(s, c)
  {
    hide CAt;
    n := from;
    ghost var rest := s;
    while true
      invariant from <= n && CAt(buf[..], n, rest) && from + Find(s, c) == n + Find(rest, c)
      decreases |rest|
    {
      CharAt(buf[..], n, rest, 0);
      InBuffer(buf[..], n, rest);
      if buf[n] == '\0' || buf[n] == c {
        return;
      }
      Tail(buf[..], n, rest, 1);
      rest := rest[1..];
      n := n + 1;
    }
  }

  // ----- cgiurlencode_common

  lemma EncodeStep(done: string, s: string, p: nat, punct: string)
    requires CString(s) && p < |s|
    ensures CString(s[p..]) && CString(s[p + 1..])
    ensures done + Encode(s[p..], punct) == (done + EncodeOne(s[p], punct)) + Encode(s[p + 1..], punct)
  {
    assert s[p..][1..] == s[p + 1..];
  }

  method PutCode(newbuf: array?<char>, cnt: nat, c: char, punct: string) returns (next: nat)
    requires c as int < 256 && (newbuf != null ==> cnt + |EncodeOne(c, punct)| <= newbuf.Length)
    modifies if newbuf == null then {} else {newbuf}
    ensures next == cnt + |EncodeOne(c, punct)|
    ensures newbuf != null ==> newbuf[..next] == old(newbuf[..])[..cnt] + EncodeOne(c, punct)
  {
    if Escaped(c, punct) {
      if newbuf != null {
        newbuf[cnt] := '%';
        newbuf[cnt + 1] := HexDigit(c as int / 16);
        newbuf[cnt + 2] := HexDigit(c as int % 16);
      }
      return cnt + 3;
    }
    if newbuf != null {
      newbuf[cnt] := if c == ' ' then '+' else c;
    }
    return cnt + 1;
  }

  /** One pass: without a buffer it only counts. */
  method EncodePass(s: string, punct: string, newbuf: array?<char>) returns (cnt: nat)
    requires CString(s) && (newbuf != null ==> newbuf.Length > |Encode(s, punct)|)
    modifies if newbuf == null then {} else {newbuf}
    ensures cnt == |Encode(s, punct)| && (newbuf != null ==> newbuf[..cnt] == Encode(s, punct))
  {
    hide EncodeOne, Encode, CString;
    cnt := 0;
    ghost var done := "";
    var p: nat := 0;
    assert s[0..] == s && done + Encode(s, punct) == Encode(s, punct);
    while p < |s|
      invariant p <= |s| && cnt == |done| && CString(s[p..])
      invariant done + Encode(s[p..], punct) == Encode(s, punct)
      invariant newbuf != null ==> newbuf[..cnt] == done
    {
      EncodeStep(done, s, p, punct);
      OneByte(s, p);
      cnt := PutCode(newbuf, cnt, s[p], punct);
      done := done + EncodeOne(s[p], punct);
      p := p + 1;
    }
    EncodeNothing(punct);
    assert s[p..] == "" && done + "" == done;
  }

  lemma OneByte(s: string, p: nat)
    requires CString(s) && p < |s|
    ensures 0 < s[p] as int < 256
  {}

  lemma EncodeNothing(punct: string)
    ensures Encode("", punct) == ""
  {}

  /** The buffer has exactly the size that the first pass found. */
  method UrlEncode(s: string, punct: string) returns (newbuf: array<char>)
    requires CString(s)
    ensures fresh(newbuf) && newbuf[..] == Encode(s, punct) + ['\0']
  {
    hide Encode;
    var cnt := EncodePass(s, punct, null);
    newbuf := new char[cnt + 1];
    cnt := EncodePass(s, punct, newbuf);
    newbuf[cnt] := '\0';
  }

  // ----- cgiurldecode

  method Nybble(buf: array<char>, q: nat, n: nat, ghost t: string) returns (next: nat, n': nat)
    requires CAt(buf[..], q, t) && n < 16
    ensures n' == AddDigit(n, t).0 && next == q + AddDigit(n, t).1
  {
    CharAt(buf[..], q, t, 0);
    next, n' := q, n;
    var v := HexValue(buf[q]);
    if v.Some? {
      next, n' := q + 1, 16 * n + v.value;
    }
  }

  lemma InBuffer(m: seq<char>, q: nat, t: string)
    requires CAt(m, q, t)
    ensures q + |t| < |m|
  {}

  /** What is behind a percent sign. */
  method ReadPercent(buf: array<char>, q: nat, ghost t: string) returns (next: nat, c: nat)
    requires CAt(buf[..], q, t)
    ensures next == q + Percent(t).1 && c == Percent(t).0
  {
    hide AddDigit, CAt;
    var a;
    next, a := Nybble(buf, q, 0, t);
    Tail(buf[..], q, t, next - q);
    next, c := Nybble(buf, next, a, t[next - q..]);
  }

  /** One character of the coded string, at q, to where the decoded one has come, at p. */
  method DecodeChar(buf: array<char>, p: nat, q: nat, ghost t: string) returns (p': nat, q': nat)
    requires CAt(buf[..], q, t) && t != "" && p <= q
    modifies buf
    ensures q' == q + DecodeOne(t).used && p' == p + |DecodeOne(t).out| && p' <= q'
    ensures buf[..p'] == old(buf[..])[..p] + DecodeOne(t).out
    ensures forall k :: p' <= k < buf.Length ==> buf[k] == old(buf[k])
  {
    hide Percent, CAt;
    CharAt(buf[..], q, t, 0);
    InBuffer(buf[..], q, t);
    if buf[q] == '+' || buf[q] == NBSP {
      buf[p] := ' ';
      return p + 1, q + 1;
    }
    if buf[q] != '%' {
      buf[p] := buf[q];
      return p + 1, q + 1;
    }
    Tail(buf[..], q, t, 1);
    var c;
    q', c := ReadPercent(buf, q + 1, t[1..]);
    p' := p;
    if c == 160 {
      c := 32;
    }
    if c != 0 && c != 13 {
      buf[p] := c as char;
      p' := p + 1;
    }
  }

  lemma DecodeStep(t: string)
    requires t != ""
    ensures Decode(t) == DecodeOne(t).out + Decode(t[DecodeOne(t).used..])
  {}

  lemma DecodeNoNul(t: string)
    requires '\0' !in t && t != ""
    ensures '\0' !in DecodeOne(t).out
  {}

  lemma Suffix(m: seq<char>, after: seq<char>, q: nat, t: string, k: nat, from: nat)
    requires CAt(m, q, t) && k <= |t| && |after| == |m| && from <= q + k
    requires forall i :: from <= i < |m| ==> after[i] == m[i]
    ensures CAt(after, q + k, t[k..])
  {
    Tail(m, q, t, k);
    CAtSame(m, after, q + k, t[k..]);
  }

  /** The decoding in place of s at start, from the memory was: read up to q, with t left, and
      written up to p. */
  ghost predicate Decoding(was: seq<char>, m: seq<char>, start: nat, s: string, p: nat, q: nat, t: string,
                           done: string) {
    && start <= p <= q && q + |t| == start + |s| < |m| == |was|
    && CAt(m, q, t) && '\0' !in done
    && done + Decode(t) == Decode(s) && m[start..p] == done
    && forall k :: 0 <= k < |m| && (k < start || k >= q) ==> m[k] == was[k]
  }

  lemma DecodingStep(was: seq<char>, m: seq<char>, after: seq<char>,
                     start: nat, s: string, p: nat, q: nat, t: string, done: string, p': nat)
    requires Decoding(was, m, start, s, p, q, t, done) && t != "" && |after| == |m|
    requires p' == p + |DecodeOne(t).out| <= q + DecodeOne(t).used && after[..p'] == m[..p] + DecodeOne(t).out
    requires forall k :: p' <= k < |m| ==> after[k] == m[k]
    ensures Decoding(was, after, start, s, p', q + DecodeOne(t).used, t[DecodeOne(t).used..], done + DecodeOne(t).out)
  {
    hide Decode, DecodeOne, CAt;
    var d := DecodeOne(t);
    DecodeStep(t);
    NoNul(m, q, t);
    DecodeNoNul(t);
    Regroup(done, d.out, Decode(t[d.used..]));
    Suffix(m, after, q, t, d.used, p');
    WrittenOn(m, after, start, p, d.out, p');
  }

  lemma NoNul(m: seq<char>, q: nat, t: string)
    requires CAt(m, q, t)
    ensures '\0' !in t
  {}

  lemma DecodingDone(was: seq<char>, m: seq<char>, start: nat, s: string, p: nat, q: nat, t: string, done: string)
    requires Decoding(was, m, start, s, p, q, t, done) && t == ""
    ensures p < |m| && CAt(m[p := '\0'], start, Decode(s))
    ensures forall k :: 0 <= k < |m| && (k < start || k >= start + |s|) ==> m[p := '\0'][k] == was[k]
  {
    hide Decode;
    DecodeNothing();
    assert done + "" == done == Decode(s);
    var after := m[p := '\0'];
    assert after[start..p] == done && start + |done| == p;
  }

  method DecodeTurn(buf: array<char>, p: nat, q: nat, ghost was: seq<char>, ghost start: nat, ghost s: string,
                    ghost t: string, ghost done: string)
    returns (p': nat, q': nat, ghost t': string, ghost done': string)
    requires Decoding(was, buf[..], start, s, p, q, t, done) && CAt(buf[..], q, t) && t != "" && p <= q
    modifies buf
    ensures Decoding(was, buf[..], start, s, p', q', t', done') && |t'| < |t|
  {
    hide Decode, DecodeOne, Decoding, CAt;
    ghost var before := buf[..];
    ghost var d := DecodeOne(t);
    p', q' := DecodeChar(buf, p, q, t);
    DecodingStep(was, before, buf[..], start, s, p, q, t, done, p');
    t', done' := t[d.used..], done + d.out;
  }

  /** The string is decoded where it stands; nothing before it or behind it is touched. */
  method UrlDecode(buf: array<char>, start: nat, ghost s: string)
    requires CAt(buf[..], start, s)
    modifies buf
    ensures CAt(buf[..], start, Decode(s))
    ensures forall k :: 0 <= k < buf.Length && (k < start || k >= start + |s|) ==> buf[k] == old(buf[k])
  {
    hide Decode, Decoding, CAt;
    var p: nat, q: nat := start, start;
    ghost var t, done := s, "";
    ghost var was := buf[..];
    DecodingStart(was, start, s);
    DecodingAt(was, buf[..], start, s, p, q, t, done);
    while buf[q] != '\0'
      invariant Decoding(was, buf[..], start, s, p, q, t, done)
      invariant q + |t| < buf.Length && CAt(buf[..], q, t) && p <= q
      decreases |t|
    {
      CharAt(buf[..], q, t, 0);
      p, q, t, done := DecodeTurn(buf, p, q, was, start, s, t, done);
      DecodingAt(was, buf[..], start, s, p, q, t, done);
    }
    CharAt(buf[..], q, t, 0);
    DecodingDone(was, buf[..], start, s, p, q, t, done);
    PutNul(buf, p);
  }

  method PutNul(buf: array<char>, p: nat)
    requires p < buf.Length
    modifies buf
    ensures buf[..] == old(buf[..])[p := '\0']
  {
    buf[p] := '\0';
  }

  lemma DecodingStart(was: seq<char>, start: nat, s: string)
    requires CAt(was, start, s)
    ensures Decoding(was, was, start, s, start, start, s, "")
  {
    NothingBefore(s);
  }

  lemma NothingBefore(s: string)
    ensures "" + Decode(s) == Decode(s)
  {}

  lemma DecodingAt(was: seq<char>, m: seq<char>, start: nat, s: string, p: nat, q: nat, t: string, done: string)
    requires Decoding(was, m, start, s, p, q, t, done)
    ensures q + |t| < |m| && CAt(m, q, t) && p <= q
  {}

  lemma DecodeNothing()
    ensures Decode("") == ""
  {}

  lemma WrittenOn(before: seq<char>, after: seq<char>, start: nat, at: nat, out: string, p: nat)
    requires start <= at <= |before| && at <= p <= |after| && after[..p] == before[..at] + out
    ensures after[start..p] == before[start..at] + out
    ensures forall k :: 0 <= k < start ==> after[k] == before[k]
  {
    assert after[start..p] == after[..p][start..];
    forall k | 0 <= k < start
      ensures after[k] == before[k]
    {
      assert after[..p][k] == before[..at][k];
    }
  }

  // ----- cgi_setup_1

  /** struct cgi_arglist: where the name and the value stand; a missing value is a constant. */
  datatype Arg = Arg(name: nat, value: Option<nat>)

  ghost predicate PairAt(m: seq<char>, a: Arg, p: Pair) {
    CAt(m, a.name, p.name) && if a.value.Some? then CAt(m, a.value.value, p.value) else p.value == ""
  }

  ghost predicate Holds(m: seq<char>, list: seq<Arg>, pairs: seq<Pair>) {
    |list| == |pairs| && forall k :: 0 <= k < |list| ==> PairAt(m, list[k], pairs[k])
  }

  lemma InPrefix(m: seq<char>, from: nat, s: string, b: nat)
    requires CAt(m, from, s) && from + |s| < b <= |m|
    ensures CAt(m[..b], from, s)
  {
    assert m[..b][from..from + |s|] == m[from..from + |s|];
  }

  lemma MorePrefix(m: seq<char>, b: nat, after: seq<char>, b': nat, from: nat, s: string)
    requires b <= |m| && b <= b' <= |after| && CAt(m[..b], from, s)
    requires forall k :: 0 <= k < b ==> after[k] == m[k]
    ensures CAt(after[..b'], from, s)
  {
    assert after[..b'][from..from + |s|] == m[..b][from..from + |s|];
  }

  lemma HoldsMore(m: seq<char>, b: nat, after: seq<char>, b': nat, list: seq<Arg>, pairs: seq<Pair>)
    requires b <= |m| && b <= b' <= |after| && Holds(m[..b], list, pairs)
    requires forall k :: 0 <= k < b ==> after[k] == m[k]
    ensures Holds(after[..b'], list, pairs)
  {
    hide CAt;
    forall k | 0 <= k < |list|
      ensures PairAt(after[..b'], list[k], pairs[k])
    {
      assert PairAt(m[..b], list[k], pairs[k]);
      MorePrefix(m, b, after, b', list[k].name, pairs[k].name);
      if list[k].value.Some? {
        MorePrefix(m, b, after, b', list[k].value.value, pairs[k].value);
      }
    }
  }

  /** A name and its value, each decoded where it stands. */
  method DecodeBoth(buf: array<char>, q: nat, e: nat, ghost seg: string)
    requires e < |seg| && CAt(buf[..], q, seg[..e]) && CAt(buf[..], q + e + 1, seg[e + 1..])
    modifies buf
    ensures q + |seg| < buf.Length
    ensures forall k :: 0 <= k < buf.Length && (k < q || k >= q + |seg|) ==> buf[k] == old(buf[k])
    ensures var b := q + |seg| + 1;
      CAt(buf[..][..b], q, Decode(seg[..e])) && CAt(buf[..][..b], q + e + 1, Decode(seg[e + 1..]))
  {
    hide Decode, CAt;
    ghost var name, value := seg[..e], seg[e + 1..];
    InBuffer(buf[..], q + e + 1, value);
    ghost var m0 := buf[..];
    UrlDecode(buf, q + e + 1, value);
    ghost var m1 := buf[..];
    CAtSame(m0, m1, q, name);
    UrlDecode(buf, q, name);
    CAtSame(m1, buf[..], q + e + 1, Decode(value));
    InPrefix(buf[..], q, Decode(name), q + |seg| + 1);
    InPrefix(buf[..], q + e + 1, Decode(value), q + |seg| + 1);
  }

  /** One pair, between two ampersands: split at the first equals sign, and decoded. */
  method DecodePair(buf: array<char>, q: nat, ghost seg: string) returns (a: Arg)
    requires CAt(buf[..], q, seg)
    modifies buf
    ensures q + |seg| < buf.Length
    ensures forall k :: 0 <= k < buf.Length && (k < q || k >= q + |seg|) ==> buf[k] == old(buf[k])
    ensures PairAt(buf[..][..q + |seg| + 1], a, ParsePair(seg))
  {
    hide Decode, CAt, Find;
    InBuffer(buf[..], q, seg);
    ghost var m := buf[..];
    var e := FindChar(buf, q, '=', seg);
    CharAt(m, q, seg, e - q);
    if buf[e] == '\0' {
      UrlDecode(buf, q, seg);
      InPrefix(buf[..], q, Decode(seg), q + |seg| + 1);
      return Arg(q, None);
    }
    CutAt(m, q, seg, e - q);
    PutNul(buf, e);
    DecodeBoth(buf, q, e - q, seg);
    return Arg(q, Some(e + 1));
  }

  method CutSegment(buf: array<char>, q: nat, ghost t: string) returns (n: nat, next: nat)
    requires CAt(buf[..], q, t)
    modifies buf
    ensures n == q + Find(t, '&') && n <= next && (AfterAmp(t) != "" ==> n < next)
    ensures CAt(buf[..], q, t[..Find(t, '&')]) && CAt(buf[..], next, AfterAmp(t))
    ensures forall k :: 0 <= k < q ==> buf[k] == old(buf[k])
  {
    hide CAt, Find;
    ghost var m := buf[..];
    n := FindChar(buf, q, '&', t);
    CharAt(m, q, t, n - q);
    InBuffer(m, q, t);
    next := n;
    if buf[n] != '\0' {
      CutAt(m, q, t, n - q);
      PutNul(buf, n);
      next := n + 1;
    } else {
      assert t[..n - q] == t;
      Tail(m, q, t, |t|);
      assert t[|t|..] == "";
    }
  }

  /** One turn of the loop: a pair is cut off the query at q, of which t is left. */
  method Segment(buf: array<char>, q: nat, ghost t: string) returns (a: Arg, next: nat, ghost b: nat)
    requires CAt(buf[..], q, t)
    modifies buf
    ensures q < b <= buf.Length && (AfterAmp(t) != "" ==> b <= next)
    ensures forall k :: 0 <= k < q ==> buf[k] == old(buf[k])
    ensures CAt(buf[..], next, AfterAmp(t))
    ensures PairAt(buf[..][..b], a, ParsePair(t[..Find(t, '&')]))
  {
    hide CAt, Find, PairAt, ParsePair, AfterAmp;
    var n;
    n, next := CutSegment(buf, q, t);
    ghost var m := buf[..];
    InBuffer(m, next, AfterAmp(t));
    a := DecodePair(buf, q, t[..Find(t, '&')]);
    b := n + 1;
    CAtSame(m, buf[..], next, AfterAmp(t));
  }

  /** What is left of the query, the pairs so far, and the end of the memory that they take up. */
  datatype Left = Left(t: string, pairs: seq<Pair>, b: nat)

  /** The list stands for the pairs so far, and the query is left from q on. */
  ghost predicate Building(query: string, m: seq<char>, list: seq<Arg>, q: nat, left: Left) {
    && q < |m| && CAt(m, q, left.t) && left.b <= |m| && (left.t != "" ==> left.b <= q)
    && Holds(m[..left.b], list, left.pairs) && Parse(query, []) == Parse(left.t, left.pairs)
  }

  lemma BuildingStarts(query: string, m: seq<char>)
    requires CAt(m, 0, query)
    ensures Building(query, m, [], 0, Left(query, [], 0))
  {
    NoneHeld(m[..0]);
  }

  lemma NotAtEnd(query: string, m: seq<char>, list: seq<Arg>, q: nat, left: Left)
    requires Building(query, m, list, q, left) && m[q] != '\0'
    ensures CAt(m, q, left.t) && left.t != ""
  {}

  lemma BuildingEnds(query: string, m: seq<char>, list: seq<Arg>, q: nat, left: Left)
    requires Building(query, m, list, q, left) && m[q] == '\0'
    ensures Holds(m, list, Parse(query, []))
  {
    CharAt(m, q, left.t, 0);
    hide CAt, Parse, Holds;
    ParseNothing(left.pairs);
    HoldsMore(m, left.b, m, |m|, list, left.pairs);
    assert m[..|m|] == m;
  }

  /** A turn of the loop in cgi_setup_1; the new pair is to go to the front of the list. */
  method AddPair(buf: array<char>, list: seq<Arg>, q: nat, ghost query: string, ghost left: Left)
    returns (a: Arg, next: nat, ghost left': Left)
    requires Building(query, buf[..], list, q, left) && left.t != ""
    modifies buf
    ensures next < buf.Length && |left'.t| < |left.t| && Building(query, buf[..], [a] + list, next, left')
  {
    hide CAt, Parse, Holds, PairAt, ParsePair, AfterAmp;
    ghost var m, pair := buf[..], ParsePair(left.t[..Find(left.t, '&')]);
    ghost var b;
    a, next, b := Segment(buf, q, left.t);
    InBuffer(buf[..], next, AfterAmp(left.t));
    HoldsMore(m, left.b, buf[..], b, list, left.pairs);
    HoldsFront(buf[..][..b], a, pair, list, left.pairs);
    ParseTurn(left.t, left.pairs);
    left' := Left(AfterAmp(left.t), [pair] + left.pairs, b);
  }

  class Request {
    const args: array<char>
    var list: seq<Arg>

    /** The pairs that the list stands for. */
    ghost predicate Represents(pairs: seq<Pair>)
      reads this, args
    {
      Holds(args[..], list, pairs)
    }

    /** cgi_setup_1, for a query that is there: new pairs go to the front of the list. */
    constructor (query: string)
      requires '\0' !in query
      ensures Represents(Parse(query, [])) && fresh(args)
    {
      var buf := new char[|query| + 1];
      args := buf;
      list := [];
      new;
      StrCpy(args, query);
      hide Building, Holds, Parse;
      var q: nat := 0;
      ghost var left := Left(query, [], 0);
      BuildingStarts(query, args[..]);
      while args[q] != '\0'
        invariant q < args.Length && Building(query, args[..], list, q, left)
        decreases |left.t|
      {
        NotAtEnd(query, args[..], list, q, left);
        var a;
        a, q, left := AddPair(args, list, q, query, left);
        list := [a] + list;
      }
      BuildingEnds(query, args[..], list, q, left);
    }

    method NameIs(i: nat, arg: string, ghost pairs: seq<Pair>) returns (same: bool)
      requires Represents(pairs) && i < |list| && '\0' !in arg
      ensures same <==> pairs[i].name == arg
    {
      hide CAt;
      assert PairAt(args[..], list[i], pairs[i]);
      var s := ReadString(args, list[i].name, pairs[i].name);
      return s == arg;
    }

    method ValueOf(i: nat, ghost pairs: seq<Pair>) returns (value: string)
      requires Represents(pairs) && i < |list|
      ensures value == pairs[i].value
    {
      hide CAt;
      assert PairAt(args[..], list[i], pairs[i]);
      if list[i].value.None? {
        return "";
      }
      value := ReadString(args, list[i].value.value, pairs[i].value);
    }

    /** cgi. */
    method Get(arg: string, ghost pairs: seq<Pair>) returns (value: string)
      requires Represents(pairs) && '\0' !in arg
      ensures value == Lookup(pairs, arg)
    {
      hide Holds;
      var i: nat := 0;
      SameLength(args[..], list, pairs);
      while i < |list|
        invariant i <= |list| && Lookup(pairs, arg) == Lookup(pairs[i..], arg)
      {
        assert pairs[i..][1..] == pairs[i + 1..];
        var same := NameIs(i, arg, pairs);
        if same {
          value := ValueOf(i, pairs);
          return;
        }
        i := i + 1;
      }
      return "";
    }

    /** The first loop of cgi_multiple, which finds the size of the buffer. */
    method Measure(arg: string, sep: string, ghost pairs: seq<Pair>) returns (l: nat)
      requires Represents(pairs) && '\0' !in arg
      ensures l == BufferSize(Values(pairs, arg), sep)
    {
      hide Holds, BufferSize, Values;
      l := 1;
      var i: nat := 0;
      SameLength(args[..], list, pairs);
      assert pairs[0..] == pairs;
      SizeNothing(sep);
      while i < |list|
        invariant i <= |list| && BufferSize(Values(pairs, arg), sep) == l + BufferSize(Values(pairs[i..], arg), sep) - 1
      {
        SizeStep(pairs, i, arg, sep);
        var same := NameIs(i, arg, pairs);
        if same {
          var value := ValueOf(i, pairs);
          l := l + |value| + |sep|;
        }
        i := i + 1;
      }
      assert pairs[i..] == [];
      SizeNone(arg, sep);
    }

    /** cgi_multiple: from the end of the list to its front. */
    method Multiple(arg: string, sep: string, ghost pairs: seq<Pair>) returns (buf: array<char>)
      requires Represents(pairs) && '\0' !in arg && '\0' !in sep
      ensures fresh(buf) && buf.Length == BufferSize(Values(pairs, arg), sep)
      ensures CAt(buf[..], 0, Written(Values(pairs, arg), sep))
    {
      hide Holds, BufferSize, Values, Written, CAt;
      SameLength(args[..], list, pairs);
      ValuesNoNul(args[..], list, pairs);
      var l := Measure(arg, sep, pairs);
      buf := new char[l];
      PutNul(buf, 0);
      EmptyAt(buf[..]);
      var i := |list|;
      assert pairs[i..] == [];
      WrittenNone(arg, sep);
      while i > 0
        invariant i <= |list| && Represents(pairs)
        invariant CAt(buf[..], 0, Written(Values(pairs[i..], arg), sep))
        invariant buf.Length == BufferSize(Values(pairs, arg), sep)
      {
        i := i - 1;
        ValuesStep(pairs, i, arg);
        SizesGrow(pairs, i, arg, sep);
        ghost var before := Values(pairs[i + 1..], arg);
        var same := NameIs(i, arg, pairs);
        if same {
          var value := ValueOf(i, pairs);
          WrittenSnoc(before, value, sep);
          AddValue(buf, value, sep, Written(before, sep));
        }
      }
      assert pairs[0..] == pairs;
    }
  }

  /** One value, with the separator before it unless the buffer is still empty. */
  method AddValue(buf: array<char>, value: string, sep: string, ghost s: string)
    requires CAt(buf[..], 0, s) && '\0' !in value && '\0' !in sep
    requires |s + (if s != "" then sep else "") + value| < buf.Length
    modifies buf
    ensures CAt(buf[..], 0, s + (if s != "" then sep else "") + value)
  {
    CharAt(buf[..], 0, s, 0);
    InBuffer(buf[..], 0, s);
    hide CAt;
    if buf[0] != '\0' {
      StrCat(buf, sep, s);
      StrCat(buf, value, s + sep);
    } else {
      StrCat(buf, value, s);
      assert s + "" + value == s + value;
    }
  }

  method StrCat(buf: array<char>, t: string, ghost s: string)
    requires CAt(buf[..], 0, s) && '\0' !in t && |s| + |t| < buf.Length
    modifies buf
    ensures CAt(buf[..], 0, s + t)
  {
    var end := StrLen(buf, 0, s);
    ghost var m := buf[..];
    forall k | 0 <= k < |t| {
      buf[end + k] := t[k];
    }
    buf[end + |t|] := '\0';
    assert forall k :: 0 <= k < |s| ==> m[0..|s|][k] == s[k];
    assert buf[..][0..|s + t|] == s + t;
  }

  method StrLen(buf: array<char>, at: nat, ghost s: string) returns (end: nat)
    requires CAt(buf[..], at, s)
    ensures end == at + |s|
  {
    end := at;
    ghost var rest := s;
    while true
      invariant CAt(buf[..], end, rest) && at + |s| == end + |rest|
      decreases |rest|
    {
      CharAt(buf[..], end, rest, 0);
      if buf[end] == '\0' {
        return;
      }
      Tail(buf[..], end, rest, 1);
      rest := rest[1..];
      end := end + 1;
    }
  }

  method ReadString(buf: array<char>, at: nat, ghost s: string) returns (r: string)
    requires CAt(buf[..], at, s)
    ensures r == s
  {
    var end := StrLen(buf, at, s);
    r := buf[at..end];
    assert r == buf[..][at..at + |s|];
  }

  lemma SameLength(m: seq<char>, list: seq<Arg>, pairs: seq<Pair>)
    requires Holds(m, list, pairs)
    ensures |list| == |pairs|
  {}

  lemma EmptyAt(m: seq<char>)
    requires |m| > 0 && m[0] == '\0'
    ensures CAt(m, 0, "")
  {}

  lemma ValuesNoNul(m: seq<char>, list: seq<Arg>, pairs: seq<Pair>)
    requires Holds(m, list, pairs)
    ensures forall k :: 0 <= k < |pairs| ==> '\0' !in pairs[k].value
  {
    forall k | 0 <= k < |pairs|
      ensures '\0' !in pairs[k].value
    {
      assert PairAt(m, list[k], pairs[k]);
    }
  }

  lemma ValuesStep(pairs: seq<Pair>, i: nat, arg: string)
    requires i < |pairs|
    ensures Values(pairs[i..], arg) ==
            if pairs[i].name == arg then Values(pairs[i + 1..], arg) + [pairs[i].value] else Values(pairs[i + 1..], arg)
  {
    assert pairs[i..][1..] == pairs[i + 1..];
    assert Values(pairs[i + 1..], arg) + [] == Values(pairs[i + 1..], arg);
  }

  lemma SizeNothing(sep: string)
    ensures BufferSize([], sep) == 1
  {}

  lemma SizeNone(arg: string, sep: string)
    ensures BufferSize(Values([], arg), sep) == 1
  {}

  lemma SizeSnoc(values: seq<string>, value: string, sep: string)
    ensures BufferSize(values + [value], sep) == BufferSize(values, sep) + |value| + |sep|
  {
    assert (values + [value])[..|values|] == values;
  }

  lemma SizeStep(pairs: seq<Pair>, i: nat, arg: string, sep: string)
    requires i < |pairs|
    ensures BufferSize(Values(pairs[i..], arg), sep) ==
            BufferSize(Values(pairs[i + 1..], arg), sep) +
            if pairs[i].name == arg then |pairs[i].value| + |sep| else 0
  {
    hide BufferSize, Values;
    ValuesStep(pairs, i, arg);
    SizeSnoc(Values(pairs[i + 1..], arg), pairs[i].value, sep);
  }

  /** What is written by any point fits the buffer for the whole. */
  lemma {:induction false} SizesGrow(pairs: seq<Pair>, i: nat, arg: string, sep: string)
    requires i <= |pairs|
    ensures |Written(Values(pairs[i..], arg), sep)| < BufferSize(Values(pairs[i..], arg), sep)
    ensures BufferSize(Values(pairs[i..], arg), sep) <= BufferSize(Values(pairs, arg), sep)
    decreases i
  {
    hide BufferSize, Values, Written;
    WrittenFits(Values(pairs[i..], arg), sep);
    if i == 0 {
      assert pairs[0..] == pairs;
    } else {
      SizesGrow(pairs, i - 1, arg, sep);
      SizeStep(pairs, i - 1, arg, sep);
    }
  }

  lemma WrittenNone(arg: string, sep: string)
    ensures Written(Values([], arg), sep) == ""
  {}

  lemma WrittenSnoc(before: seq<string>, value: string, sep: string)
    ensures var w := Written(before, sep);
      Written(before + [value], sep) == w + (if w != "" then sep else "") + value
  {
    assert (before + [value])[..|before|] == before;
  }

  method StrCpy(buf: array<char>, s: string)
    requires buf.Length == |s| + 1 && '\0' !in s
    modifies buf
    ensures CAt(buf[..], 0, s)
  {
    forall k | 0 <= k < |s| {
      buf[k] := s[k];
    }
    buf[|s|] := '\0';
    assert buf[..][0..|s|] == s;
  }

  lemma NoneHeld(m: seq<char>)
    ensures Holds(m, [], [])
  {}

  lemma HoldsFront(m: seq<char>, a: Arg, p: Pair, list: seq<Arg>, pairs: seq<Pair>)
    requires Holds(m, list, pairs) && PairAt(m, a, p)
    ensures Holds(m, [a] + list, [p] + pairs)
  {
    hide PairAt;
  }

  lemma ParseTurn(t: string, pairs: seq<Pair>)
    requires t != ""
    ensures Parse(t, pairs) == Parse(AfterAmp(t), [ParsePair(t[..Find(t, '&')])] + pairs)
    ensures |AfterAmp(t)| < |t|
  {}
}
