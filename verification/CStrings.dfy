/** What the modules share about C strings, in the C locale: a string is held without its NUL. */
module CStrings {

  datatype Option<+T> = None | Some(value: T)

  /** isspace. */
  predicate IsSpace(c: char) {
    c == ' ' || '\t' <= c <= '\r'
  }

  function Lower(c: char): char {
    if 'A' <= c <= 'Z' then c - 'A' + 'a' else c
  }

  /** strcasecmp finds no difference. */
  predicate SameText(a: string, b: string) {
    |a| == |b| && forall k :: 0 <= k < |a| ==> Lower(a[k]) == Lower(b[k])
  }

  /** Two letters are the same in either case, and nothing else is the same as something else. */
  lemma CaseIgnored(a: string, b: string)
    ensures SameText(a, b) <==>
      |a| == |b| && forall k :: 0 <= k < |a| ==>
        || a[k] == b[k]
        || ('A' <= a[k] <= 'Z' && b[k] as int == a[k] as int + 32)
        || ('A' <= b[k] <= 'Z' && a[k] as int == b[k] as int + 32)
  {}

  lemma SpaceIs(c: char)
    ensures IsSpace(c) <==> c == ' ' || c == '\t' || c == '\n' || c == '\r' || c as int == 11 || c as int == 12
  {}

  lemma SameTextTransfers(a: string, b: string, c: string)
    requires SameText(a, b)
    ensures SameText(a, c) <==> SameText(b, c)
  {}

  lemma SameTextSwaps(a: string, b: string)
    ensures SameText(a, b) ==> SameText(b, a)
  {}

  lemma Regroup<T>(a: seq<T>, b: seq<T>, c: seq<T>)
    ensures a + b + c == a + (b + c)
  {}

  lemma Further<T>(s: seq<T>, i: nat, j: nat)
    requires i <= |s| && j <= |s| - i
    ensures s[i..][j..] == s[i + j..]
  {}

  function SkipSpaces(s: string): (r: string)
    ensures |r| <= |s| && (r == "" || !IsSpace(r[0]))
  {
    if s != "" && IsSpace(s[0]) then SkipSpaces(s[1..]) else s
  }

  lemma SkipNothing(s: string)
    requires s == "" || !IsSpace(s[0])
    ensures SkipSpaces(s) == s
  {}

  method SkipBlanks(text: string, field: nat) returns (p: nat)
    requires field <= |text|
    ensures field <= p <= |text| && text[p..] == SkipSpaces(text[field..])
  {
    p := field;
    while p < |text| && IsSpace(text[p])
      invariant field <= p <= |text| && SkipSpaces(text[field..]) == SkipSpaces(text[p..])
    {
      assert text[p..][1..] == text[p + 1..];
      p := p + 1;
    }
  }
}
