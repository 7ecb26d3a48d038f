/** MIME headers with parameters, wmail/gpglib/mimegpgheader.c: parsing, printing, and the
    list of parameters in between.  Strings are C strings without their NUL. */
module MimeHeader {
  import opened CStrings

  /** struct mime_attribute: a parameter, and its value if it has one. */
  datatype Attr = Attr(name: string, value: Option<string>)

  datatype Fields = Fields(name: string, attrs: seq<Attr>)

  // ----- the grammar

  /** striptrlspc. */
  function Trim(t: string): (r: string)
    ensures r <= t && (r == "" || !IsSpace(r[|r| - 1]))
  {
    if t != "" && IsSpace(t[|t| - 1]) then Trim(t[..|t| - 1]) else t
  }

  /** The header's own name ends at a semicolon, a parameter's also at an equals sign. */
  predicate EndsName(c: char, parameter: bool) {
    c == ';' || (c == '=' && parameter)
  }

  function NameLength(t: string, parameter: bool): (n: nat)
    ensures n <= |t| && (n == |t| || EndsName(t[n], parameter))
    ensures forall k :: 0 <= k < n ==> !EndsName(t[k], parameter)
  {
    if t != "" && !EndsName(t[0], parameter) then 1 + NameLength(t[1..], parameter) else 0
  }

  datatype Scanned = Scanned(text: string, rest: string)

  /** A value up to a semicolon outside quotes; a backslash takes the next character as it is. */
  function ScanValue(t: string, quote: bool): (r: Scanned)
    ensures |r.rest| <= |t| && (r.rest == "" || r.rest[0] == ';')
    decreases |t|
  {
    if t == "" || (t[0] == ';' && !quote) then Scanned("", t)
    else if t[0] == '"' then ScanValue(t[1..], !quote)
    else
      var u := if t[0] == '\\' && |t| > 1 then t[1..] else t;
      var r := ScanValue(u[1..], quote);
      Scanned([u[0]] + r.text, r.rest)
  }

  function ValueOf(text: string): Option<string> {
    if Trim(text) == "" then None else Some(Trim(text))
  }

  function AfterEquals(t: string): (r: string)
    ensures |r| <= |t|
  {
    SkipSpaces(if t != "" && t[0] == '=' then t[1..] else t)
  }

  function AfterSemicolon(t: string): string {
    if t != "" && t[0] == ';' then t[1..] else t
  }

  function AfterValue(t: string): (r: string)
    ensures |r| <= |t|
  {
    ScanValue(AfterEquals(t[NameLength(t, true)..]), false).rest
  }

  /** What follows a parameter; it is always less than the parameter began with. */
  function AfterParameter(t: string): (r: string)
    requires t != ""
    ensures |r| < |t|
  {
    AfterSemicolon(AfterValue(t))
  }

  function Parameter(t: string): Attr {
    var n := NameLength(t, true);
    Attr(Trim(t[..n]), ValueOf(ScanValue(AfterEquals(t[n..]), false).text))
  }

  function ParseAttrs(t: string): seq<Attr>
    decreases |t|
  {
    if t == "" then []
    else if IsSpace(t[0]) then ParseAttrs(t[1..])
    else [Parameter(t)] + ParseAttrs(AfterParameter(t))
  }

  function Parse(t: string): Fields {
    var u := SkipSpaces(t);
    var n := NameLength(u, false);
    Fields(Trim(u[..n]), ParseAttrs(AfterSemicolon(u[n..])))
  }

  // ----- printing

  predicate IsPlain(c: char) {
    'a' <= c <= 'z' || 'A' <= c <= 'Z' || '0' <= c <= '9' || c == '-' || c == '_'
  }

  function EscapeOne(c: char): string {
    if c == '"' || c == '\\' then ['\\', c] else [c]
  }

  function Escape(v: string): string {
    if v == "" then "" else EscapeOne(v[0]) + Escape(v[1..])
  }

  predicate Plain(v: string) {
    forall k :: 0 <= k < |v| ==> IsPlain(v[k])
  }

  function PrintValue(v: string): string {
    if Plain(v) then v else "\"" + Escape(v) + "\""
  }

  function PrintGiven(value: Option<string>): string {
    if value.Some? then "=" + PrintValue(value.value) else ""
  }

  function PrintAttr(a: Attr): string {
    "; " + a.name + PrintGiven(a.value)
  }

  function PrintAttrs(attrs: seq<Attr>): string {
    if attrs == [] then "" else PrintAttr(attrs[0]) + PrintAttrs(attrs[1..])
  }

  function Print(h: Fields): string {
    h.name + PrintAttrs(h.attrs)
  }

  /** Letters, digits, dashes and underlines are printed as they are; anything else is quoted, with
      a backslash before quotation marks and backslashes alone. */
  lemma PrintedAs(v: string)
    ensures (forall c :: c in v ==> 'a' <= c <= 'z' || 'A' <= c <= 'Z' || '0' <= c <= '9' || c == '-' || c == '_') ==>
      PrintValue(v) == v
    ensures (exists c :: c in v && !('a' <= c <= 'z' || 'A' <= c <= 'Z' || '0' <= c <= '9' || c == '-' || c == '_')) ==>
      PrintValue(v) == "\"" + Escape(v) + "\""
    ensures '"' !in v && '\\' !in v ==> Escape(v) == v
  {
    hide Escape;
    assert forall k :: 0 <= k < |v| ==> v[k] in v;
    if '"' !in v && '\\' !in v {
      EscapesNothing(v);
    }
  }

  lemma {:induction false} EscapesNothing(v: string)
    requires '"' !in v && '\\' !in v
    ensures Escape(v) == v
  {
    if v != "" {
      EscapesNothing(v[1..]);
    }
  }

  // ----- blanks

  /** Blanks before a header, before a parameter, and behind an equals sign make no difference. */
  lemma BlankBefore(c: char, t: string)
    requires IsSpace(c)
    ensures Parse([c] + t) == Parse(t) && ParseAttrs([c] + t) == ParseAttrs(t)
    ensures AfterEquals("=" + ([c] + t)) == AfterEquals("=" + t)
  {
    hide ParseAttrs, NameLength;
    assert ([c] + t)[1..] == t;
    assert ("=" + ([c] + t))[1..] == [c] + t && ("=" + t)[1..] == t;
    SpacesSkipped(c, t);
    AttrsAfterBlank(c, t);
  }

  lemma SpacesSkipped(c: char, t: string)
    requires IsSpace(c)
    ensures SkipSpaces([c] + t) == SkipSpaces(t)
  {
    assert ([c] + t)[1..] == t;
  }

  lemma AttrsAfterBlank(c: char, t: string)
    requires IsSpace(c)
    ensures ParseAttrs([c] + t) == ParseAttrs(t)
  {
    hide Parameter, AfterParameter;
    assert ([c] + t)[1..] == t;
  }

  // ----- parsing undoes printing

  predicate Trimmed(s: string) {
    s == "" || (!IsSpace(s[0]) && !IsSpace(s[|s| - 1]))
  }

  predicate GoodAttrName(s: string) {
    s != "" && Trimmed(s) && ';' !in s && '=' !in s
  }

  predicate GoodNames(h: Fields) {
    Trimmed(h.name) && ';' !in h.name && forall k :: 0 <= k < |h.attrs| ==> GoodAttrName(h.attrs[k].name)
  }

  /** What is left of a value: blanks at its end are lost, and an empty value is none. */
  function Kept(a: Attr): Attr {
    a.(value := if a.value.Some? then ValueOf(a.value.value) else None)
  }

  function KeptAll(attrs: seq<Attr>): seq<Attr> {
    if attrs == [] then [] else [Kept(attrs[0])] + KeptAll(attrs[1..])
  }

  lemma TrimTrimmed(s: string)
    requires Trimmed(s)
    ensures Trim(s) == s
  {}

  lemma {:induction false} NameLengthIs(name: string, rest: string, parameter: bool)
    requires forall k :: 0 <= k < |name| ==> !EndsName(name[k], parameter)
    requires rest == "" || EndsName(rest[0], parameter)
    ensures NameLength(name + rest, parameter) == |name|
  {
    if name == "" {
      assert name + rest == rest;
    } else {
      assert (name + rest)[1..] == name[1..] + rest;
      NameLengthIs(name[1..], rest, parameter);
    }
  }

  lemma ScanStop(t: string)
    requires t == "" || t[0] == ';'
    ensures ScanValue(t, false) == Scanned("", t)
  {}

  lemma ScanQuote(t: string, quote: bool)
    ensures ScanValue("\"" + t, quote) == ScanValue(t, !quote)
  {
    assert ("\"" + t)[1..] == t;
  }

  /** A character that means nothing special, or is escaped, belongs to the value. */
  lemma ScanChar(c: char, t: string, quote: bool)
    requires c != '"' && c != '\\' && (c != ';' || quote)
    ensures ScanValue([c] + t, quote) == var r := ScanValue(t, quote); Scanned([c] + r.text, r.rest)
  {
    assert ([c] + t)[1..] == t;
  }

  lemma ScanEscape(c: char, t: string, quote: bool)
    ensures ScanValue(['\\', c] + t, quote) == var r := ScanValue(t, quote); Scanned([c] + r.text, r.rest)
  {
    var u := ['\\', c] + t;
    assert u[1..] == [c] + t && ([c] + t)[1..] == t;
  }

  lemma {:induction false} ScanPlain(v: string, rest: string)
    requires Plain(v)
    requires rest == "" || rest[0] == ';'
    ensures ScanValue(v + rest, false) == Scanned(v, rest)
  {
    hide ScanValue;
    if v == "" {
      assert v + rest == rest;
      ScanStop(rest);
    } else {
      assert IsPlain(v[0]);
      assert v + rest == [v[0]] + (v[1..] + rest);
      ScanChar(v[0], v[1..] + rest, false);
      ScanPlain(v[1..], rest);
    }
  }

  lemma ScanOne(c: char, t: string)
    ensures ScanValue(EscapeOne(c) + t, true) == var r := ScanValue(t, true); Scanned([c] + r.text, r.rest)
  {
    hide ScanValue;
    if c == '"' || c == '\\' {
      ScanEscape(c, t, true);
    } else {
      ScanChar(c, t, true);
    }
  }

  lemma {:induction false} ScanEscaped(v: string, rest: string)
    requires rest == "" || rest[0] == ';'
    ensures ScanValue(Escape(v) + ("\"" + rest), true) == Scanned(v, rest)
  {
    hide ScanValue, EscapeOne;
    var tail := "\"" + rest;
    if v == "" {
      assert Escape(v) + tail == tail;
      ScanQuote(rest, true);
      ScanStop(rest);
    } else {
      ScanEscaped(v[1..], rest);
      ScanOne(v[0], Escape(v[1..]) + tail);
      assert Escape(v) + tail == EscapeOne(v[0]) + (Escape(v[1..]) + tail);
    }
  }

  lemma ScanPrinted(v: string, rest: string)
    requires rest == "" || rest[0] == ';'
    ensures ScanValue(PrintValue(v) + rest, false) == Scanned(v, rest)
    ensures SkipSpaces(PrintValue(v) + rest) == PrintValue(v) + rest
  {
    hide ScanValue, Escape;
    if Plain(v) {
      ScanPlain(v, rest);
      if v != "" {
        assert IsPlain(v[0]) && (v + rest)[0] == v[0];
      } else {
        assert v + rest == rest;
      }
    } else {
      assert PrintValue(v) + rest == "\"" + (Escape(v) + ("\"" + rest));
      ScanQuote(Escape(v) + ("\"" + rest), false);
      ScanEscaped(v, rest);
    }
  }

  lemma ParameterIs(name: string, tail: string)
    requires GoodAttrName(name) && (tail == "" || tail[0] == ';' || tail[0] == '=')
    ensures var r := ScanValue(AfterEquals(tail), false); var t := name + tail;
      Parameter(t) == Attr(name, ValueOf(r.text)) && AfterParameter(t) == AfterSemicolon(r.rest)
  {
    hide ScanValue, Trim, NameLength, AfterEquals, AfterSemicolon, ValueOf;
    var t := name + tail;
    NameEndsAt(name, tail);
    assert t[..|name|] == name && t[|name|..] == tail;
    TrimTrimmed(name);
  }

  lemma ValuePrinted(value: Option<string>, rest: string)
    requires rest == "" || rest[0] == ';'
    ensures var tail := PrintGiven(value) + rest; var r := ScanValue(AfterEquals(tail), false);
      && (tail == "" || tail[0] == ';' || tail[0] == '=')
      && r.rest == rest && ValueOf(r.text) == if value.Some? then ValueOf(value.value) else None
  {
    hide ScanValue, Trim, PrintValue, SkipSpaces;
    var tail := PrintGiven(value) + rest;
    if value.Some? {
      assert tail[1..] == PrintValue(value.value) + rest;
      ScanPrinted(value.value, rest);
    } else {
      assert tail == rest;
      NoValue(rest);
    }
  }

  lemma ParsePrintedAttr(a: Attr, rest: string)
    requires GoodAttrName(a.name) && (rest == "" || rest[0] == ';')
    ensures var t := PrintAttr(a)[2..] + rest;
      t != "" && !IsSpace(t[0]) && Parameter(t) == Kept(a) && AfterParameter(t) == AfterSemicolon(rest)
  {
    hide ScanValue, PrintGiven, AfterEquals, Parameter, AfterValue, AfterSemicolon, ValueOf;
    ValuePrinted(a.value, rest);
    ParameterIs(a.name, PrintGiven(a.value) + rest);
    assert PrintAttr(a)[2..] + rest == a.name + (PrintGiven(a.value) + rest);
  }

  lemma NameEndsAt(name: string, tail: string)
    requires GoodAttrName(name) && (tail == "" || tail[0] == ';' || tail[0] == '=')
    ensures NameLength(name + tail, true) == |name|
  {
    NameLengthIs(name, tail, true);
  }

  lemma NoValue(rest: string)
    requires rest == "" || rest[0] == ';'
    ensures AfterEquals(rest) == rest && ScanValue(rest, false) == Scanned("", rest) && ValueOf("") == None
  {}

  lemma ParseOne(t: string)
    requires t != "" && !IsSpace(t[0])
    ensures ParseAttrs(" " + t) == [Parameter(t)] + ParseAttrs(AfterParameter(t))
  {
    hide Parameter, AfterParameter;
    assert (" " + t)[1..] == t;
  }

  /** A printed parameter is a semicolon, a blank, and then the parameter. */
  lemma PrintShape(a: Attr, rest: string)
    ensures |PrintAttr(a)| >= 2 && AfterSemicolon(PrintAttr(a) + rest) == " " + (PrintAttr(a)[2..] + rest)
    ensures (PrintAttr(a) + rest)[0] == ';'
  {
    hide PrintGiven;
    var t := PrintAttr(a);
    assert t == "; " + (a.name + PrintGiven(a.value));
    assert t[..2] == "; " && t == "; " + t[2..];
    assert t + rest == ";" + (" " + (t[2..] + rest));
  }

  lemma {:induction false} ParsePrintedAttrs(attrs: seq<Attr>)
    requires forall k :: 0 <= k < |attrs| ==> GoodAttrName(attrs[k].name)
    ensures ParseAttrs(AfterSemicolon(PrintAttrs(attrs))) == KeptAll(attrs)
    ensures PrintAttrs(attrs) == "" || PrintAttrs(attrs)[0] == ';'
  {
    hide Parameter, AfterParameter, AfterSemicolon, GoodAttrName, Kept, PrintAttr, ParseAttrs;
    if attrs != [] {
      var rest := PrintAttrs(attrs[1..]);
      ParsePrintedAttrs(attrs[1..]);
      ParsePrintedAttr(attrs[0], rest);
      PrintShape(attrs[0], rest);
      ParseOne(PrintAttr(attrs[0])[2..] + rest);
    } else {
      NoAttrs();
    }
  }

  lemma NoAttrs()
    ensures ParseAttrs(AfterSemicolon("")) == []
  {}

  /** Printing and parsing again keeps the names, and of the values all that can be kept. */
  lemma ParsePrint(h: Fields)
    requires GoodNames(h)
    ensures Parse(Print(h)) == Fields(h.name, KeptAll(h.attrs))
  {
    hide ParseAttrs, PrintAttrs, KeptAll;
    var rest := PrintAttrs(h.attrs);
    ParsePrintedAttrs(h.attrs);
    assert h.name == "" ==> h.name + rest == rest;
    assert SkipSpaces(Print(h)) == Print(h);
    NameLengthIs(h.name, rest, false);
    assert Print(h)[..|h.name|] == h.name && Print(h)[|h.name|..] == rest;
    TrimTrimmed(h.name);
  }

  /** Exactly the headers come back whole whose values are absent or end in something visible. */
  lemma RoundTrip(h: Fields)
    requires GoodNames(h)
    ensures Parse(Print(h)) == h <==> forall k :: 0 <= k < |h.attrs| ==> Visible(h.attrs[k])
  {
    ParsePrint(h);
    KeptSame(h.attrs);
  }

  predicate Visible(a: Attr) {
    a.value.Some? ==> a.value.value != "" && !IsSpace(a.value.value[|a.value.value| - 1])
  }

  lemma {:induction false} KeptSame(attrs: seq<Attr>)
    ensures KeptAll(attrs) == attrs <==> forall k :: 0 <= k < |attrs| ==> Visible(attrs[k])
  {
    if attrs != [] {
      KeptSame(attrs[1..]);
      KeptOne(attrs[0]);
      hide Kept, Visible;
      assert KeptAll(attrs)[1..] == KeptAll(attrs[1..]) && KeptAll(attrs)[0] == Kept(attrs[0]);
      assert attrs == [attrs[0]] + attrs[1..];
      assert forall k :: 1 <= k < |attrs| ==> attrs[k] == attrs[1..][k - 1];
      assert forall k :: 0 <= k < |attrs[1..]| ==> attrs[1..][k] == attrs[k + 1];
    }
  }

  lemma KeptOne(a: Attr)
    ensures Kept(a) == a <==> Visible(a)
  {}

  // ----- the list of parameters

  function Get(attrs: seq<Attr>, name: string): Option<string> {
    if attrs == [] then None
    else if SameText(attrs[0].name, name) then attrs[0].value
    else Get(attrs[1..], name)
  }

  function Set(attrs: seq<Attr>, name: string, value: Option<string>): seq<Attr> {
    if attrs == [] then [Attr(name, value)]
    else if SameText(attrs[0].name, name) then [attrs[0].(value := value)] + attrs[1..]
    else [attrs[0]] + Set(attrs[1..], name, value)
  }

  /** A parameter that was set is found under its name in any capitals; the others are as before. */
  lemma {:induction false} GetSet(attrs: seq<Attr>, name: string, value: Option<string>, other: string)
    ensures Get(Set(attrs, name, value), other) == if SameText(name, other) then value else Get(attrs, other)
  {
    hide SameText;
    if attrs != [] {
      if SameText(attrs[0].name, name) {
        SameTextTransfers(attrs[0].name, name, other);
      } else {
        GetSet(attrs[1..], name, value, other);
        var after := Set(attrs, name, value);
        assert after[0] == attrs[0] && after[1..] == Set(attrs[1..], name, value);
        if SameText(attrs[0].name, other) && SameText(name, other) {
          SameTextTransfers(name, other, attrs[0].name);
          SameTextSwaps(attrs[0].name, other);
          SameTextSwaps(name, attrs[0].name);
        }
      }
    }
  }

  lemma {:induction false} SetKeepsNames(attrs: seq<Attr>, name: string, value: Option<string>)
    requires GoodAttrName(name) && forall k :: 0 <= k < |attrs| ==> GoodAttrName(attrs[k].name)
    ensures var after := Set(attrs, name, value); forall k :: 0 <= k < |after| ==> GoodAttrName(after[k].name)
  {
    hide GoodAttrName, SameText, Set;
    if attrs != [] {
      SetStep(attrs, name, value);
      var more := Set(attrs[1..], name, value);
      SetKeepsNames(attrs[1..], name, value);
      assert forall k :: 1 <= k < |attrs| ==> attrs[1..][k - 1] == attrs[k];
      assert forall k :: 1 <= k < 1 + |more| ==> ([attrs[0]] + more)[k] == more[k - 1];
    }
    SetNone(name, value);
  }

  lemma SetNone(name: string, value: Option<string>)
    ensures Set([], name, value) == [Attr(name, value)]
  {}

  lemma SetStep(attrs: seq<Attr>, name: string, value: Option<string>)
    requires attrs != []
    ensures Set(attrs, name, value) == if SameText(attrs[0].name, name)
                                       then [attrs[0].(value := value)] + attrs[1..]
                                       else [attrs[0]] + Set(attrs[1..], name, value)
  {}

  lemma SetGoodNames(h: Fields, name: string, value: Option<string>)
    requires GoodNames(h) && GoodAttrName(name)
    ensures GoodNames(h.(attrs := Set(h.attrs, name, value)))
  {
    hide Set, GoodAttrName;
    SetKeepsNames(h.attrs, name, value);
  }

  lemma {:induction false} GetKept(attrs: seq<Attr>, name: string)
    ensures Get(KeptAll(attrs), name) == Kept(Attr(name, Get(attrs, name))).value
  {
    if attrs != [] {
      GetKept(attrs[1..], name);
      assert KeptAll(attrs)[1..] == KeptAll(attrs[1..]);
    }
  }

  /** What is set, printed and parsed again is what a reader then gets, but for blanks at its end. */
  lemma SetPrintGet(h: Fields, name: string, value: Option<string>, other: string)
    requires GoodNames(h) && GoodAttrName(name)
    ensures var after := Parse(Print(h.(attrs := Set(h.attrs, name, value))));
      && after.name == h.name
      && Get(after.attrs, other) ==
         Kept(Attr(other, if SameText(name, other) then value else Get(h.attrs, other))).value
  {
    hide Parse, Print, Set, SameText, KeptAll, Kept, Get, GoodAttrName;
    var changed := h.(attrs := Set(h.attrs, name, value));
    SetKeepsNames(h.attrs, name, value);
    SetGoodNames(h, name, value);
    ParsePrint(changed);
    GetKept(changed.attrs, other);
    GetSet(h.attrs, name, value, other);
  }

  // ----- the program

  /** A position in a string from which a part of it is scanned. */
  lemma {:induction false} ScanNoNul(t: string, quote: bool)
    requires '\0' !in t
    ensures '\0' !in ScanValue(t, quote).text
    decreases |t|
  {
    if t == "" || (t[0] == ';' && !quote) {
    } else if t[0] == '"' {
      ScanNoNul(t[1..], !quote);
    } else {
      var u := if t[0] == '\\' && |t| > 1 then t[1..] else t;
      ScanNoNul(u[1..], quote);
    }
  }

  /** One turn of the scan at position p, in terms of what the rest of the text holds. */
  lemma ScanTurn(t: string, p: nat, quote: bool)
    requires p < |t| && !(t[p] == ';' && !quote)
    ensures t[p] == '"' ==> ScanValue(t[p..], quote) == ScanValue(t[p + 1..], !quote)
    ensures
      var q := if t[p] == '\\' && p + 1 < |t| then p + 1 else p;
      t[p] != '"' ==> ScanValue(t[p..], quote) ==
                      var r := ScanValue(t[q + 1..], quote); Scanned([t[q]] + r.text, r.rest)
  {
    var u := t[p..];
    assert u[1..] == t[p + 1..];
    assert p + 1 < |t| ==> u[1..][0] == t[p + 1] && u[1..][1..] == t[p + 2..];
  }

  /** The buffer, if there is one, starts with these characters. */
  ghost predicate Stored(s: array?<char>, done: string)
    reads s
  {
    s != null ==> |done| <= s.Length && s[..|done|] == done
  }

  lemma NothingStored(s: array?<char>)
    ensures Stored(s, "")
  {}

  lemma AllStored(s: array<char>, done: string)
    requires Stored(s, done) && |done| == s.Length
    ensures s[..] == done
  {}

  method Put(s: array?<char>, len: nat, c: char, ghost done: string)
    requires Stored(s, done) && len == |done| && (s != null ==> len < s.Length)
    modifies if s == null then {} else {s}
    ensures Stored(s, done + [c])
  {
    if s != null {
      s[len] := c;
    }
  }

  /** The scan of a value is at position p, with these characters of it done. */
  ghost predicate Midway(text: string, p: nat, quote: bool, done: string, whole: Scanned) {
    p <= |text| && var r := ScanValue(text[p..], quote); whole == Scanned(done + r.text, r.rest)
  }

  lemma MidwayQuote(text: string, p: nat, quote: bool, done: string, whole: Scanned)
    requires Midway(text, p, quote, done, whole) && p < |text| && text[p] == '"'
    ensures Midway(text, p + 1, !quote, done, whole)
  {
    hide ScanValue;
    ScanTurn(text, p, quote);
  }

  lemma MidwayTaken(text: string, p: nat, quote: bool, done: string, whole: Scanned)
    requires Midway(text, p, quote, done, whole) && p < |text| && text[p] != '"' && !(text[p] == ';' && !quote)
    ensures var q := if text[p] == '\\' && p + 1 < |text| then p + 1 else p;
      Midway(text, q + 1, quote, done + [text[q]], whole) && |done| + 1 <= |whole.text|
  {
    hide ScanValue;
    ScanTurn(text, p, quote);
    var q := if text[p] == '\\' && p + 1 < |text| then p + 1 else p;
    Regroup(done, [text[q]], ScanValue(text[q + 1..], quote).text);
  }

  lemma MidwayOver(text: string, p: nat, quote: bool, done: string, whole: Scanned)
    requires Midway(text, p, quote, done, whole) && (p == |text| || (text[p] == ';' && !quote))
    ensures whole == Scanned(done, text[p..])
  {}

  /** Stores one character of the value, without the backslash before it. */
  method Take(text: string, p: nat, s: array?<char>, len: nat, ghost done: string) returns (next: nat)
    requires p < |text| && Stored(s, done) && len == |done| && (s != null ==> len < s.Length)
    modifies if s == null then {} else {s}
    ensures next == if text[p] == '\\' && p + 1 < |text| then p + 2 else p + 1
    ensures Stored(s, done + [text[next - 1]])
  {
    next := p;
    if text[next] == '\\' && next + 1 < |text| {
      next := next + 1;
    }
    Put(s, len, text[next], done);
    next := next + 1;
  }

  /** One pass over a value: the first, without a buffer, only counts; the second stores. */
  method ScanPass(text: string, field: nat, s: array?<char>, ghost whole: Scanned) returns (p: nat, len: nat)
    requires Midway(text, field, false, "", whole)
    requires s != null ==> s.Length == |whole.text| + 1
    modifies if s == null then {} else {s}
    ensures field <= p <= |text| && text[p..] == whole.rest
    ensures len == |whole.text| + 1
    ensures s != null ==> s[..] == whole.text + ['\0']
  {
    hide ScanValue, Midway, Stored;
    p, len := ScanCharacters(text, field, s, whole);
    Put(s, len, '\0', whole.text);
    len := len + 1;
    if s != null {
      AllStored(s, whole.text + ['\0']);
    }
  }

  /** The loop of the pass. */
  method ScanCharacters(text: string, field: nat, s: array?<char>, ghost whole: Scanned) returns (p: nat, len: nat)
    requires Midway(text, field, false, "", whole)
    requires s != null ==> s.Length == |whole.text| + 1
    modifies if s == null then {} else {s}
    ensures field <= p <= |text| && text[p..] == whole.rest
    ensures len == |whole.text| && Stored(s, whole.text)
  {
    assert field <= |text|;
    hide ScanValue, Midway, Stored;
    var quote := false;
    ghost var done := "";
    NothingStored(s);
    p, len := field, 0;
    while p < |text| && !(text[p] == ';' && !quote)
      invariant field <= p <= |text| && len == |done|
      invariant Midway(text, p, quote, done, whole)
      invariant Stored(s, done) && (s != null ==> len < s.Length)
      decreases |text| - p
    {
      p, quote, len, done := ScanMore(text, p, s, quote, len, done, whole);
    }
    MidwayOver(text, p, quote, done, whole);
  }

  /** One turn: a quotation mark only changes the state, all else is stored. */
  method ScanMore(text: string, p: nat, s: array?<char>, quote: bool, len: nat,
                  ghost done: string, ghost whole: Scanned)
    returns (next: nat, quote': bool, len': nat, ghost done': string)
    requires p < |text| && !(text[p] == ';' && !quote)
    requires Midway(text, p, quote, done, whole) && Stored(s, done) && len == |done|
    requires s != null ==> len < s.Length == |whole.text| + 1
    modifies if s == null then {} else {s}
    ensures p < next <= |text|
    ensures Midway(text, next, quote', done', whole) && Stored(s, done') && len' == |done'|
    ensures s != null ==> len' < s.Length
  {
    hide ScanValue, Midway, Stored;
    if text[p] == '"' {
      MidwayQuote(text, p, quote, done, whole);
      return p + 1, !quote, len, done;
    }
    MidwayTaken(text, p, quote, done, whole);
    next := Take(text, p, s, len, done);
    quote', len', done' := quote, len + 1, done + [text[next - 1]];
  }

  lemma {:induction false} TrimLength(s: string, n: nat)
    requires n <= |s| && (n == 0 || !IsSpace(s[n - 1])) && forall k :: n <= k < |s| ==> IsSpace(s[k])
    ensures Trim(s) == s[..n]
  {
    if n < |s| {
      TrimLength(s[..|s| - 1], n);
      assert s[..|s| - 1][..n] == s[..n];
    } else {
      assert s[..n] == s;
    }
  }

  /** striptrlspc, on a buffer that holds a C string; n is the length of what is left. */
  method StripTrlSpc(p: array<char>, ghost s: string) returns (n: nat)
    requires p[..] == s + ['\0'] && '\0' !in s
    modifies p
    ensures n == |Trim(s)| && n < p.Length && p[..n] == Trim(s) && p[n] == '\0'
  {
    n := 0;
    var i: nat := 0;
    while p[i] != '\0'
      invariant n <= i <= |s| && p[..] == s + ['\0']
      invariant n == 0 || !IsSpace(s[n - 1])
      invariant forall k :: n <= k < i ==> IsSpace(s[k])
      decreases |s| - i
    {
      assert p[..][i] != '\0';
      if !IsSpace(p[i]) {
        n := i + 1;
      }
      i := i + 1;
    }
    assert p[..][i] == '\0';
    TrimLength(s, n);
    p[n] := '\0';
    assert p[..n] == s[..n];
  }

  /** The end of the name that starts at field. */
  method FindEnd(text: string, field: nat, parameter: bool) returns (p: nat)
    requires field <= |text|
    ensures field <= p <= |text| && p == field + NameLength(text[field..], parameter)
  {
    hide EndsName;
    p := field;
    while p < |text| && !EndsName(text[p], parameter)
      invariant field <= p <= |text|
      invariant field + NameLength(text[field..], parameter) == p + NameLength(text[p..], parameter)
    {
      assert text[p..][1..] == text[p + 1..];
      p := p + 1;
    }
  }

  /** A stretch of the text, copied into a buffer of its own and stripped there. */
  method CopyStripped(text: string, from: nat, to: nat) returns (name: string)
    requires from <= to <= |text| && '\0' !in text
    ensures name == Trim(text[from..to])
  {
    var buf := new char[to - from + 1];
    forall k | 0 <= k < to - from {
      buf[k] := text[from + k];
    }
    buf[to - from] := '\0';
    assert buf[..] == text[from..to] + ['\0'];
    var n := StripTrlSpc(buf, text[from..to]);
    name := buf[..n];
  }

  /** The two passes: count, allocate, store, strip. */
  method ReadValue(text: string, field: nat) returns (value: Option<string>, p: nat)
    requires field <= |text| && '\0' !in text
    ensures value == ValueOf(ScanValue(text[field..], false).text)
    ensures field <= p <= |text| && text[p..] == ScanValue(text[field..], false).rest
  {
    hide ScanValue, Trim;
    var len;
    ghost var whole := ScanValue(text[field..], false);
    p, len := ScanPass(text, field, null, whole);
    var s := new char[len];
    p, len := ScanPass(text, field, s, whole);
    ScanNoNul(text[field..], false);
    var n := StripTrlSpc(s, whole.text);
    value := if s[0] == '\0' then None else Some(s[..n]);
    assert n > 0 ==> s[0] == s[..n][0] && s[0] in Trim(whole.text);
    TrimWithin(whole.text);
  }

  lemma TrimWithin(s: string)
    requires '\0' !in s
    ensures '\0' !in Trim(s)
  {}

  lemma SetAt(attrs: seq<Attr>, i: nat, name: string, value: Option<string>)
    requires i < |attrs|
    ensures attrs[..i] + Set(attrs[i..], name, value) ==
            if SameText(attrs[i].name, name) then attrs[i := attrs[i].(value := value)]
            else attrs[..i + 1] + Set(attrs[i + 1..], name, value)
  {
    hide SameText, Set;
    SetStep(attrs[i..], name, value);
    assert attrs[i..][1..] == attrs[i + 1..];
    AtMiddle(attrs, i, attrs[i], Set(attrs[i + 1..], name, value));
    AtMiddle(attrs, i, attrs[i].(value := value), attrs[i + 1..]);
  }

  lemma AtMiddle(attrs: seq<Attr>, i: nat, a: Attr, rest: seq<Attr>)
    requires i < |attrs|
    ensures attrs[..i] + ([a] + rest) == attrs[i := a][..i + 1] + rest
    ensures attrs[i := a][..i + 1] + attrs[i + 1..] == attrs[i := a]
    ensures attrs[i := attrs[i]] == attrs
  {}

  /** struct mime_header: the list of parameters is changed in place. */
  class Header {
    var name: string
    var attrs: seq<Attr>

    ghost function Value(): Fields
      reads this
    {
      Fields(name, attrs)
    }

    constructor (name: string)
      ensures this.name == name && attrs == []
    {
      this.name := name;
      attrs := [];
    }

    /** get_mime_attr. */
    method GetAttr(key: string) returns (value: Option<string>)
      ensures value == Get(attrs, key)
    {
      var i: nat := 0;
      while i < |attrs|
        invariant i <= |attrs| && Get(attrs, key) == Get(attrs[i..], key)
      {
        if SameText(attrs[i].name, key) {
          return attrs[i].value;
        }
        assert attrs[i..][1..] == attrs[i + 1..];
        i := i + 1;
      }
      return None;
    }

    /** set_mime_attr: the first parameter of that name is overwritten, or a new one appended. */
    method SetAttr(key: string, value: Option<string>)
      modifies this`attrs
      ensures attrs == Set(old(attrs), key, value)
    {
      hide Set, SameText;
      var i: nat := 0;
      while i < |attrs|
        invariant i <= |attrs| && attrs == old(attrs)
        invariant Set(attrs, key, value) == attrs[..i] + Set(attrs[i..], key, value)
      {
        SetAt(attrs, i, key, value);
        if SameText(attrs[i].name, key) {
          attrs := attrs[i := attrs[i].(value := value)];
          return;
        }
        i := i + 1;
      }
      SetNone(key, value);
      assert attrs[..i] == attrs && attrs[i..] == [];
      attrs := attrs + [Attr(key, value)];
    }

    /** One parameter, appended to the list. */
    method ReadParameter(text: string, field: nat) returns (p: nat)
      requires field < |text| && '\0' !in text
      modifies this`attrs
      ensures attrs == old(attrs) + [Parameter(text[field..])]
      ensures field <= p <= |text| && text[p..] == AfterValue(text[field..])
    {
      hide ScanValue, Trim, SkipSpaces, NameLength, ValueOf;
      ghost var t := text[field..];
      p := FindEnd(text, field, true);
      var name := CopyStripped(text, field, p);
      assert text[field..p] == t[..p - field];
      Further(text, field, p - field);
      if p < |text| && text[p] == '=' {
        Further(text, p, 1);
        p := p + 1;
      }
      p := SkipBlanks(text, p);
      var value;
      value, p := ReadValue(text, p);
      attrs := attrs + [Attr(name, value)];
    }
  }

  lemma ParseSpace(t: string)
    requires t != "" && IsSpace(t[0])
    ensures Parse(t) == Parse(t[1..]) && ParseAttrs(t) == ParseAttrs(t[1..])
  {}

  lemma ParseName(t: string)
    requires t == "" || !IsSpace(t[0])
    ensures var n := NameLength(t, false);
      Parse(t) == Fields(Trim(t[..n]), ParseAttrs(AfterSemicolon(t[n..])))
  {}

  lemma ParseParameter(t: string, before: seq<Attr>)
    requires t != "" && !IsSpace(t[0])
    ensures before + ParseAttrs(t) == (before + [Parameter(t)]) + ParseAttrs(AfterParameter(t))
  {}

  /** What is still to come, for the loop of parse_mime_header: the header once it has its name. */
  ghost predicate Ahead(h: Header?, whole: Fields, t: string)
    reads h
  {
    whole == if h == null then Parse(t) else Fields(h.name, h.attrs + ParseAttrs(t))
  }

  method AfterSemi(text: string, field: nat) returns (p: nat)
    requires field <= |text|
    ensures field <= p <= |text| && text[p..] == AfterSemicolon(text[field..])
  {
    p := if field < |text| && text[field] == ';' then field + 1 else field;
  }

  /** The first turn that is not at a blank: the header's own name. */
  method ReadName(text: string, field: nat, ghost whole: Fields) returns (h: Header, p: nat)
    requires field <= |text| && '\0' !in text && (field < |text| ==> !IsSpace(text[field]))
    requires whole == Parse(text[field..])
    ensures fresh(h) && field <= p <= |text| && Ahead(h, whole, text[p..])
  {
    hide Parse, ParseAttrs, NameLength, Trim, AfterSemicolon, IsSpace;
    ParseName(text[field..]);
    p := FindEnd(text, field, false);
    var name := CopyStripped(text, field, p);
    assert text[field..p] == text[field..][..p - field];
    Further(text, field, p - field);
    h := new Header(name);
    p := AfterSemi(text, p);
  }

  method ReadMore(text: string, field: nat, h: Header, ghost whole: Fields) returns (p: nat)
    requires field < |text| && '\0' !in text && !IsSpace(text[field])
    requires Ahead(h, whole, text[field..])
    modifies h`attrs
    ensures field < p <= |text| && Ahead(h, whole, text[p..])
  {
    hide ParseAttrs, Parameter, AfterValue, IsSpace, AfterSemicolon;
    ParseParameter(text[field..], h.attrs);
    p := h.ReadParameter(text, field);
    p := AfterSemi(text, p);
    assert |text[p..]| == |AfterParameter(text[field..])| < |text[field..]|;
  }

  /** parse_mime_header. */
  method ParseMimeHeader(text: string) returns (header: Header)
    requires '\0' !in text
    ensures fresh(header) && header.Value() == Parse(text)
  {
    hide Parse, ParseAttrs, IsSpace;
    var field: nat, h: Header? := 0, null;
    assert text[0..] == text;
    while field < |text| || h == null
      invariant field <= |text| && (h != null ==> fresh(h)) && Ahead(h, Parse(text), text[field..])
      decreases |text| - field + if h == null then 1 else 0
    {
      if field < |text| && IsSpace(text[field]) {
        ParseSpace(text[field..]);
        Further(text, field, 1);
        field := field + 1;
      } else if h == null {
        h, field := ReadName(text, field, Parse(text));
      } else {
        field := ReadMore(text, field, h, Parse(text));
      }
    }
    NothingMore();
    header := h;
  }

  lemma NothingMore()
    ensures ParseAttrs("") == []
  {}

  method AllPlain(v: string) returns (plain: bool)
    ensures plain <==> Plain(v)
  {
    var p: nat := 0;
    while p < |v| && IsPlain(v[p])
      invariant p <= |v| && forall k :: 0 <= k < p ==> IsPlain(v[k])
    {
      p := p + 1;
    }
    return p == |v|;
  }

  method WriteValue(f: string, v: string) returns (out: string)
    ensures out == f + PrintValue(v)
  {
    hide Plain, Escape;
    var plain := AllPlain(v);
    if plain {
      return f + v;
    }
    out := WriteEscaped(f + "\"", v);
    out := out + "\"";
    Wrap(f, ['"'], Escape(v));
  }

  lemma Wrap(f: string, quote: string, v: string)
    ensures f + (quote + v + quote) == (f + quote + v) + quote
  {}

  method WriteEscaped(f: string, v: string) returns (out: string)
    ensures out == f + Escape(v)
  {
    hide Escape, EscapeOne;
    out := f;
    var p: nat := 0;
    assert v[0..] == v;
    while p < |v|
      invariant p <= |v| && out + Escape(v[p..]) == f + Escape(v)
    {
      EscapeStep(out, v, p);
      out := WriteOne(out, v[p]);
      p := p + 1;
    }
    EscapeNothing();
    assert v[p..] == "" && out + "" == out;
  }

  method WriteOne(f: string, c: char) returns (out: string)
    ensures out == f + EscapeOne(c)
  {
    out := f;
    if c == '"' || c == '\\' {
      out := out + "\\";
    }
    out := out + [c];
  }

  lemma EscapeNothing()
    ensures Escape("") == ""
  {}

  lemma EscapeStep(before: string, v: string, p: nat)
    requires p < |v|
    ensures before + Escape(v[p..]) == (before + EscapeOne(v[p])) + Escape(v[p + 1..])
  {
    assert v[p..][1..] == v[p + 1..];
  }

  /** print_mime_header, onto what the file f already holds. */
  method PrintMimeHeader(f: string, h: Header) returns (out: string)
    ensures out == f + Print(h.Value())
  {
    hide PrintAttr, PrintAttrs;
    out := f + h.name;
    var i: nat := 0;
    PrintNothing();
    while i < |h.attrs|
      invariant i <= |h.attrs| && out + PrintAttrs(h.attrs[i..]) == f + Print(h.Value())
    {
      PrintStep(out, h.attrs, i);
      out := WriteAttr(out, h.attrs[i]);
      i := i + 1;
    }
    assert h.attrs[i..] == [];
  }

  method WriteAttr(f: string, a: Attr) returns (out: string)
    ensures out == f + PrintAttr(a)
  {
    hide PrintValue;
    out := f + "; " + a.name + if a.value.Some? then "=" else "";
    if a.value.Some? {
      out := WriteValue(out, a.value.value);
    }
  }

  lemma PrintNothing()
    ensures PrintAttrs([]) == ""
  {}

  lemma PrintStep(before: string, attrs: seq<Attr>, i: nat)
    requires i < |attrs|
    ensures before + PrintAttrs(attrs[i..]) == before + PrintAttr(attrs[i]) + PrintAttrs(attrs[i + 1..])
  {
    hide PrintAttr;
    assert attrs[i..][1..] == attrs[i + 1..];
  }
}
