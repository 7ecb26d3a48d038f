/** The text of a maildirsize file, as wmail/maildir/maildirquota.c writes and reads it: a line
    that names the quota, then lines of signed deltas.  Numbers have no bound here. */
module QuotaFile {
  import opened CStrings
  import opened Decimal

  /** struct maildirquota; in a quota 0 stands for no limit. */
  datatype Totals = Totals(nbytes: int, nmessages: int)

  function Plus(a: Totals, b: Totals): Totals {
    Totals(a.nbytes + b.nbytes, a.nmessages + b.nmessages)
  }

  const NONE := Totals(0, 0)

  /** The size at which the reader gives up and asks for a recount. */
  const LIMIT := 5120

  // ----- writing

  function Spaces(n: int): (s: string)
    ensures |s| == if n > 0 then n else 0
    ensures forall k :: 0 <= k < |s| ==> s[k] == ' '
  {
    if n > 0 then seq(n, _ => ' ') else ""
  }

  /** printf's "%8s %4s" of a delta. */
  function RecordText(d: Totals): string {
    var b, m := Of(d.nbytes), Of(d.nmessages);
    Spaces(8 - |b|) + b + " " + Spaces(4 - |m|) + m
  }

  function Record(d: Totals): (s: string)
    ensures |s| > 0 && s[|s| - 1] == '\n'
  {
    RecordText(d) + "\n"
  }

  /** The quota, without the newline. */
  function QuotaText(q: Totals): string {
    var b := if q.nbytes > 0 then Of(q.nbytes) + "S" else "";
    var m := if q.nmessages > 0 then Of(q.nmessages) + "C" else "";
    if b == "" || m == "" then b + m else b + "," + m
  }

  method PrintQuota(quota: Totals) returns (buf: string)
    ensures buf == QuotaText(quota)
  {
    hide Of;
    buf := "";
    if quota.nbytes > 0 {
      var n := StrOffT(quota.nbytes);
      buf := n + "S";
    }
    if quota.nmessages > 0 {
      var n := StrOffT(quota.nmessages);
      if buf != "" {
        buf := buf + "," + (n + "C");
      } else {
        buf := n + "C";
      }
    }
  }

  /** doaddquota: what it appends to the file, or puts in a new one. */
  method DoAddQuota(quota: Totals, delta: Totals, isnew: bool) returns (buf: string)
    ensures buf == (if isnew then NewHeader(quota) else "") + Record(delta)
  {
    hide Of, QuotaText, Spaces;
    buf := "";
    if isnew {
      buf := PrintQuota(quota);
      buf := buf + "\n";
    }
    var b := StrOffT(delta.nbytes);
    var m := StrOffT(delta.nmessages);
    buf := buf + (Spaces(8 - |b|) + b + " " + Spaces(4 - |m|) + m + "\n");
  }

  function NewHeader(q: Totals): (s: string)
    ensures |s| > 0 && s[|s| - 1] == '\n'
  {
    QuotaText(q) + "\n"
  }

  // ----- reading: the quota line

  /** parsequotastr from position j on. */
  function ParseQuotaFrom(s: string, j: nat, q: Totals): Totals
    requires j <= |s|
    decreases |s| - j
  {
    if j == |s| then q
    else if !IsDigit(s[j]) then ParseQuotaFrom(s, j + 1, q)
    else
      var e := DigitsEnd(s, j);
      var i := Value(s[j..e]);
      ParseQuotaFrom(s, e,
        if e < |s| && s[e] == 'S' then q.(nbytes := i)
        else if e < |s| && s[e] == 'C' then q.(nmessages := i)
        else q)
  }

  function ParseQuota(s: string): Totals {
    ParseQuotaFrom(s, 0, NONE)
  }

  method ParseQuotaStr(quota: string) returns (q: Totals)
    ensures q == ParseQuota(quota)
  {
    q := NONE;
    var j: nat := 0;
    while j < |quota|
      invariant j <= |quota| && ParseQuotaFrom(quota, j, q) == ParseQuota(quota)
    {
      if !IsDigit(quota[j]) {
        j := j + 1;
        continue;
      }
      var i, e := ReadDigits(quota, j);
      j := e;
      if j < |quota| {
        match quota[j]
        case 'S' => q := q.(nbytes := i);
        case 'C' => q := q.(nmessages := i);
        case _ =>
      }
    }
  }

  // ----- reading: a record

  function SpacesEnd(s: string, j: nat): (e: nat)
    requires j <= |s|
    ensures j <= e <= |s| && (e == |s| || !IsSpace(s[e]))
    decreases |s| - j
  {
    if j < |s| && IsSpace(s[j]) then SpacesEnd(s, j + 1) else j
  }

  datatype Scanned = NoNumber | Number(value: int, next: nat)

  /** One conversion of sscanf: spaces, an optional sign, digits. */
  function ScanInt(s: string, j: nat): (r: Scanned)
    requires j <= |s|
    ensures r.Number? ==> r.next <= |s|
  {
    var a := SpacesEnd(s, j);
    var signed := a < |s| && (s[a] == '-' || s[a] == '+');
    var b := if signed then a + 1 else a;
    var e := DigitsEnd(s, b);
    if e == b then NoNumber
    else
      var v: int := Value(s[b..e]);
      Number(if signed && s[a] == '-' then -v else v, e)
  }

  /** sscanf(q, "%ld %d", &n, &c), with both numbers 0 before. */
  function ScanRecord(line: string): Totals {
    var n := ScanInt(line, 0);
    if n.NoNumber? then NONE
    else
      var c := ScanInt(line, n.next);
      Totals(n.value, if c.NoNumber? then 0 else c.value)
  }

  // ----- reading: the file

  function LineEnd(s: string, j: nat): (e: nat)
    requires j <= |s|
    ensures j <= e <= |s| && (forall k :: j <= k < e ==> s[k] != '\n') && (e == |s| || s[e] == '\n')
    decreases |s| - j
  {
    if j < |s| && s[j] != '\n' then LineEnd(s, j + 1) else j
  }

  function FirstLine(s: string): string {
    s[..LineEnd(s, 0)]
  }

  function AfterLine(s: string): (r: string)
    ensures s != "" ==> |r| < |s|
  {
    var e := LineEnd(s, 0);
    if e < |s| then s[e + 1..] else ""
  }

  /** The sum of the records. */
  function Sum(records: string): Totals
    decreases |records|
  {
    if records == "" then NONE else Plus(ScanRecord(FirstLine(records)), Sum(AfterLine(records)))
  }

  function CountLines(records: string): nat
    decreases |records|
  {
    if records == "" then 0 else 1 + CountLines(AfterLine(records))
  }

  /** The fields of struct maildirsize that come from the file. */
  datatype Reading = Reading(quota: Totals, size: Totals, nlines: nat, recalculationNeeded: bool)

  /** What do_maildir_openquotafile finds in a file. */
  function Read(text: string): Reading {
    if |text| >= LIMIT then Reading(ParseQuota(FirstLine(text[..LIMIT - 1])), NONE, 0, true)
    else Reading(ParseQuota(FirstLine(text)), Sum(AfterLine(text)), CountLines(AfterLine(text)), false)
  }

  /** The state of the reading loop at the start of a line, run to the end. */
  ghost function ReadFrom(rest: string, first: bool, info: Reading): Reading
    decreases |rest|
  {
    if rest == "" then info
    else if first then ReadFrom(AfterLine(rest), false, info.(quota := ParseQuota(FirstLine(rest))))
    else
      var d := ScanRecord(FirstLine(rest));
      ReadFrom(AfterLine(rest), false, info.(size := Plus(info.size, d), nlines := info.nlines + 1))
  }

  lemma {:induction false} ReadFromIs(rest: string, info: Reading)
    ensures ReadFrom(rest, false, info) ==
      info.(size := Plus(info.size, Sum(rest)), nlines := info.nlines + CountLines(rest))
    decreases |rest|
  {
    hide FirstLine, AfterLine, ScanRecord;
    if rest != "" {
      var d := ScanRecord(FirstLine(rest));
      ReadFromIs(AfterLine(rest), info.(size := Plus(info.size, d), nlines := info.nlines + 1));
    }
  }

  /** do_maildir_openquotafile on a file that is there, after its first LIMIT bytes were read. */
  method OpenQuotaFile(text: string) returns (info: Reading)
    requires '\0' !in text
    ensures info == Read(text)
  {
    hide ParseQuota, ScanRecord, AfterLine, LineEnd;
    if |text| >= LIMIT {
      var buf := text[..LIMIT - 1];
      var e := FindNewline(buf, 0);
      var quota := ParseQuotaStr(buf[..e]);
      return Reading(quota, NONE, 0, true);
    }
    var buf := text;
    info := Reading(NONE, NONE, 0, false);
    var p, first := 0, true;
    assert buf[p..] == text;
    ghost var start := info;
    while p < |buf|
      invariant p <= |buf|
      invariant ReadFrom(buf[p..], first, info) == ReadFrom(text, true, start)
    {
      var e := FindNewline(buf, p);
      NextLine(buf, p, e);
      var line := buf[p..e];
      p := if e < |buf| then e + 1 else e;
      if first {
        var quota := ParseQuotaStr(line);
        info := info.(quota := quota);
        first := false;
        continue;
      }
      var d := ScanRecord(line);
      info := info.(size := Plus(info.size, d), nlines := info.nlines + 1);
    }
    assert buf[p..] == "";
    EmptyFile();
    if text != "" {
      ReadFromIs(AfterLine(text), start.(quota := ParseQuota(FirstLine(text))));
    }
  }

  lemma EmptyFile()
    ensures FirstLine("") == "" && AfterLine("") == "" && ParseQuota("") == NONE
  {}

  lemma NextLine(buf: string, p: nat, e: nat)
    requires p < |buf| && e == LineEnd(buf, p)
    ensures buf[p..e] == FirstLine(buf[p..])
    ensures buf[(if e < |buf| then e + 1 else e)..] == AfterLine(buf[p..])
  {
    LineEndFrom(buf, p);
  }

  method FindNewline(buf: string, p: nat) returns (e: nat)
    requires p <= |buf|
    ensures e == LineEnd(buf, p)
  {
    e := p;
    while e < |buf| && buf[e] != '\n'
      invariant p <= e <= |buf| && LineEnd(buf, e) == LineEnd(buf, p)
    {
      e := e + 1;
    }
  }

  lemma LineEndFrom(s: string, p: nat)
    requires p <= |s|
    ensures LineEnd(s, p) == p + LineEnd(s[p..], 0)
  {
    var e := p + LineEnd(s[p..], 0);
    assert s[p..e] == s[p..][..e - p] == s[p..][0..e - p];
    LineEndIs(s, p, e);
  }

  lemma {:induction false} LineEndIs(s: string, j: nat, e: nat)
    requires j <= e <= |s| && '\n' !in s[j..e] && (e == |s| || s[e] == '\n')
    ensures LineEnd(s, j) == e
    decreases e - j
  {
    if j < e {
      assert s[j] == s[j..e][0];
      assert s[j + 1..e] == s[j..e][1..];
      LineEndIs(s, j + 1, e);
    }
  }

  // ----- what was written is what is read

  lemma {:induction false} SpacesEndIs(s: string, j: nat, e: nat)
    requires j <= e <= |s| && (forall k :: j <= k < e ==> IsSpace(s[k])) && (e == |s| || !IsSpace(s[e]))
    ensures SpacesEnd(s, j) == e
    decreases e - j
  {
    if j < e {
      SpacesEndIs(s, j + 1, e);
    }
  }

  /** A printed number, behind spaces and not followed by a digit, is scanned. */
  lemma ScanPrinted(s: string, j: nat, a: nat, n: int)
    requires j <= a && (forall k :: j <= k < a ==> k < |s| && IsSpace(s[k]))
    requires a + |Of(n)| <= |s| && s[a..a + |Of(n)|] == Of(n)
    requires a + |Of(n)| == |s| || !IsDigit(s[a + |Of(n)|])
    ensures ScanInt(s, j) == Number(n, a + |Of(n)|)
  {
    hide OfNat, DigitsEnd, SpacesEnd, Value;
    var e := a + |Of(n)|;
    var digits := OfNat(if n < 0 then -n else n);
    var b := e - |digits|;
    assert s[a] == s[a..e][0] && s[b] == s[a..e][b - a];
    assert IsDigit(s[b]) by {
      assert digits[0] == s[b];
    }
    assert s[b..e] == digits by {
      assert s[b..e] == s[a..e][b - a..];
    }
    SpacesEndIs(s, j, a);
    DigitsEndIs(s, b, e);
    ValueOfNat(if n < 0 then -n else n);
  }

  lemma ScanRecordLine(d: Totals)
    ensures ScanRecord(RecordText(d)) == d
  {
    hide Of, IsDigit, ScanInt, RecordText;
    var b, m := Of(d.nbytes), Of(d.nmessages);
    var s, x := RecordText(d), |Spaces(8 - |b|)|;
    var y := x + |b|;
    RecordParts(d);
    NoDigit();
    ScanPrinted(s, 0, x, d.nbytes);
    ScanPrinted(s, y, y + 1 + |Spaces(4 - |m|)|, d.nmessages);
  }

  /** Where the two numbers of a record are, with blanks before them. */
  lemma RecordParts(d: Totals)
    ensures var s, b, m := RecordText(d), Of(d.nbytes), Of(d.nmessages);
      var x := |Spaces(8 - |b|)|;
      var y := x + |b|;
      var z := y + 1 + |Spaces(4 - |m|)|;
      && z + |m| == |s| && s[x..y] == b && s[z..z + |m|] == m
      && s[y] == ' ' && forall k :: 0 <= k < x || y <= k < z ==> IsSpace(s[k])
  {
    hide Of;
    var b, m := Of(d.nbytes), Of(d.nmessages);
    var x := |Spaces(8 - |b|)|;
    forall k | x + |b| <= k < x + |b| + 1 + |Spaces(4 - |m|)|
      ensures IsSpace(RecordText(d)[k])
    {
      if k > x + |b| {
        assert RecordText(d)[k] == Spaces(4 - |m|)[k - (x + |b|) - 1];
      }
    }
  }

  lemma NoDigit()
    ensures !IsDigit(' ') && !IsDigit('S') && !IsDigit('C') && !IsDigit(',')
  {}

  /** A digit string and the letter behind it set one of the two limits. */
  lemma ParseNumber(s: string, j: nat, n: nat, q: Totals)
    requires var e := j + |OfNat(n)|; e < |s| && s[j..e] == OfNat(n) && (s[e] == 'S' || s[e] == 'C')
    ensures var e := j + |OfNat(n)|;
      ParseQuotaFrom(s, j, q) ==
        ParseQuotaFrom(s, e + 1, if s[e] == 'S' then q.(nbytes := n) else q.(nmessages := n))
  {
    hide OfNat, Value;
    var e := j + |OfNat(n)|;
    NoDigit();
    assert IsDigit(s[j..e][0]);
    DigitsEndIs(s, j, e);
    ValueOfNat(n);
    ParseLetter(s, e, if s[e] == 'S' then q.(nbytes := n) else q.(nmessages := n));
  }

  lemma ParseLetter(s: string, e: nat, q: Totals)
    requires e < |s| && !IsDigit(s[e])
    ensures ParseQuotaFrom(s, e, q) == ParseQuotaFrom(s, e + 1, q)
  {}

  lemma ParseEnd(s: string, q: Totals)
    ensures ParseQuotaFrom(s, |s|, q) == q
  {}

  /** The quota line says what the quota is, with an absent limit for 0. */
  lemma ParsePrinted(q: Totals)
    requires q.nbytes >= 0 && q.nmessages >= 0
    ensures ParseQuota(QuotaText(q)) == q
  {
    hide OfNat, ParseQuotaFrom;
    var s := QuotaText(q);
    var b, m := OfNat(q.nbytes), OfNat(q.nmessages);
    if q.nbytes > 0 && q.nmessages > 0 {
      var j := |b| + 2;
      assert s[0..|b|] == b && s[|b|] == 'S' && s[|b| + 1] == ',';
      assert s[j..j + |m|] == m && s[j + |m|] == 'C' && |s| == j + |m| + 1;
      ParseNumber(s, 0, q.nbytes, NONE);
      ParseLetter(s, |b| + 1, Totals(q.nbytes, 0));
      ParseNumber(s, j, q.nmessages, Totals(q.nbytes, 0));
    } else if q.nbytes > 0 {
      assert s[0..|b|] == b && s[|b|] == 'S' && |s| == |b| + 1;
      ParseNumber(s, 0, q.nbytes, NONE);
    } else if q.nmessages > 0 {
      assert s[0..|m|] == m && s[|m|] == 'C' && |s| == |m| + 1;
      ParseNumber(s, 0, q.nmessages, NONE);
    }
    ParseEnd(s, q);
  }

  // ----- whole files

  function Total(ds: seq<Totals>): Totals {
    if ds == [] then NONE else Plus(ds[0], Total(ds[1..]))
  }

  function Records(ds: seq<Totals>): string {
    if ds == [] then "" else Record(ds[0]) + Records(ds[1..])
  }

  /** A file made by doaddquota with `isnew` and then extended by it. */
  function Written(q: Totals, ds: seq<Totals>): string {
    NewHeader(q) + Records(ds)
  }

  lemma FirstLineIs(line: string, rest: string)
    requires '\n' !in line
    ensures FirstLine(line + "\n" + rest) == line && AfterLine(line + "\n" + rest) == rest
  {
    var s := line + "\n" + rest;
    assert s[0..|line|] == line && s[|line| + 1..] == rest;
    LineEndIs(s, 0, |line|);
  }

  lemma {:induction false} RecordsRead(ds: seq<Totals>)
    ensures Sum(Records(ds)) == Total(ds) && CountLines(Records(ds)) == |ds|
  {
    hide ScanRecord, FirstLine, AfterLine, RecordText;
    if ds != [] {
      var d, rest := ds[0], Records(ds[1..]);
      RecordsRead(ds[1..]);
      NoNewline(d);
      FirstLineIs(RecordText(d), rest);
      ScanRecordLine(d);
      assert Records(ds) == RecordText(d) + "\n" + rest;
    }
  }

  lemma NatNoNewline(n: nat)
    ensures '\n' !in OfNat(n) && '\0' !in OfNat(n)
  {
    assert AllDigits(OfNat(n));
  }

  lemma OfNoNewline(n: int)
    ensures '\n' !in Of(n) && '\0' !in Of(n)
  {
    NatNoNewline(if n < 0 then -n else n);
  }

  lemma NoNewline(d: Totals)
    ensures '\n' !in RecordText(d) && '\0' !in RecordText(d)
  {
    hide Of;
    OfNoNewline(d.nbytes);
    OfNoNewline(d.nmessages);
  }

  lemma QuotaNoNewline(q: Totals)
    ensures '\n' !in QuotaText(q) && '\0' !in QuotaText(q)
  {
    hide Of;
    OfNoNewline(q.nbytes);
    OfNoNewline(q.nmessages);
  }

  lemma {:induction false} WrittenPlain(q: Totals, ds: seq<Totals>)
    ensures '\0' !in Written(q, ds)
  {
    hide QuotaText, RecordText;
    QuotaNoNewline(q);
    if ds != [] {
      NoNewline(ds[0]);
      WrittenPlain(q, ds[1..]);
      assert '\0' !in Records(ds[1..]) by {
        forall k | 0 <= k < |Records(ds[1..])|
          ensures Records(ds[1..])[k] != '\0'
        {
          assert Written(q, ds[1..])[|NewHeader(q)| + k] == Records(ds[1..])[k];
        }
      }
    }
  }

  /** A written file gives back its quota, the sum of its records and their number; from LIMIT
      bytes on it gives back its quota and asks for a recount. */
  lemma ReadWritten(q: Totals, ds: seq<Totals>)
    requires q.nbytes >= 0 && q.nmessages >= 0 && |NewHeader(q)| < 5120
    ensures Read(Written(q, ds)) ==
      if |Written(q, ds)| < 5120 then Reading(q, Total(ds), |ds|, false) else Reading(q, NONE, 0, true)
  {
    hide FirstLine, AfterLine, ParseQuota, QuotaText, Sum, CountLines, Records;
    var t := Written(q, ds);
    QuotaNoNewline(q);
    ParsePrinted(q);
    FirstLineIs(QuotaText(q), Records(ds));
    RecordsRead(ds);
    if |t| >= LIMIT {
      var cut := t[..LIMIT - 1];
      assert cut == QuotaText(q) + "\n" + cut[|NewHeader(q)|..];
      FirstLineIs(QuotaText(q), cut[|NewHeader(q)|..]);
    }
  }

  lemma {:induction false} WrittenMore(q: Totals, ds: seq<Totals>, d: Totals)
    ensures Written(q, ds + [d]) == Written(q, ds) + Record(d)
    ensures Total(ds + [d]) == Plus(Total(ds), d)
  {
    hide Record, NewHeader;
    if ds == [] {
      assert ds + [d] == [d];
      assert Records([d]) == Record(d) + Records([]);
    } else {
      assert (ds + [d])[1..] == ds[1..] + [d];
      WrittenMore(q, ds[1..], d);
      assert Written(q, ds[1..] + [d])[|NewHeader(q)|..] == Records(ds[1..] + [d]);
      assert (Written(q, ds[1..]) + Record(d))[|NewHeader(q)|..] == Records(ds[1..]) + Record(d);
      assert Record(ds[0]) + (Records(ds[1..]) + Record(d)) == Record(ds[0]) + Records(ds[1..]) + Record(d);
    }
  }

  /** Numbers that 64 bits can hold have at most 19 digits. */
  predicate Small(d: Totals) {
    var limit: int := Pow10(19);
    -limit < d.nbytes < limit && -limit < d.nmessages < limit
  }

  lemma RecordLength(d: Totals)
    requires Small(d)
    ensures |Record(d)| <= 42
  {
    hide OfNat, Pow10;
    LengthOfNat(if d.nbytes < 0 then -d.nbytes else d.nbytes, 19);
    LengthOfNat(if d.nmessages < 0 then -d.nmessages else d.nmessages, 19);
  }

  lemma HeaderLength(q: Totals)
    requires Small(q)
    ensures |NewHeader(q)| <= 42
  {
    hide OfNat, Pow10;
    LengthOfNat(if q.nbytes < 0 then -q.nbytes else q.nbytes, 19);
    LengthOfNat(if q.nmessages < 0 then -q.nmessages else q.nmessages, 19);
  }

  /** The two columns of a record, and the digits in them. */
  lemma RecordColumns(d: Totals)
    ensures var b, m := Of(d.nbytes), Of(d.nmessages);
      && |Record(d)| == (if |b| < 8 then 8 else |b|) + 1 + (if |m| < 4 then 4 else |m|) + 1
      && Record(d)[|Record(d)| - 1 - |m|..] == m + "\n"
      && var x := if |b| < 8 then 8 - |b| else 0; Record(d)[x..x + |b|] == b
  {
    hide Of;
    var b, m := Of(d.nbytes), Of(d.nmessages);
    var head := Spaces(8 - |b|) + b + " " + Spaces(4 - |m|);
    assert Record(d) == head + (m + "\n");
  }

  /** Limits on bytes and on messages, by their letters. */
  lemma ParseBoth(bytes: nat, messages: nat)
    ensures ParseQuota(OfNat(bytes) + "S," + OfNat(messages) + "C") == Totals(bytes, messages)
  {
    hide OfNat, ParseQuotaFrom;
    var s, b, m := OfNat(bytes) + "S," + OfNat(messages) + "C", |OfNat(bytes)|, |OfNat(messages)|;
    NoDigit();
    assert s[0..b] == OfNat(bytes) && s[b + 2..b + 2 + m] == OfNat(messages);
    ParseNumber(s, 0, bytes, NONE);
    ParseLetter(s, b + 1, Totals(bytes, 0));
    ParseNumber(s, b + 2, messages, Totals(bytes, 0));
    ParseEnd(s, Totals(bytes, messages));
  }

  lemma ParseEither(n: nat)
    ensures ParseQuota(OfNat(n) + "S") == Totals(n, 0) && ParseQuota(OfNat(n) + "C") == Totals(0, n)
  {
    hide OfNat, ParseQuotaFrom;
    var s, c, m := OfNat(n) + "S", OfNat(n) + "C", |OfNat(n)|;
    assert s[0..m] == OfNat(n) && c[0..m] == OfNat(n);
    ParseNumber(s, 0, n, NONE);
    ParseEnd(s, Totals(n, 0));
    ParseNumber(c, 0, n, NONE);
    ParseEnd(c, Totals(0, n));
  }

  /** A file fresh from a recount is far from LIMIT. */
  lemma CompactLength(q: Totals, d: Totals)
    requires Small(q) && Small(d)
    ensures |Written(q, [d])| <= 84
  {
    HeaderLength(q);
    RecordLength(d);
    hide Record, NewHeader;
    assert Records([d]) == Record(d) + Records([]);
  }
}
