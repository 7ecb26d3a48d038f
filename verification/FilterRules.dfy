/** The rules of a mail filter, wmail/maildir/maildirfilter.c: which are accepted, and what of
    them is stored.  A string parameter that may be a null pointer is an option. */
module FilterRules {
  import opened CStrings
  import opened Decimal

  datatype Kind = StartsWith | EndsWith | Contains | HasRecipient | MimeMultipart | TextPlain | IsLargerThan

  datatype Flags = Flags(doesNot: bool, body: bool, continues: bool, plain: bool)

  datatype Rule = Rule(name: string, kind: Kind, flags: Flags,
                       header: string, value: string, folder: string, from: string)

  datatype Code = BadRuleName | BadRuleHeader | BadRuleValue | BadFromHdr | BadRuleFolder

  datatype Update = Refused(code: Code) | Accepted(rule: Rule)

  const MAXLEN: nat := 200

  // ----- the name and the header

  predicate IsQuote(c: char) {
    c == '\'' || c == '"' || c == '`'
  }

  predicate BadInName(c: char) {
    c < ' ' || IsQuote(c)
  }

  predicate NameOk(name: string) {
    0 < |name| <= MAXLEN && forall k :: 0 <= k < |name| ==> !BadInName(name[k])
  }

  predicate BadInHeader(c: char) {
    c <= ' ' || c == ':' || c >= 127 as char || IsQuote(c) || c == '\\' || c == '/'
  }

  predicate NeedsHeader(kind: Kind, flags: Flags) {
    (kind.Contains? || kind.StartsWith? || kind.EndsWith?) && !flags.body
  }

  predicate HeaderOk(header: string, kind: Kind, flags: Flags) {
    && |header| <= MAXLEN
    && (header == "" ==> !NeedsHeader(kind, flags))
    && forall k :: 0 <= k < |header| ==> !BadInHeader(header[k])
  }

  // ----- the pattern

  predicate BadInPattern(c: char) {
    c == '/' || c == '$' || c == '!' || c < ' ' || IsQuote(c)
  }

  /** One member of a set, or one end of a range: a character, behind a backslash or not.
      What follows it, or nothing if it is refused. */
  function SetMember(c: string): (rest: Option<string>)
    ensures rest.Some? ==> |rest.value| < |c|
  {
    if c == "" || IsQuote(c[0]) then None
    else
      var d := if c[0] == '\\' then c[1..] else c;
      if d == "" || d[0] < ' ' then None else Some(d[1..])
  }

  /** What follows a set, given what follows its opening bracket.  The end of a range is not
      followed by a look for the closing bracket. */
  function ScanSet(c: string): (rest: Option<string>)
    ensures rest.Some? ==> |rest.value| < |c|
    decreases |c|
  {
    var d := SetMember(c);
    if d.None? then None
    else if d.value != "" && d.value[0] == ']' then Some(d.value[1..])
    else if d.value == "" || d.value[0] != '-' then ScanSet(d.value)
    else
      var e := SetMember(d.value[1..]);
      if e.None? then None else ScanSet(e.value)
  }

  /** A pattern, with this many parentheses open. */
  predicate ScanPattern(c: string, kind: Kind, open: nat)
    decreases |c|
  {
    if c == "" then open == 0
    else if BadInPattern(c[0]) || (kind.IsLargerThan? && !IsDigit(c[0])) then false
    else if c[0] == '(' then
      !kind.HasRecipient? && !(|c| > 1 && c[1] == ')') && ScanPattern(c[1..], kind, open + 1)
    else if c[0] == ')' then
      !kind.HasRecipient? && open > 0 && ScanPattern(c[1..], kind, open - 1)
    else if c[0] == '[' then
      var rest := ScanSet(c[1..]);
      !kind.HasRecipient? && rest.Some? && ScanPattern(rest.value, kind, open)
    else if c[0] == '\\' then
      !kind.HasRecipient? && |c| > 1 && ScanPattern(c[2..], kind, open)
    else ScanPattern(c[1..], kind, open)
  }

  predicate ValueOk(value: string, kind: Kind, flags: Flags) {
    && |value| <= MAXLEN
    && (value == "" ==> kind.MimeMultipart? || kind.TextPlain?)
    && (value != "" && !flags.plain ==> ScanPattern(value, kind, 0))
  }

  // ----- the sender and the folder

  predicate BadInFrom(c: char) {
    c == '\'' || c == '\\' || c < ' '
  }

  predicate FromOk(from: string) {
    forall k :: 0 <= k < |from| ==> !BadInFrom(from[k])
  }

  const SHELL := "'\"$\\`;(){}#&<>~"

  predicate BadInAddress(c: char) {
    c in SHELL || c < ' '
  }

  /** strtok's delimiters. */
  predicate IsBlank(c: char) {
    c == ' ' || c == '\t' || c == '\r' || c == '\n'
  }

  predicate AutoresponderOk(s: string) {
    exists k :: 0 <= k < |s| && !IsBlank(s[k])
  }

  predicate MailboxCharOk(s: string, k: nat)
    requires k < |s|
  {
    && (s[k] == '.' ==> k + 1 < |s| && s[k + 1] != '.')
    && s[k] >= ' ' && s[k] != '\\' && s[k] != '|' && s[k] != '!'
  }

  predicate FolderOk(folder: string) {
    && |folder| <= MAXLEN
    && if folder != "" && (folder[0] == '*' || folder[0] == '!') then
         forall k :: 1 <= k < |folder| ==> !BadInAddress(folder[k])
       else if folder != "" && folder[0] == '+' then AutoresponderOk(folder[1..])
       else folder == "." || forall k :: 0 <= k < |folder| ==> MailboxCharOk(folder, k)
  }

  /** The name of a mailbox is stored with a dot before it. */
  function StoredFolder(folder: string): string {
    if folder != "" && folder[0] in "*!.+" then folder else "." + folder
  }

  // ----- maildir_filter_ruleupdate

  function OrEmpty(s: Option<string>): string {
    if s.Some? then s.value else ""
  }

  function RuleUpdate(name: Option<string>, kind: Kind, flags: Flags, header: Option<string>,
                      value: Option<string>, folder: Option<string>, from: string): Update
  {
    if name.None? || !NameOk(name.value) then Refused(BadRuleName)
    else if !HeaderOk(OrEmpty(header), kind, flags) then Refused(BadRuleHeader)
    else if !ValueOk(OrEmpty(value), kind, flags) then Refused(BadRuleValue)
    else if !FromOk(SkipSpaces(from)) then Refused(BadFromHdr)
    else if folder.None? || !FolderOk(folder.value) then Refused(BadRuleFolder)
    else Accepted(Rule(name.value, kind, flags, OrEmpty(header), OrEmpty(value),
                       StoredFolder(folder.value), SkipSpaces(from)))
  }

  // ----- what an accepted rule is like

  predicate StoredFolderOk(folder: string) {
    && folder != "" && folder[0] in "*!.+"
    && if folder[0] == '.' then
         |folder| <= MAXLEN + 1 && (folder == "." || forall k :: 0 <= k < |folder| ==> MailboxCharOk(folder, k))
       else FolderOk(folder)
  }

  /** Every rule in a filter is of this form. */
  predicate Stored(r: Rule) {
    && NameOk(r.name) && HeaderOk(r.header, r.kind, r.flags) && ValueOk(r.value, r.kind, r.flags)
    && FromOk(r.from) && (r.from == "" || !IsSpace(r.from[0])) && StoredFolderOk(r.folder)
  }

  lemma FolderStored(folder: string)
    requires FolderOk(folder)
    ensures StoredFolderOk(StoredFolder(folder))
  {
    var s := StoredFolder(folder);
    if s != folder && folder != "" {
      forall k | 0 <= k < |s|
        ensures MailboxCharOk(s, k)
      {
        if k > 0 {
          assert s[k] == folder[k - 1] && MailboxCharOk(folder, k - 1);
        } else {
          assert s[1] == folder[0];
        }
      }
    }
  }

  lemma UpdateStores(name: Option<string>, kind: Kind, flags: Flags, header: Option<string>,
                     value: Option<string>, folder: Option<string>, from: string)
    ensures var u := RuleUpdate(name, kind, flags, header, value, folder, from);
      u.Accepted? ==> Stored(u.rule)
  {
    hide NameOk, HeaderOk, ValueOk, FromOk, FolderOk, StoredFolderOk, StoredFolder;
    if folder.Some? && FolderOk(folder.value) {
      FolderStored(folder.value);
    }
  }

  /** A stored rule is accepted again as it is, unless the dot made its folder's name too long. */
  lemma StoredAgain(r: Rule)
    requires Stored(r)
    ensures RuleUpdate(Some(r.name), r.kind, r.flags, Some(r.header), Some(r.value), Some(r.folder), r.from) ==
            if |r.folder| <= MAXLEN then Accepted(r) else Refused(BadRuleFolder)
  {
    hide NameOk, HeaderOk, ValueOk, FromOk, MailboxCharOk;
    SkipNothing(r.from);
  }

  // ----- what the scan of a pattern guarantees

  /** A quotation mark is behind a backslash. */
  ghost predicate QuotesEscaped(c: string, from: nat) {
    forall k :: from <= k < |c| && IsQuote(c[k]) ==> k > from && c[k - 1] == '\\'
  }

  lemma SuffixOf(c: string, rest: string)
    requires |rest| <= |c| && rest == c[|c| - |rest|..]
    ensures forall k :: |c| - |rest| <= k < |c| ==> c[k] == rest[k - (|c| - |rest|)]
  {}

  lemma Extend(c: string, n: nat)
    requires n <= |c| && QuotesEscaped(c[n..], 0)
    requires forall k :: 0 <= k < n && IsQuote(c[k]) ==> k > 0 && c[k - 1] == '\\'
    ensures QuotesEscaped(c, 0)
  {
    hide IsQuote;
    forall k | n <= k < |c| && IsQuote(c[k])
      ensures k > 0 && c[k - 1] == '\\'
    {
      assert c[k] == c[n..][k - n];
      assert c[k - 1] == c[n..][k - n - 1];
    }
  }

  lemma SetMemberQuotes(c: string)
    requires SetMember(c).Some?
    ensures var rest := SetMember(c).value; rest == c[|c| - |rest|..]
    ensures var rest := SetMember(c).value; QuotesEscaped(rest, 0) ==> QuotesEscaped(c, 0)
  {
    var rest := SetMember(c).value;
    var n := |c| - |rest|;
    if QuotesEscaped(rest, 0) {
      Extend(c, n);
    }
  }

  lemma {:induction false} ScanSetQuotes(c: string)
    requires ScanSet(c).Some?
    ensures var rest := ScanSet(c).value; rest == c[|c| - |rest|..]
    ensures var rest := ScanSet(c).value; QuotesEscaped(rest, 0) ==> QuotesEscaped(c, 0)
    decreases |c|
  {
    hide QuotesEscaped, SetMember;
    var d := SetMember(c).value;
    SetMemberQuotes(c);
    if d != "" && d[0] == ']' {
      PlainChar(d);
    } else if d == "" || d[0] != '-' {
      ScanSetQuotes(d);
    } else {
      SetMemberQuotes(d[1..]);
      ScanSetQuotes(SetMember(d[1..]).value);
      PlainChar(d);
    }
  }

  lemma PlainChar(c: string)
    requires c != "" && !IsQuote(c[0])
    ensures QuotesEscaped(c[1..], 0) ==> QuotesEscaped(c, 0)
  {
    if QuotesEscaped(c[1..], 0) {
      Extend(c, 1);
    }
  }

  lemma EscapedChar(c: string)
    requires |c| > 1 && c[0] == '\\'
    ensures QuotesEscaped(c[2..], 0) ==> QuotesEscaped(c, 0)
  {
    if QuotesEscaped(c[2..], 0) {
      Extend(c, 2);
    }
  }

  /** In an accepted pattern no quotation mark stands without a backslash before it. */
  lemma {:induction false} PatternQuotes(c: string, kind: Kind, open: nat)
    requires ScanPattern(c, kind, open)
    ensures QuotesEscaped(c, 0)
    decreases |c|
  {
    if c != "" {
      hide QuotesEscaped, ScanSet;
      if c[0] == '(' {
        PatternQuotes(c[1..], kind, open + 1);
        PlainChar(c);
      } else if c[0] == ')' {
        PatternQuotes(c[1..], kind, open - 1);
        PlainChar(c);
      } else if c[0] == '[' {
        PatternQuotes(ScanSet(c[1..]).value, kind, open);
        ScanSetQuotes(c[1..]);
        PlainChar(c);
      } else if c[0] == '\\' {
        PatternQuotes(c[2..], kind, open);
        EscapedChar(c);
      } else {
        PatternQuotes(c[1..], kind, open);
        PlainChar(c);
      }
    }
  }

  /** A size is all digits. */
  lemma {:induction false} SizeDigits(c: string, open: nat)
    requires ScanPattern(c, IsLargerThan, open)
    ensures AllDigits(c)
  {
    if c != "" {
      assert IsDigit(c[0]);
      SizeDigits(c[1..], open);
      assert c == [c[0]] + c[1..];
    }
  }

  lemma {:induction false} SetNeedsBracket(c: string)
    requires forall k :: 1 <= k < |c| ==> c[k] != ']'
    ensures ScanSet(c).None?
    decreases |c|
  {
    var d := SetMember(c);
    if d.Some? {
      SetMemberQuotes(c);
      SuffixOf(c, d.value);
      if d.value == "" || d.value[0] != '-' {
        SetNeedsBracket(d.value);
      } else {
        var e := SetMember(d.value[1..]);
        if e.Some? {
          SetMemberQuotes(d.value[1..]);
          SuffixOf(d.value[1..], e.value);
          SetNeedsBracket(e.value);
        }
      }
    }
  }

  /** After a range the closing bracket is taken for a member of the set, and unless another
      follows, a set like [a-z] is refused. */
  lemma RangeAtEnd(a: char, b: char, rest: string)
    requires a != '\\' && !IsQuote(a) && a >= ' ' && b != '\\' && !IsQuote(b) && b >= ' '
    ensures ScanSet([a, '-', b, ']'] + rest) == ScanSet("]" + rest)
    ensures ']' !in rest ==> ScanSet([a, '-', b, ']'] + rest).None?
  {
    var c := [a, '-', b, ']'] + rest;
    assert c[1..] == ['-', b, ']'] + rest;
    assert c[1..][1..] == [b, ']'] + rest;
    assert c[1..][1..][1..] == "]" + rest;
    assert SetMember(c) == Some(c[1..]);
    assert SetMember(c[1..][1..]) == Some("]" + rest);
    if ']' !in rest {
      SetNeedsBracket("]" + rest);
    }
  }

  /** A pattern that starts with such a set is refused, whatever the rest of the rule. */
  lemma RangeRefused(name: string, kind: Kind, flags: Flags, header: Option<string>,
                     a: char, b: char, rest: string, folder: Option<string>, from: string)
    requires NameOk(name) && HeaderOk(OrEmpty(header), kind, flags) && !flags.plain
    requires a != '\\' && !IsQuote(a) && a >= ' ' && b != '\\' && !IsQuote(b) && b >= ' ' && ']' !in rest
    ensures RuleUpdate(Some(name), kind, flags, header, Some(['[', a, '-', b, ']'] + rest), folder, from) ==
      Refused(BadRuleValue)
  {
    hide NameOk, HeaderOk, FolderOk, FromOk, ScanSet;
    var value := ['[', a, '-', b, ']'] + rest;
    assert value[1..] == [a, '-', b, ']'] + rest;
    RangeAtEnd(a, b, rest);
    assert !ScanPattern(value, kind, 0);
  }

  /** Only a mailbox of the greatest length, without its dot, is stored with too long a name. */
  lemma TooLongStored(name: Option<string>, kind: Kind, flags: Flags, header: Option<string>,
                      value: Option<string>, folder: Option<string>, from: string)
    ensures var u := RuleUpdate(name, kind, flags, header, value, folder, from);
      u.Accepted? ==> (|u.rule.folder| > MAXLEN <==> |folder.value| == MAXLEN && folder.value[0] !in "*!.+")
  {
    hide NameOk, HeaderOk, ValueOk, FromOk;
  }

  // ----- the program

  /** One member of a set, at position c. */
  method CheckMember(value: string, c: nat) returns (ok: bool, next: nat)
    requires c <= |value|
    ensures ok ==> c < next <= |value|
    ensures SetMember(value[c..]) == if ok then Some(value[next..]) else None
  {
    next := c;
    if next == |value| || IsQuote(value[next]) {
      return false, next;
    }
    if value[next] == '\\' {
      Further(value, c, 1);
      next := next + 1;
    }
    if next == |value| || value[next] < ' ' {
      return false, next;
    }
    Further(value, next, 1);
    return true, next + 1;
  }

  /** A set, from after its opening bracket. */
  method CheckSet(value: string, start: nat) returns (ok: bool, c: nat)
    requires start <= |value|
    ensures ok ==> start < c <= |value|
    ensures ScanSet(value[start..]) == if ok then Some(value[c..]) else None
  {
    hide SetMember;
    c := start;
    while true
      invariant start <= c <= |value| && ScanSet(value[start..]) == ScanSet(value[c..])
      decreases |value| - c
    {
      var good, next := CheckMember(value, c);
      if !good {
        return false, c;
      }
      c := next;
      if c < |value| && value[c] == ']' {
        Further(value, c, 1);
        return true, c + 1;
      }
      if c < |value| && value[c] == '-' {
        Further(value, c, 1);
        good, next := CheckMember(value, c + 1);
        if !good {
          return false, c;
        }
        c := next;
      }
    }
  }

  /** The next step of the scan of a pattern, or its refusal. */
  method CheckStep(value: string, kind: Kind, c: nat, open: nat) returns (ok: bool, next: nat, open': nat)
    requires c < |value|
    ensures ok ==> c < next <= |value|
    ensures ScanPattern(value[c..], kind, open) <==> (ok && ScanPattern(value[next..], kind, open'))
  {
    hide ScanSet, BadInPattern;
    open' := open;
    if BadInPattern(value[c]) || (kind.IsLargerThan? && !IsDigit(value[c])) {
      return false, c, open;
    }
    next := c + 1;
    Further(value, c, 1);
    if value[c] == '(' {
      ok := !kind.HasRecipient? && !(next < |value| && value[next] == ')');
      open' := open + 1;
    } else if value[c] == ')' {
      ok := !kind.HasRecipient? && open > 0;
      open' := if ok then open - 1 else 0;
    } else if value[c] == '[' {
      if kind.HasRecipient? {
        return false, c, open;
      }
      ok, next := CheckSet(value, next);
    } else if value[c] == '\\' {
      if kind.HasRecipient? || next == |value| {
        return false, c, open;
      }
      Further(value, c, 2);
      ok, next := true, next + 1;
    } else {
      ok := true;
    }
  }

  method CheckPattern(value: string, kind: Kind) returns (ok: bool)
    ensures ok <==> ScanPattern(value, kind, 0)
  {
    hide ScanPattern;
    var c: nat, open: nat := 0, 0;
    assert value[0..] == value;
    while c < |value|
      invariant c <= |value| && (ScanPattern(value, kind, 0) <==> ScanPattern(value[c..], kind, open))
    {
      var good, next, more := CheckStep(value, kind, c, open);
      if !good {
        return false;
      }
      c, open := next, more;
    }
    PatternOver(kind, open);
    assert value[c..] == "";
    return open == 0;
  }

  lemma PatternOver(kind: Kind, open: nat)
    ensures ScanPattern("", kind, open) <==> open == 0
  {}

  /** A character of the string that must not be there. */
  method FindBad(s: string, from: nat, bad: char -> bool) returns (found: bool)
    requires from <= |s|
    ensures found <==> exists k :: from <= k < |s| && bad(s[k])
  {
    var c := from;
    while c < |s| && !bad(s[c])
      invariant from <= c <= |s| && forall k :: from <= k < c ==> !bad(s[k])
    {
      c := c + 1;
    }
    return c < |s|;
  }

  method CheckName(name: string) returns (ok: bool)
    ensures ok <==> NameOk(name)
  {
    if name == "" || |name| > MAXLEN {
      return false;
    }
    var bad := FindBad(name, 0, BadInName);
    return !bad;
  }

  method CheckHeader(header: string, kind: Kind, flags: Flags) returns (ok: bool)
    ensures ok <==> HeaderOk(header, kind, flags)
  {
    if |header| > MAXLEN {
      return false;
    }
    if header == "" {
      return !NeedsHeader(kind, flags);
    }
    var bad := FindBad(header, 0, BadInHeader);
    return !bad;
  }

  method CheckValue(value: string, kind: Kind, flags: Flags) returns (ok: bool)
    ensures ok <==> ValueOk(value, kind, flags)
  {
    if |value| > MAXLEN {
      return false;
    }
    if value == "" {
      return kind.MimeMultipart? || kind.TextPlain?;
    }
    ok := true;
    if !flags.plain {
      ok := CheckPattern(value, kind);
    }
  }

  method CheckMailbox(folder: string) returns (ok: bool)
    ensures ok <==> forall k :: 0 <= k < |folder| ==> MailboxCharOk(folder, k)
  {
    var c: nat := 0;
    while c < |folder| && MailboxCharOk(folder, c)
      invariant c <= |folder| && forall k :: 0 <= k < c ==> MailboxCharOk(folder, k)
    {
      c := c + 1;
    }
    return c == |folder|;
  }

  method CheckFolder(folder: string) returns (ok: bool)
    ensures ok <==> FolderOk(folder)
  {
    if |folder| > MAXLEN {
      return false;
    }
    if folder != "" && (folder[0] == '*' || folder[0] == '!') {
      var bad := FindBad(folder, 1, BadInAddress);
      return !bad;
    }
    if folder != "" && folder[0] == '+' {
      var any := FindBad(folder, 1, c => !IsBlank(c));
      assert forall k :: 1 <= k < |folder| ==> folder[k] == folder[1..][k - 1];
      assert forall k :: 0 <= k < |folder[1..]| ==> folder[1..][k] == folder[k + 1];
      return any;
    }
    if folder == "." {
      return true;
    }
    ok := CheckMailbox(folder);
  }

  /** maildir_filter_ruleupdate, up to the point where the rule is overwritten. */
  method Validate(name: Option<string>, kind: Kind, flags: Flags, header: Option<string>,
                  value: Option<string>, folder: Option<string>, from: string) returns (u: Update)
    ensures u == RuleUpdate(name, kind, flags, header, value, folder, from)
  {
    hide NameOk, HeaderOk, ValueOk, FolderOk, StoredFolder;
    if name.None? {
      return Refused(BadRuleName);
    }
    var ok := CheckName(name.value);
    if !ok {
      return Refused(BadRuleName);
    }
    ok := CheckHeader(OrEmpty(header), kind, flags);
    if !ok {
      return Refused(BadRuleHeader);
    }
    ok := CheckValue(OrEmpty(value), kind, flags);
    if !ok {
      return Refused(BadRuleValue);
    }
    var start := SkipBlanks(from, 0);
    assert from[0..] == from;
    var bad := FindBad(from[start..], 0, BadInFrom);
    if bad {
      return Refused(BadFromHdr);
    }
    if folder.None? {
      return Refused(BadRuleFolder);
    }
    ok := CheckFolder(folder.value);
    if !ok {
      return Refused(BadRuleFolder);
    }
    return Accepted(Rule(name.value, kind, flags, OrEmpty(header), OrEmpty(value),
                         StoredFolder(folder.value), from[start..]));
  }
}
