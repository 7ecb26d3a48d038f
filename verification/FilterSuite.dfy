/** What the test suite of wmail/maildir expects of mail filters: its rules, the codes of those
    that are refused, and the scripts of those that are not. */
module FilterSuite {
  import opened CStrings
  import opened FilterRules
  import opened FilterFile

  const NEGATED := Flags(true, false, false, false)

  const INBODY := Flags(false, true, false, false)

  function Append(name: string, kind: Kind, flags: Flags, header: string, value: string, folder: string): Update {
    RuleUpdate(Some(name), kind, flags, Some(header), Some(value), Some(folder), "")
  }

  function Appended(name: string, kind: Kind, flags: Flags, header: string, value: string, folder: string): Update {
    Accepted(Rule(name, kind, flags, header, value, folder, ""))
  }

  // ----- words

  predicate IsWord(s: string) {
    |s| <= 200 && forall c :: c in s ==> IsAlnum(c)
  }

  lemma WordOk(s: string, kind: Kind, flags: Flags)
    requires IsWord(s) && s != ""
    ensures NameOk(s) && HeaderOk(s, kind, flags)
  {
    forall k | 0 <= k < |s|
      ensures !BadInName(s[k]) && !BadInHeader(s[k])
    {
      assert s[k] in s;
    }
  }

  /** Words, and the characters of an address. */
  predicate IsPlain(v: string) {
    |v| <= 200 && forall c :: c in v ==> IsAlnum(c) || c == '@' || c == '.'
  }

  lemma {:induction false} PlainScanned(v: string, rest: string, kind: Kind, open: nat)
    requires IsPlain(v) && !kind.IsLargerThan?
    ensures ScanPattern(v + rest, kind, open) <==> ScanPattern(rest, kind, open)
  {
    if v == "" {
      assert v + rest == rest;
    } else {
      assert v[0] in v && (v + rest)[1..] == v[1..] + rest;
      PlainScanned(v[1..], rest, kind, open);
    }
  }

  lemma PlainAlone(v: string, kind: Kind)
    requires IsPlain(v) && !kind.IsLargerThan?
    ensures ScanPattern(v, kind, 0) && |v| <= 200
  {
    assert v + "" == v;
    PlainScanned(v, "", kind, 0);
  }

  lemma WordMailbox(s: string)
    requires IsWord(s)
    ensures FolderOk(s) && StoredFolder(s) == "." + s
  {
    forall k | 0 <= k < |s|
      ensures MailboxCharOk(s, k)
    {
      assert s[k] in s;
    }
    assert s != "" ==> s[0] in s;
  }

  // ----- what makes a rule accepted or refused

  lemma Added(name: string, kind: Kind, flags: Flags, header: string, value: string, folder: string)
    requires IsWord(name) && name != "" && IsWord(header) && (header != "" || !NeedsHeader(kind, flags))
    requires ValueOk(value, kind, flags) && FolderOk(folder)
    ensures Append(name, kind, flags, header, value, folder) ==
            Appended(name, kind, flags, header, value, StoredFolder(folder))
  {
    hide ValueOk, FolderOk, StoredFolder, NameOk, IsWord;
    WordOk(name, kind, flags);
    if header != "" {
      WordOk(header, kind, flags);
    }
  }

  lemma ValueRefused(name: string, kind: Kind, flags: Flags, value: string, folder: string)
    requires IsWord(name) && name != "" && value != "" && !flags.plain && !ScanPattern(value, kind, 0)
    ensures Append(name, kind, flags, "subject", value, folder) == Refused(BadRuleValue)
  {
    hide NameOk, IsWord, ScanPattern, HeaderOk;
    WordOk(name, kind, flags);
    Folders();
    WordOk("subject", kind, flags);
  }


  lemma Names()
    ensures IsWord("rule1") && IsWord("rule2") && IsWord("rule3") && IsWord("rule4") && IsWord("rule5")
    ensures IsWord("rule6") && IsWord("rule7") && IsWord("rule8") && IsWord("rule9") && IsWord("rule9b")
    ensures IsWord("rule10") && IsWord("rule11") && IsWord("rule12") && IsWord("ruleauto1")
    ensures IsWord("err1") && IsWord("err3") && IsWord("err4") && IsWord("err5") && IsWord("err6") && IsWord("err7")
  {}

  lemma Folders()
    ensures IsWord("") && IsWord("folder1") && IsWord("everything") && IsWord("Sent") && IsWord("junk1")
    ensures IsWord("attachments") && IsWord("nottext") && IsWord("subject")
  {}

  lemma Dotted()
    ensures "." + "" == "." && "." + "folder1" == ".folder1" && "." + "everything" == ".everything"
    ensures "." + "Sent" == ".Sent" && "." + "junk1" == ".junk1" && "." + "nottext" == ".nottext"
    ensures "." + "attachments" == ".attachments"
  {}

  lemma Values()
    ensures IsPlain("important") && IsPlain("notimportant") && IsPlain("everything") && IsPlain("x")
    ensures IsPlain("nobody@example.com") && IsPlain("no") && IsPlain("good")
  {}

  // ----- the rules

  lemma RuleToMailbox(name: string, kind: Kind, flags: Flags, header: string, value: string, folder: string)
    requires IsWord(name) && name != "" && IsWord(header) && (header != "" || !NeedsHeader(kind, flags))
    requires ValueOk(value, kind, flags) && IsWord(folder)
    ensures Append(name, kind, flags, header, value, folder) ==
            Appended(name, kind, flags, header, value, "." + folder)
  {
    hide ValueOk, FolderOk, StoredFolder, IsWord, Append, Appended;
    WordMailbox(folder);
    Added(name, kind, flags, header, value, folder);
  }

  lemma ToMailboxes()
    ensures Append("rule1", StartsWith, NOFLAGS, "subject", "important", "") ==
            Appended("rule1", StartsWith, NOFLAGS, "subject", "important", ".")
    ensures Append("rule2", EndsWith, NEGATED, "subject", "notimportant", "folder1") ==
            Appended("rule2", EndsWith, NEGATED, "subject", "notimportant", ".folder1")
    ensures Append("rule3", Contains, NOFLAGS, "subject", "everything", "everything") ==
            Appended("rule3", Contains, NOFLAGS, "subject", "everything", ".everything")
    ensures Append("rule9b", StartsWith, INBODY, "", "x", "Sent") ==
            Appended("rule9b", StartsWith, INBODY, "", "x", ".Sent")
  {
    hide IsWord, IsPlain, ScanPattern, Append, Appended;
    Names();
    Folders();
    Dotted();
    Values();
    PlainAlone("important", StartsWith);
    RuleToMailbox("rule1", StartsWith, NOFLAGS, "subject", "important", "");
    PlainAlone("notimportant", EndsWith);
    RuleToMailbox("rule2", EndsWith, NEGATED, "subject", "notimportant", "folder1");
    PlainAlone("everything", Contains);
    RuleToMailbox("rule3", Contains, NOFLAGS, "subject", "everything", "everything");
    PlainAlone("x", StartsWith);
    RuleToMailbox("rule9b", StartsWith, INBODY, "", "x", "Sent");
  }

  lemma OtherKinds()
    ensures Append("rule4", HasRecipient, NOFLAGS, "", "nobody@example.com", "junk1") ==
            Appended("rule4", HasRecipient, NOFLAGS, "", "nobody@example.com", ".junk1")
    ensures Append("rule5", MimeMultipart, NOFLAGS, "", "", "attachments") ==
            Appended("rule5", MimeMultipart, NOFLAGS, "", "", ".attachments")
    ensures Append("rule6", TextPlain, NEGATED, "", "", "nottext") ==
            Appended("rule6", TextPlain, NEGATED, "", "", ".nottext")
    ensures Append("rule8", StartsWith, NOFLAGS, "subject", "(good)", "") ==
            Appended("rule8", StartsWith, NOFLAGS, "subject", "(good)", ".")
  {
    hide IsWord, IsPlain, ScanPattern, Append, Appended;
    Names();
    Folders();
    Dotted();
    Values();
    PlainAlone("nobody@example.com", HasRecipient);
    RuleToMailbox("rule4", HasRecipient, NOFLAGS, "", "nobody@example.com", "junk1");
    RuleToMailbox("rule5", MimeMultipart, NOFLAGS, "", "", "attachments");
    RuleToMailbox("rule6", TextPlain, NEGATED, "", "", "nottext");
    Balanced(StartsWith);
    RuleToMailbox("rule8", StartsWith, NOFLAGS, "subject", "(good)", "");
  }

  lemma Balanced(kind: Kind)
    requires kind == StartsWith
    ensures ScanPattern("(good)", kind, 0)
  {
    Values();
    var s := "(good)";
    assert s[1..] == "good" + ")" && ")"[1..] == "";
    PlainScanned("good", ")", kind, 1);
  }

  // ----- the patterns that are refused

  lemma BadCharacters(kind: Kind)
    requires kind == StartsWith
    ensures !ScanPattern("no/good", kind, 0) && !ScanPattern("no!good", kind, 0) && !ScanPattern("no'good", kind, 0)
  {
    Values();
    assert "no/good" == "no" + "/good" && "no!good" == "no" + "!good" && "no'good" == "no" + "'good";
    PlainScanned("no", "/good", kind, 0);
    PlainScanned("no", "!good", kind, 0);
    PlainScanned("no", "'good", kind, 0);
  }

  lemma BadParentheses(kind: Kind)
    requires kind == StartsWith
    ensures !ScanPattern("no()good", kind, 0) && !ScanPattern("no)good", kind, 0) && !ScanPattern("no(good", kind, 0)
  {
    Values();
    assert "no()good" == "no" + "()good" && "no)good" == "no" + ")good" && "no(good" == "no" + "(good";
    PlainScanned("no", "()good", kind, 0);
    PlainScanned("no", ")good", kind, 0);
    PlainScanned("no", "(good", kind, 0);
    assert "(good"[1..] == "good" + "";
    PlainScanned("good", "", kind, 1);
  }

  lemma BadQuote(kind: Kind)
    requires kind == StartsWith
    ensures !ScanPattern("no\\/\\'\"good", kind, 0)
  {
    Values();
    assert "no\\/\\'\"good" == "no" + "\\/\\'\"good";
    PlainScanned("no", "\\/\\'\"good", kind, 0);
    assert "\\/\\'\"good"[2..] == "\\'\"good" && "\\'\"good"[2..] == "\"good";
  }

  lemma RefusedValues()
    ensures Append("err1", StartsWith, NOFLAGS, "subject", "no/good", "") == Refused(BadRuleValue)
    ensures Append("rule7", StartsWith, NOFLAGS, "subject", "no\\/\\'\"good", "") == Refused(BadRuleValue)
    ensures Append("err3", StartsWith, NOFLAGS, "subject", "no!good", "") == Refused(BadRuleValue)
    ensures Append("err4", StartsWith, NOFLAGS, "subject", "no'good", "") == Refused(BadRuleValue)
    ensures Append("err5", StartsWith, NOFLAGS, "subject", "no(good", "") == Refused(BadRuleValue)
    ensures Append("err6", StartsWith, NOFLAGS, "subject", "no()good", "") == Refused(BadRuleValue)
    ensures Append("err7", StartsWith, NOFLAGS, "subject", "no)good", "") == Refused(BadRuleValue)
  {
    hide IsWord, ScanPattern, Append;
    Names();
    BadCharacters(StartsWith);
    BadParentheses(StartsWith);
    BadQuote(StartsWith);
    ValueRefused("err1", StartsWith, NOFLAGS, "no/good", "");
    ValueRefused("rule7", StartsWith, NOFLAGS, "no\\/\\'\"good", "");
    ValueRefused("err3", StartsWith, NOFLAGS, "no!good", "");
    ValueRefused("err4", StartsWith, NOFLAGS, "no'good", "");
    ValueRefused("err5", StartsWith, NOFLAGS, "no(good", "");
    ValueRefused("err6", StartsWith, NOFLAGS, "no()good", "");
    ValueRefused("err7", StartsWith, NOFLAGS, "no)good", "");
  }

  lemma RefusedHeaders(value: string, folder: string)
    ensures Append("err8", StartsWith, NOFLAGS, "subject:", value, folder) == Refused(BadRuleHeader)
    ensures Append("err13", StartsWith, NOFLAGS, "/subject", value, folder) == Refused(BadRuleHeader)
  {
    hide ScanPattern, FolderOk;
    assert IsWord("err8") && IsWord("err13");
    WordOk("err8", StartsWith, NOFLAGS);
    WordOk("err13", StartsWith, NOFLAGS);
    assert "subject:"[7] == ':' && "/subject"[0] == '/';
  }

  // ----- sizes, and destinations that are no mailbox

  lemma Sizes(folder: string)
    requires FolderOk(folder)
    ensures Append("rule11", IsLargerThan, NOFLAGS, "", "100000", folder) ==
            Appended("rule11", IsLargerThan, NOFLAGS, "", "100000", StoredFolder(folder))
    ensures Append("err14", IsLargerThan, NOFLAGS, "", "x100000", folder) == Refused(BadRuleValue)
  {
    hide FolderOk, StoredFolder;
    Names();
    Folders();
    SizePattern(IsLargerThan);
    Added("rule11", IsLargerThan, NOFLAGS, "", "100000", folder);
    assert IsWord("err14");
    WordOk("err14", IsLargerThan, NOFLAGS);
    assert HeaderOk("", IsLargerThan, NOFLAGS);
  }

  lemma SizePattern(kind: Kind)
    requires kind == IsLargerThan
    ensures ScanPattern("100000", kind, 0) && !ScanPattern("x100000", kind, 0)
  {
    var s := "100000";
    assert s[1..] == "00000" && "00000"[1..] == "0000" && "0000"[1..] == "000";
    assert "000"[1..] == "00" && "00"[1..] == "0" && "0"[1..] == "";
  }

  lemma GoodAddresses()
    ensures FolderOk("!john@example.com mary@example.com") && FolderOk("*bounce")
  {
    hide FolderOk;
    AddressOk("!john@example.com mary@example.com");
    AddressOk("*bounce");
  }

  lemma GoodResponder()
    ensures FolderOk("+dummy dsn=1 days=7") && FolderOk("+dummy2")
  {
    assert !IsBlank("+dummy dsn=1 days=7"[1..][0]) && !IsBlank("+dummy2"[1..][0]);
  }

  lemma BadAddresses()
    ensures !FolderOk("!john@example.com; foo") && !FolderOk("!john@example.com `foo`")
  {
    BadAddress("!john@example.com; foo", 17);
    BadAddress("!john@example.com `foo`", 18);
  }

  lemma BadAddress(s: string, k: nat)
    requires 0 < k < |s| && s[0] == '!' && (s[k] == ';' || s[k] == '`')
    ensures !FolderOk(s)
  {
    assert SHELL[5] == ';' && SHELL[4] == '`';
  }

  lemma AddressOk(s: string)
    requires 0 < |s| <= 200 && (s[0] == '!' || s[0] == '*')
    requires forall c :: c in s ==> c == s[0] || IsAlnum(c) || c == '@' || c == '.' || c == ' '
    ensures FolderOk(s)
  {
    forall k | 1 <= k < |s|
      ensures !BadInAddress(s[k])
    {
      assert s[k] in s;
      Harmless(s[k]);
    }
  }

  lemma Harmless(c: char)
    requires c in "!*@. " || IsAlnum(c)
    ensures !BadInAddress(c)
  {}

  // ----- the characters that are refused

  lemma NamesAre(s: string)
    ensures NameOk(s) <==> 0 < |s| <= 200 && forall c :: c in s ==> c >= ' ' && c != '\'' && c != '"' && c != '`'
  {
    assert forall k :: 0 <= k < |s| ==> s[k] in s;
  }

  lemma HeadersAre(s: string, kind: Kind, flags: Flags)
    ensures HeaderOk(s, kind, flags) <==>
      && |s| <= 200
      && (s == "" ==> flags.body || kind.HasRecipient? || kind.MimeMultipart? || kind.TextPlain? || kind.IsLargerThan?)
      && forall c :: c in s ==> c > ' ' && c != ':' && (c as int) < 127 && c != '\'' && c != '"' && c != '`'
                                && c != '\\' && c != '/'
  {
    assert forall k :: 0 <= k < |s| ==> s[k] in s;
  }

  lemma SendersAre(s: string)
    ensures FromOk(s) <==> forall c :: c in s ==> c >= ' ' && c != '\'' && c != '\\'
  {
    assert forall k :: 0 <= k < |s| ==> s[k] in s;
  }

  lemma AddressCharacters(c: char)
    ensures BadInAddress(c) <==>
      || c < ' ' || c == '\'' || c == '"' || c == '$' || c == '\\' || c == '`' || c == ';' || c == '(' || c == ')'
      || c == '{' || c == '}' || c == '#' || c == '&' || c == '<' || c == '>' || c == '~'
  {}

  lemma PatternCharacters(c: char)
    ensures BadInPattern(c) <==> c < ' ' || c == '/' || c == '$' || c == '!' || c == '\'' || c == '"' || c == '`'
  {}

  // ----- the scripts

  lemma Conditions(r: Rule)
    requires !r.flags.plain && (r.value == "" || !IsSpace(r.value[0]))
    ensures r.kind.StartsWith? ==>
      Condition(r) == if r.flags.body then "/^" + r.value + "/:b" else "/^" + r.header + ": *" + r.value + "/"
    ensures r.kind.EndsWith? ==>
      Condition(r) == if r.flags.body then "/" + r.value + "$/:b" else "/^" + r.header + ":.*" + r.value + "$/"
    ensures r.kind.Contains? ==>
      Condition(r) == if r.flags.body then "/" + r.value + "/:b" else "/^" + r.header + ":.*" + r.value + "/"
    ensures r.kind.HasRecipient? ==> Condition(r) == "hasaddr(\"" + r.value + "\")"
    ensures r.kind.IsLargerThan? ==> Condition(r) == "$SIZE > " + r.value
  {
    assert "" + r.value == r.value;
  }

  lemma TestLine(r: Rule)
    ensures Test(r) == if r.flags.doesNot then "if (!(" + Condition(r) + "))" else "if ((" + Condition(r) + "))"
  {
    hide Condition;
    assert "if (" + "!" + "(" == "if (!(" && "if (" + "" + "(" == "if ((";
    Regroup("if (" + (if r.flags.doesNot then "!" else ""), "(", Condition(r));
    Regroup("if (" + (if r.flags.doesNot then "!" else "") + "(", Condition(r), "))");
  }

  lemma MailboxAction(r: Rule, path: string, mailbot: string)
    requires r.folder != "" && r.folder[0] == '.' && !r.flags.continues
    ensures |Action(r, path, mailbot)| == 1
    ensures Action(r, path, mailbot)[0] ==
            "   to" + " \"" + path + (if r.folder == "." then "" else "/.") + r.folder[1..] + "/.\""
  {
    assert "   " + "to" == "   to";
    assert r.folder[1..] == "" <==> r.folder == ".";
  }

  lemma OtherActions(r: Rule, path: string, mailbot: string)
    requires r.folder != "" && !r.flags.continues
    ensures r.folder[0] == '*' ==>
            Action(r, path, mailbot) == ["    echo \"" + r.folder[1..] + "\"", "    EXITCODE=77", "    exit"]
    ensures r.folder[0] == '!' ==>
            Action(r, path, mailbot) == ["    to" + " \"| $SENDMAIL -f \" '\"$SENDER\"' \" " + r.folder[1..] + "\""]
  {
    assert "    " + "to" == "    to";
  }

  lemma KindNames()
    ensures KindName(StartsWith) == "startswith" && KindName(EndsWith) == "endswith" && KindName(Contains) == "contains"
    ensures KindName(HasRecipient) == "hasrecipient" && KindName(MimeMultipart) == "mimemultipart"
    ensures KindName(TextPlain) == "textplain" && KindName(IsLargerThan) == "islargerthan"
  {}

  /** What stands around the test and the action of a rule. */
  lemma RuleText(r: Rule, path: string, mailbot: string)
    requires r.flags == NEGATED
    ensures RuleLines(r, path, mailbot) ==
            ["##Op:" + KindName(r.kind), "##Header:" + r.header, "##Value:" + r.value, "##Folder:" + r.folder,
             "##From:" + r.from, "##DoesNot", "##Name:" + r.name, "", "", Test(r), "{"]
            + Action(r, path, mailbot) + ["}", ""]
  {
    hide Test, Action, KindName;
  }
}
