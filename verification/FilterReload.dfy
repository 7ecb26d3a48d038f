/** Loading the file of a mail filter gives back the rules that were saved to it. */
module FilterReload {
  import opened CStrings
  import opened Decimal
  import opened FilterRules
  import opened FilterFile

  // ----- the script is passed over

  ghost predicate AllQuiet(lines: seq<string>) {
    forall k :: 0 <= k < |lines| ==> Quiet(lines[k])
  }

  lemma ActionQuiet(r: Rule, path: string, mailbot: string)
    ensures AllQuiet(Action(r, path, mailbot))
  {
    hide AutoresponderOk, ParseAutoresponder, Sender, Mailbox, Responder, Forward, Echo, Quiet;
    if r.folder != "" {
      FolderQuiet(r);
      ResponderQuiet(ParseAutoresponder(r.folder[1..]), path, mailbot);
      FixedQuiet();
    }
    MailboxQuiet(r, path);
  }

  lemma FixedQuiet()
    ensures Quiet("    EXITCODE=77") && Quiet("    exit")
  {
    assert "    EXITCODE=77"[0] == ' ' && "    exit"[0] == ' ';
  }

  lemma FolderQuiet(r: Rule)
    requires r.folder != ""
    ensures Quiet(Forward(r)) && Quiet(Echo(r)) && Quiet(Sender(r))
  {
    hide ToWord;
    assert Forward(r)[0] == ' ' && Echo(r)[0] == ' ' && Sender(r)[0] == ' ';
  }

  lemma ResponderQuiet(a: Autoresponder, path: string, mailbot: string)
    ensures Quiet(Responder(a, path, mailbot))
  {
    hide Message, Database;
    assert Headers(a, mailbot)[0] == ' ';
    assert Responder(a, path, mailbot)[0] == ' ';
  }

  lemma MailboxQuiet(r: Rule, path: string)
    ensures Quiet(Mailbox(r, path))
  {
    hide ToWord;
    assert Mailbox(r, path)[0] == ' ';
  }

  lemma ScriptQuiet(r: Rule, path: string, mailbot: string)
    ensures AllQuiet(Script(r, path, mailbot))
  {
    hide Action, Condition;
    ActionQuiet(r, path, mailbot);
    assert Test(r)[0] == 'i';
  }

  lemma PrologQuiet(from: string)
    ensures AllQuiet(Prolog(from))
  {
    hide Unquoted;
    var lines := Prolog(from);
    assert |lines[0]| == 1 && lines[1][1] == ' ' && lines[2] == "" && lines[3][0] == 'F' && lines[4][0] == 'i';
    assert lines[5][0] == 'i' && lines[6][0] == '{' && lines[7][0] == ' ' && lines[8][0] == '}' && lines[9] == "";
  }

  lemma LoadStep(line: string, rest: seq<string>, p: Pending, done: seq<Rule>)
    ensures var note := NoteOf(line);
      LoadFrom([line] + rest, p, done) ==
      if note.Op? && KindOf(note.text).None? then Loaded(LoadForeign, done)
      else if note.Name? then
        if Made(note.text, p).Refused? then Loaded(LoadError, done)
        else LoadFrom(rest, FRESH, done + [Made(note.text, p).rule])
      else LoadFrom(rest, Noted(p, note), done)
  {
    hide NoteOf, KindOf, Made, Noted;
    assert ([line] + rest)[1..] == rest;
  }

  lemma {:induction false} LoadQuiet(lines: seq<string>, rest: seq<string>, p: Pending, done: seq<Rule>)
    requires AllQuiet(lines)
    ensures LoadFrom(lines + rest, p, done) == LoadFrom(rest, p, done)
  {
    hide LoadFrom, Quiet, NoteAt, KindOf, Made;
    if lines == [] {
      assert lines + rest == rest;
    } else {
      assert Quiet(lines[0]);
      assert lines + rest == [lines[0]] + (lines[1..] + rest);
      LoadStep(lines[0], lines[1..] + rest, p, done);
      LoadQuiet(lines[1..], rest, p, done);
    }
  }

  // ----- the comments of a rule are taken in

  lemma {:induction false} KindFromIs(i: nat, j: nat)
    requires i <= j < |KINDS|
    ensures KindFrom(KindName(KINDS[j]), i) == Some(KINDS[j])
    decreases j - i
  {
    hide SameText, KindName;
    if i == j {
      SameItself(KindName(KINDS[j]));
    } else {
      OtherKinds();
      KindFromIs(i + 1, j);
    }
  }

  lemma KindOfName(kind: Kind)
    ensures KindOf(KindName(kind)) == Some(kind)
  {
    hide KindName, KindFrom;
    var j := match kind
      case StartsWith => 0
      case EndsWith => 1
      case Contains => 2
      case HasRecipient => 3
      case MimeMultipart => 4
      case TextPlain => 5
      case IsLargerThan => 6;
    KindFromIs(0, j);
  }

  lemma SameItself(s: string)
    ensures SameText(s, s)
  {}

  /** No kind's name is another's. */
  lemma OtherKinds()
    ensures forall i, j :: 0 <= i < j < |KINDS| ==> !SameText(KindName(KINDS[i]), KindName(KINDS[j]))
  {
    forall i, j | 0 <= i < j < |KINDS|
      ensures !SameText(KindName(KINDS[i]), KindName(KINDS[j]))
    {
      var a, b := KindName(KINDS[i]), KindName(KINDS[j]);
      assert |a| != |b| || a[0] != b[0];
    }
  }

  function Collected(r: Rule): Pending {
    Pending(r.kind, Cut(r.header, 256), Cut(r.value, 256), Cut(r.folder, 256), Cut(r.from, 512), NOFLAGS)
  }

  lemma LoadTexts(r: Rule, rest: seq<string>, done: seq<Rule>)
    ensures LoadFrom(Texts(r) + rest, FRESH, done) == LoadFrom(rest, Collected(r), done)
  {
    hide LoadFrom, NoteOf, KindOf, KindName, Cut, Made;
    var t := Texts(r);
    var rest4 := [t[4]] + rest;
    var rest3 := [t[3]] + rest4;
    var rest2 := [t[2]] + rest3;
    var rest1 := [t[1]] + rest2;
    assert t + rest == [t[0]] + rest1;
    KindOfName(r.kind);
    OpNote(KindName(r.kind));
    HeaderNote(r.header);
    ValueNote(r.value);
    FolderNote(r.folder);
    FromNote(r.from);
    var p1 := FRESH.(kind := r.kind);
    var p2 := p1.(header := Cut(r.header, 256));
    var p3 := p2.(value := Cut(r.value, 256));
    var p4 := p3.(folder := Cut(r.folder, 256));
    LoadStep(t[0], rest1, FRESH, done);
    LoadStep(t[1], rest2, p1, done);
    LoadStep(t[2], rest3, p2, done);
    LoadStep(t[3], rest4, p3, done);
    LoadStep(t[4], rest, p4, done);
  }

  lemma LoadFlag(on: bool, line: string, rest: seq<string>, p: Pending, done: seq<Rule>)
    requires NoteOf(line) in {PlainString, DoesNot, Body, Continue}
    ensures LoadFrom(Flag(on, line) + rest, p, done) ==
            LoadFrom(rest, if on then Noted(p, NoteOf(line)) else p, done)
  {
    hide LoadFrom, NoteOf, KindOf, Made, Noted;
    if on {
      LoadStep(line, rest, p, done);
    } else {
      assert Flag(on, line) + rest == rest;
    }
  }

  lemma LoadFlags(f: Flags, rest: seq<string>, p: Pending, done: seq<Rule>)
    requires p.flags == NOFLAGS
    ensures LoadFrom(FlagNotes(f) + rest, p, done) == LoadFrom(rest, p.(flags := f), done)
  {
    hide LoadFrom, NoteOf, KindOf, Made, Flag;
    var rest3 := Flag(f.continues, "##Continue") + rest;
    var rest2 := Flag(f.body, "##Body") + rest3;
    var rest1 := Flag(f.doesNot, "##DoesNot") + rest2;
    FlagsSplit(f, rest);
    PlainNote();
    DoesNotNote();
    BodyNote();
    ContinueNote();
    var p1 := p.(flags := NOFLAGS.(plain := f.plain));
    var p2 := p1.(flags := p1.flags.(doesNot := f.doesNot));
    var p3 := p2.(flags := p2.flags.(body := f.body));
    LoadFlag(f.plain, "##PlainString", rest1, p, done);
    LoadFlag(f.doesNot, "##DoesNot", rest2, p1, done);
    LoadFlag(f.body, "##Body", rest3, p2, done);
    LoadFlag(f.continues, "##Continue", rest, p3, done);
  }

  lemma FlagsSplit(f: Flags, rest: seq<string>)
    ensures FlagNotes(f) + rest ==
            Flag(f.plain, "##PlainString") + (Flag(f.doesNot, "##DoesNot") +
            (Flag(f.body, "##Body") + (Flag(f.continues, "##Continue") + rest)))
  {
    hide Flag;
  }

  // ----- a rule comes back

  /** What the buffer for the sender keeps of a rule. */
  function Kept(r: Rule): Rule {
    r.(from := Cut(r.from, 512))
  }

  predicate Keeps(r: Rule) {
    |r.folder| <= MAXLEN && |r.from| < 512
  }

  lemma MadeAgain(r: Rule)
    requires Stored(r)
    ensures Made(r.name, Collected(r).(flags := r.flags)) ==
            if |r.folder| <= MAXLEN then Accepted(Kept(r)) else Refused(BadRuleFolder)
  {
    hide NameOk, HeaderOk, ValueOk, FromOk, StoredFolderOk, RuleUpdate;
    ShortTexts(r);
    FromCut(r.from);
    StoredAgain(Kept(r));
  }

  lemma ShortTexts(r: Rule)
    requires Stored(r)
    ensures |r.header| <= MAXLEN && |r.value| <= MAXLEN && |r.folder| <= MAXLEN + 1 && |r.name| <= MAXLEN
  {}

  lemma FromCut(from: string)
    requires FromOk(from) && (from == "" || !IsSpace(from[0]))
    ensures var s := Cut(from, 512); FromOk(s) && (s == "" || !IsSpace(s[0]))
  {}

  lemma RuleSplit(r: Rule, path: string, mailbot: string, rest: seq<string>)
    ensures RuleLines(r, path, mailbot) + rest ==
            Texts(r) + (FlagNotes(r.flags) + (["##Name:" + r.name] + (Script(r, path, mailbot) + rest)))
  {
    hide Texts, FlagNotes, Script;
  }

  lemma LoadRule(r: Rule, path: string, mailbot: string, rest: seq<string>, done: seq<Rule>)
    requires Stored(r)
    ensures LoadFrom(RuleLines(r, path, mailbot) + rest, FRESH, done) ==
            if |r.folder| <= MAXLEN then LoadFrom(rest, FRESH, done + [Kept(r)]) else Loaded(LoadError, done)
  {
    hide LoadFrom, NoteOf, KindOf, Made, Texts, FlagNotes, Script, RuleLines, AllQuiet, Stored, Kept;
    var script := Script(r, path, mailbot);
    RuleSplit(r, path, mailbot, rest);
    LoadTexts(r, FlagNotes(r.flags) + (["##Name:" + r.name] + (script + rest)), done);
    LoadFlags(r.flags, ["##Name:" + r.name] + (script + rest), Collected(r), done);
    NameNote(r.name);
    LoadStep("##Name:" + r.name, script + rest, Collected(r).(flags := r.flags), done);
    MadeAgain(r);
    ScriptQuiet(r, path, mailbot);
    LoadQuiet(script, rest, FRESH, done + [Kept(r)]);
  }

  // ----- the list comes back

  /** The rules up to the first whose folder's name has become too long; the rest are not read. */
  function Reloaded(rules: seq<Rule>, done: seq<Rule>): Loaded
    decreases |rules|
  {
    if rules == [] then Loaded(LoadOk, done)
    else if |rules[0].folder| > MAXLEN then Loaded(LoadError, done)
    else Reloaded(rules[1..], done + [Kept(rules[0])])
  }

  ghost predicate AllStored(rules: seq<Rule>) {
    forall k :: 0 <= k < |rules| ==> Stored(rules[k])
  }

  lemma LoadNothing(p: Pending, done: seq<Rule>)
    ensures LoadFrom([], p, done) == Loaded(LoadOk, done)
  {}

  lemma {:induction false} LoadRules(rules: seq<Rule>, path: string, mailbot: string, tail: seq<string>,
                                     done: seq<Rule>)
    requires AllStored(rules) && AllQuiet(tail)
    ensures LoadFrom(RulesLines(rules, path, mailbot) + tail, FRESH, done) == Reloaded(rules, done)
    decreases |rules|
  {
    hide LoadFrom, RuleLines, Stored, Kept, AllQuiet;
    if rules == [] {
      assert RulesLines(rules, path, mailbot) + tail == tail + [];
      LoadQuiet(tail, [], FRESH, done);
      LoadNothing(FRESH, done);
    } else {
      var rest := RulesLines(rules[1..], path, mailbot) + tail;
      assert RulesLines(rules, path, mailbot) + tail == RuleLines(rules[0], path, mailbot) + rest;
      assert Stored(rules[0]);
      LoadRule(rules[0], path, mailbot, rest, done);
      assert AllStored(rules[1..]);
      LoadRules(rules[1..], path, mailbot, tail, done + [Kept(rules[0])]);
    }
  }

  lemma HeadingRead()
    ensures IsHeading(HEADING)
  {
    assert HEADING[12..] == "2" && HEADING[..12] == "#MFMAILDROP=";
    AtoiDigit();
  }

  lemma AtoiDigit()
    ensures Atoi("2") == 2
  {
    DigitsEndIs("2", 0, 1);
    assert "2"[0..1] == "2" && "2"[..0] == "";
  }

  /** A saved file, read back: whatever the rules are, as long as the lines fit. */
  lemma LoadSaved(rules: seq<Rule>, path: string, mailbot: string, from: string, room: nat)
    requires AllStored(rules) && AllFit(SaveLines(rules, path, mailbot, from), room) && room > 0
    ensures Load(Save(rules, path, mailbot, from), room, []) == Reloaded(rules, [])
  {
    hide LoadFrom, Prolog, RulesLines, AllStored, AllQuiet, AllFit, IsHeading;
    var lines := SaveLines(rules, path, mailbot, from);
    var last := ["to \"" + path + "/.\""];
    LinesOfUnlines(lines, room);
    HeadingRead();
    assert lines[1..] == Prolog(from) + (RulesLines(rules, path, mailbot) + last);
    PrologQuiet(from);
    LoadQuiet(Prolog(from), RulesLines(rules, path, mailbot) + last, FRESH, []);
    LastQuiet(path);
    LoadRules(rules, path, mailbot, last, []);
  }

  lemma LastQuiet(path: string)
    ensures AllQuiet(["to \"" + path + "/.\""])
  {
    assert ("to \"" + path + "/.\"")[0] == 't';
  }

  lemma {:induction false} ReloadedKeeps(rules: seq<Rule>, done: seq<Rule>)
    ensures done <= Reloaded(rules, done).rules
    decreases |rules|
  {
    hide Kept;
    if rules != [] && |rules[0].folder| <= MAXLEN {
      ReloadedKeeps(rules[1..], done + [Kept(rules[0])]);
    }
  }

  lemma {:induction false} ReloadedAll(rules: seq<Rule>, done: seq<Rule>)
    ensures Reloaded(rules, done) == Loaded(LoadOk, done + rules) <==>
            forall k :: 0 <= k < |rules| ==> Keeps(rules[k])
    decreases |rules|
  {
    if rules == [] {
      assert done + rules == done;
    } else {
      hide Kept, Keeps;
      var next := done + [Kept(rules[0])];
      ReloadedAll(rules[1..], next);
      ReloadedKeeps(rules[1..], next);
      KeptWhole(rules[0]);
      AllOf(rules);
      OneKept(rules, done, Reloaded(rules[1..], next).rules);
    }
  }

  lemma OneKept(rules: seq<Rule>, done: seq<Rule>, after: seq<Rule>)
    requires rules != [] && done + [Kept(rules[0])] <= after
    ensures after == done + rules <==> Kept(rules[0]) == rules[0] && after == done + [Kept(rules[0])] + rules[1..]
  {
    hide Kept;
    assert done + [rules[0]] + rules[1..] == done + rules;
    assert (done + rules)[|done|] == rules[0] && after[|done|] == Kept(rules[0]);
  }

  lemma KeptWhole(r: Rule)
    ensures Keeps(r) <==> |r.folder| <= MAXLEN && Kept(r) == r
  {}

  lemma AllOf(rules: seq<Rule>)
    requires rules != []
    ensures (forall k :: 0 <= k < |rules| ==> Keeps(rules[k])) <==>
            Keeps(rules[0]) && forall k :: 0 <= k < |rules[1..]| ==> Keeps(rules[1..][k])
  {
    hide Keeps;
    assert forall k :: 1 <= k < |rules| ==> rules[k] == rules[1..][k - 1];
    assert forall k :: 0 <= k < |rules| - 1 ==> rules[1..][k] == rules[k + 1];
  }

  /** Exactly the lists come back whole in which every folder's name, with its dot, has at most
      200 characters and every sender fewer than 512. */
  lemma RoundTrip(rules: seq<Rule>, path: string, mailbot: string, from: string, room: nat)
    requires AllStored(rules) && AllFit(SaveLines(rules, path, mailbot, from), room) && room > 0
    ensures Load(Save(rules, path, mailbot, from), room, []) == Loaded(LoadOk, rules) <==>
            forall k :: 0 <= k < |rules| ==> Keeps(rules[k])
  {
    hide Load, Save, AllStored, AllFit, Keeps;
    LoadSaved(rules, path, mailbot, from, room);
    ReloadedAll(rules, []);
    assert [] + rules == rules;
  }
}
