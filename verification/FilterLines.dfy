/** When the lines of a mail filter's file fit the buffer they are read to. */
module FilterLines {
  import opened CStrings
  import opened Decimal
  import opened FilterRules
  import opened FilterFile
  import opened FilterReload

  ghost predicate OneLine(s: string) {
    '\n' !in s
  }

  lemma Joined()
    ensures forall a, b {:trigger OneLine(a + b)} :: OneLine(a) && OneLine(b) ==> OneLine(a + b)
  {}

  lemma Sliced(s: string)
    requires OneLine(s)
    ensures forall i {:trigger s[i..]} :: 0 <= i <= |s| ==> OneLine(s[i..])
    ensures forall i {:trigger s[..i]} :: 0 <= i <= |s| ==> OneLine(s[..i])
  {}

  lemma {:induction false} LiterallyLine(v: string)
    requires OneLine(v)
    ensures OneLine(Literally(v))
  {
    if v != "" {
      assert v == [v[0]] + v[1..];
      LiterallyLine(v[1..]);
    }
  }

  lemma {:induction false} UnquotedLine(from: string)
    requires OneLine(from)
    ensures OneLine(Unquoted(from))
  {
    if from != "" {
      assert from == [from[0]] + from[1..];
      UnquotedLine(from[1..]);
    }
  }

  lemma PatternLine(r: Rule)
    requires OneLine(r.value) && |r.value| <= MAXLEN
    ensures OneLine(Pattern(r)) && |Pattern(r)| <= 2 * MAXLEN + 1
  {
    LiterallyLine(r.value);
  }

  lemma ConditionWords()
    ensures OneLine("/^") && OneLine("/:b") && OneLine(": *") && OneLine("/") && OneLine("$/:b") && OneLine(":.*")
    ensures OneLine("$/") && OneLine("hasaddr(\"") && OneLine("\")") && OneLine("$SIZE > ")
  {}

  lemma FixedConditions()
    ensures OneLine("/^Content-Type: *multipart\\/mixed/")
    ensures OneLine(" (! /^Content-Type:/) || ") && OneLine("/^Content-Type: text\\/plain$/ || ")
    ensures OneLine("/^Content-Type: text\\/plain;/")
  {}

  lemma ConditionLine(r: Rule)
    requires OneLine(r.value) && |r.value| <= MAXLEN && OneLine(r.header) && |r.header| <= MAXLEN
    ensures OneLine(Condition(r)) && |Condition(r)| <= 700
  {
    hide Pattern, OneLine;
    PatternLine(r);
    ConditionWords();
    FixedConditions();
    Joined();
  }

  lemma TestLine(r: Rule)
    requires OneLine(r.value) && |r.value| <= MAXLEN && OneLine(r.header) && |r.header| <= MAXLEN
    ensures Fits(Test(r), 800)
  {
    ConditionLine(r);
    hide Condition;
  }

  lemma {:induction false} OptionsDays(a: Autoresponder, tokens: seq<string>)
    requires a.days < 0x1_0000_0000
    ensures Options(a, tokens).days < 0x1_0000_0000 && Options(a, tokens).name == a.name
    decreases |tokens|
  {
    hide Atoi;
    if tokens != [] {
      OptionsDays(Option0(a, tokens[0]), tokens[1..]);
    }
  }

  lemma ResponderParsed(s: string)
    requires OneLine(s)
    ensures var a := ParseAutoresponder(s); OneLine(a.name) && |a.name| <= |s| && OneLine(OfNat(a.days))
    ensures var a := ParseAutoresponder(s); |OfNat(a.days)| <= 10
  {
    hide Tokens, Options;
    var t := DropBlanks(s);
    var n := |s| - |t| + TokenLength(t);
    OptionsDays(Autoresponder(s[..n], false, 0), Tokens(t[TokenLength(t)..]));
    var a := ParseAutoresponder(s);
    TenDigits();
    LengthOfNat(a.days, 10);
  }

  lemma TenDigits()
    ensures Pow10(10) > 0x1_0000_0000
  {
    assert Pow10(5) == 100_000;
    assert Pow10(10) == 10 * (10 * (10 * (10 * (10 * Pow10(5)))));
  }

  lemma ResponderStart()
    ensures OneLine("   `") && OneLine(" -A \"X-Sender: $FROM\"") && OneLine(" -A \"From: $AUTOREPLYFROM\"")
  {}

  lemma ResponderWords()
    ensures OneLine(" -M \"$FROM\"") && OneLine("") && OneLine(" -m \"") && OneLine("/autoresponses/")
    ensures OneLine("\"") && OneLine(" -d \"") && OneLine(".dat\" -D ") && OneLine(" $SENDMAIL -t -f \"\"`")
  {}

  lemma HeadersLine(a: Autoresponder, mailbot: string)
    requires OneLine(mailbot)
    ensures OneLine(Headers(a, mailbot)) && |Headers(a, mailbot)| <= |mailbot| + 100
  {
    hide OneLine;
    ResponderStart();
    ResponderWords();
    Joined();
  }

  lemma MessageLine(a: Autoresponder, path: string)
    requires OneLine(a.name) && |a.name| <= MAXLEN && OneLine(OfNat(a.days)) && |OfNat(a.days)| <= 10
    requires OneLine(path)
    ensures OneLine(Message(a, path)) && |Message(a, path)| <= |path| + 230
    ensures OneLine(Database(a, path)) && |Database(a, path)| <= |path| + 250
  {
    hide OfNat, OneLine;
    ResponderWords();
    Joined();
  }

  lemma ResponderLine(a: Autoresponder, path: string, mailbot: string)
    requires OneLine(a.name) && |a.name| <= MAXLEN && OneLine(OfNat(a.days)) && |OfNat(a.days)| <= 10
    requires OneLine(path) && OneLine(mailbot)
    ensures Fits(Responder(a, path, mailbot), 2 * |path| + |mailbot| + 700)
  {
    HeadersLine(a, mailbot);
    MessageLine(a, path);
    ResponderWords();
    hide Headers, Message, Database, OneLine;
    Joined();
    LineFits(Responder(a, path, mailbot), 2 * |path| + |mailbot| + 700);
  }

  lemma LineFits(s: string, room: nat)
    requires OneLine(s) && |s| < room
    ensures Fits(s, room)
  {}

  lemma FitsMore(s: string, room: nat, more: nat)
    requires Fits(s, room) && room <= more
    ensures Fits(s, more)
  {}

  /** The strings of a rule that a line could be broken in, and the room its lines need. */
  predicate Unbroken(r: Rule) {
    '\n' !in r.value && '\n' !in r.folder
  }

  lemma StoredLines(r: Rule)
    requires Stored(r)
    ensures OneLine(r.name) && |r.name| <= MAXLEN && OneLine(r.header) && |r.header| <= MAXLEN
    ensures OneLine(r.from) && |r.value| <= MAXLEN && 0 < |r.folder| <= MAXLEN + 1
  {
    hide ValueOk, StoredFolderOk;
    assert forall k :: 0 <= k < |r.name| ==> !BadInName(r.name[k]);
    assert forall k :: 0 <= k < |r.header| ==> !BadInHeader(r.header[k]);
    assert forall k :: 0 <= k < |r.from| ==> !BadInFrom(r.from[k]);
    ShortTexts(r);
    NotEmpty(r);
  }

  lemma NotEmpty(r: Rule)
    requires Stored(r)
    ensures r.folder != ""
  {}

  lemma TextWords()
    ensures OneLine("##Op:") && OneLine("##Header:") && OneLine("##Value:") && OneLine("##Folder:")
    ensures OneLine("##From:") && OneLine("##Name:")
  {}

  lemma KindLine(kind: Kind)
    ensures OneLine(KindName(kind)) && |KindName(kind)| <= 13
  {}

  lemma TextsFit(r: Rule, room: nat)
    requires Stored(r) && Unbroken(r) && room >= 300 && |r.from| + 30 <= room
    ensures AllFit(Texts(r), room) && Fits("##Name:" + r.name, room)
  {
    StoredLines(r);
    KindLine(r.kind);
    TextWords();
    assert OneLine(r.value) && OneLine(r.folder);
    hide OneLine, Fits, Stored, KindName;
    Joined();
    LineFits("##Op:" + KindName(r.kind), room);
    LineFits("##Header:" + r.header, room);
    LineFits("##Value:" + r.value, room);
    LineFits("##Folder:" + r.folder, room);
    LineFits("##From:" + r.from, room);
    LineFits("##Name:" + r.name, room);
  }

  lemma FlagsFit(f: Flags, room: nat)
    requires room >= 300
    ensures AllFit(FlagNotes(f), room)
  {
    assert OneLine("##PlainString") && OneLine("##DoesNot") && OneLine("##Body") && OneLine("##Continue");
    hide OneLine, Fits;
    LineFits("##PlainString", room);
    LineFits("##DoesNot", room);
    LineFits("##Body", room);
    LineFits("##Continue", room);
  }

  lemma ActionWords()
    ensures OneLine("    ") && OneLine("cc") && OneLine("to") && OneLine(" \"| $SENDMAIL -f \" '\"$SENDER\"' \" ")
  {}

  lemma SenderWords()
    ensures OneLine("\"") && OneLine("    echo \"")
    ensures OneLine("    AUTOREPLYFROM='") && OneLine("'") && OneLine("    AUTOREPLYFROM=$FROM")
  {}

  lemma MailboxWords()
    ensures OneLine("   ") && OneLine("cc") && OneLine("to") && OneLine(" \"") && OneLine("/.") && OneLine("")
    ensures OneLine("/.\"") && OneLine("to \"")
  {}

  lemma FolderFits(r: Rule, room: nat)
    requires OneLine(r.folder) && 0 < |r.folder| <= MAXLEN + 1 && OneLine(r.from)
    requires room >= 300 && |r.from| + 30 <= room
    ensures Fits(Forward(r), room) && Fits(Echo(r), room) && Fits(Sender(r), room)
  {
    ActionWords();
    SenderWords();
    Sliced(r.folder);
    hide OneLine, Fits;
    Joined();
    assert OneLine(r.folder[1..]);
    LineFits(Forward(r), room);
    LineFits(Echo(r), room);
    LineFits(Sender(r), room);
  }

  lemma MailboxFits(r: Rule, path: string, room: nat)
    requires OneLine(r.folder) && 0 < |r.folder| <= MAXLEN + 1 && OneLine(path) && room >= |path| + 300
    ensures Fits(Mailbox(r, path), room)
  {
    MailboxWords();
    Sliced(r.folder);
    hide OneLine, Fits;
    Joined();
    assert OneLine(r.folder[1..]);
    LineFits(Mailbox(r, path), room);
  }

  lemma FixedFit(room: nat)
    requires room >= 300
    ensures Fits("    EXITCODE=77", room) && Fits("    exit", room) && Fits("", room) && Fits("{", room)
    ensures Fits("}", room)
  {}

  lemma ActionFits(r: Rule, path: string, mailbot: string, room: nat)
    requires Stored(r) && Unbroken(r) && OneLine(path) && OneLine(mailbot)
    requires room >= 2 * |path| + |mailbot| + 800 && |r.from| + 30 <= room
    ensures AllFit(Action(r, path, mailbot), room)
  {
    StoredLines(r);
    Sliced(r.folder);
    if r.folder[0] == '+' {
      var s := r.folder[1..];
      ResponderParsed(s);
      FolderLimit(r);
      ResponderLine(ParseAutoresponder(s), path, mailbot);
      FitsMore(Responder(ParseAutoresponder(s), path, mailbot), 2 * |path| + |mailbot| + 700, room);
    }
    FolderFits(r, room);
    MailboxFits(r, path, room);
    FixedFit(room);
    hide Fits, Stored, OneLine, Responder, Sender, Mailbox, Forward, Echo, ParseAutoresponder, AutoresponderOk;
  }

  lemma FolderLimit(r: Rule)
    requires Stored(r) && r.folder[0] == '+'
    ensures |r.folder| <= MAXLEN
  {}

  lemma RuleFits(r: Rule, path: string, mailbot: string, room: nat)
    requires Stored(r) && Unbroken(r) && OneLine(path) && OneLine(mailbot)
    requires room >= 2 * |path| + |mailbot| + 800 && |r.from| + 30 <= room
    ensures AllFit(RuleLines(r, path, mailbot), room)
  {
    hide Fits, Texts, FlagNotes, Action, Test, Stored, Unbroken, OneLine;
    TextsFit(r, room);
    FlagsFit(r.flags, room);
    ActionFits(r, path, mailbot, room);
    FixedFit(room);
    TestFits(r, room);
  }

  lemma TestFits(r: Rule, room: nat)
    requires Stored(r) && Unbroken(r) && room >= 800
    ensures Fits(Test(r), room)
  {
    hide Fits, Test, Stored;
    StoredLines(r);
    TestLine(r);
    FitsMore(Test(r), 800, room);
  }

  lemma {:induction false} RulesFit(rules: seq<Rule>, path: string, mailbot: string, room: nat)
    requires forall k :: 0 <= k < |rules| ==> Stored(rules[k]) && Unbroken(rules[k]) && |rules[k].from| + 30 <= room
    requires OneLine(path) && OneLine(mailbot) && room >= 2 * |path| + |mailbot| + 800
    ensures AllFit(RulesLines(rules, path, mailbot), room)
  {
    hide Fits, RuleLines, Stored, Unbroken;
    if rules != [] {
      RuleFits(rules[0], path, mailbot, room);
      RulesFit(rules[1..], path, mailbot, room);
    }
  }

  lemma PrologWords()
    ensures OneLine("#") && OneLine("FROM='") && OneLine("'") && OneLine("import SENDER")
    ensures OneLine("if ($SENDER eq \"\")") && OneLine(" SENDER=$FROM") && OneLine(HEADING)
  {}

  lemma WarningLine()
    ensures OneLine("# DO NOT EDIT THIS FILE.  This is") && OneLine(" an automatically generated filter.")
  {}

  lemma PrologFits(from: string, room: nat)
    requires OneLine(from) && room >= |from| + 300
    ensures AllFit(Prolog(from), room) && Fits(HEADING, room)
  {
    PrologWords();
    WarningLine();
    UnquotedLine(from);
    FixedFit(room);
    hide OneLine, Fits, Unquoted;
    Joined();
    var lines := Prolog(from);
    LineFits("#", room);
    LineFits(lines[1], room);
    LineFits(lines[3], room);
    LineFits(lines[4], room);
    LineFits(lines[5], room);
    LineFits(lines[7], room);
    LineFits(HEADING, room);
  }

  /** For strings without newlines, a buffer that has room for the settings, the longest texts of
      a rule and what is printed around them holds every line of the file. */
  lemma WhenLinesFit(rules: seq<Rule>, path: string, mailbot: string, from: string, room: nat)
    requires AllStored(rules)
    requires forall k :: 0 <= k < |rules| ==> Unbroken(rules[k]) && |rules[k].from| + 30 <= room
    requires '\n' !in path && '\n' !in mailbot && '\n' !in from
    requires room >= 2 * |path| + |mailbot| + |from| + 800
    ensures AllFit(SaveLines(rules, path, mailbot, from), room)
  {
    hide Fits, RulesLines, Prolog, Stored, Unbroken;
    PrologFits(from, room);
    RulesFit(rules, path, mailbot, room);
    LastFits(path, room);
  }

  lemma LastFits(path: string, room: nat)
    requires OneLine(path) && room >= |path| + 300
    ensures Fits("to \"" + path + "/.\"", room)
  {
    MailboxWords();
    hide OneLine, Fits;
    Joined();
    LineFits("to \"" + path + "/.\"", room);
  }

  /** The rules that come back are the rules that were saved, exactly if every folder's name, with
      its dot, has at most 200 characters and every sender fewer than 512. */
  lemma SaveLoad(rules: seq<Rule>, path: string, mailbot: string, from: string, room: nat)
    requires AllStored(rules)
    requires forall k :: 0 <= k < |rules| ==> Unbroken(rules[k]) && |rules[k].from| + 30 <= room
    requires '\n' !in path && '\n' !in mailbot && '\n' !in from
    requires room >= 2 * |path| + |mailbot| + |from| + 800
    ensures Load(Save(rules, path, mailbot, from), room, []) == Loaded(LoadOk, rules) <==>
            forall k :: 0 <= k < |rules| ==> |rules[k].folder| <= 200 && |rules[k].from| < 512
  {
    assert forall k :: 0 <= k < |rules| ==> (Keeps(rules[k]) <==> |rules[k].folder| <= 200 && |rules[k].from| < 512);
    hide Load, Save, AllStored, AllFit, Keeps, Unbroken, SaveLines;
    WhenLinesFit(rules, path, mailbot, from, room);
    RoundTrip(rules, path, mailbot, from, room);
  }

  function Repeated(c: char, n: nat): (s: string)
    ensures |s| == n
  {
    seq(n, _ => c)
  }

  /** A folder's name of 200 characters and no dot is accepted and saved, but the file cannot be
      loaded again. */
  lemma LongFolder(path: string, mailbot: string, from: string, room: nat)
    requires '\n' !in path && '\n' !in mailbot && '\n' !in from
    requires room >= 2 * |path| + |mailbot| + |from| + 800
    ensures var u := RuleUpdate(Some("r"), TextPlain, NOFLAGS, None, None, Some(Repeated('a', 200)), "");
      u.Accepted? && Load(Save([u.rule], path, mailbot, from), room, []) == Loaded(LoadError, [])
  {
    hide Load, Save, Stored, Unbroken, RuleUpdate, Kept;
    var folder := Repeated('a', 200);
    FolderAccepted(folder);
    PlainAccepted(folder, "");
    var r := Rule("r", TextPlain, NOFLAGS, "", "", StoredFolder(folder), "");
    SavedAlone(r, path, mailbot, from, room);
  }

  /** A sender of 512 characters is accepted and saved, but comes back without its last one. */
  lemma LongSender(path: string, mailbot: string, from: string, room: nat)
    requires '\n' !in path && '\n' !in mailbot && '\n' !in from
    requires room >= 2 * |path| + |mailbot| + |from| + 800
    ensures var u := RuleUpdate(Some("r"), TextPlain, NOFLAGS, None, None, Some("."), Repeated('a', 512));
      && u.Accepted? && |u.rule.from| == 512
      && Load(Save([u.rule], path, mailbot, from), room, []) ==
         Loaded(LoadOk, [u.rule.(from := Repeated('a', 511))])
  {
    hide Load, Save, Stored, Unbroken, RuleUpdate;
    var sender := Repeated('a', 512);
    FolderAccepted(".");
    PlainAccepted(".", sender);
    var r := Rule("r", TextPlain, NOFLAGS, "", "", ".", sender);
    SavedAlone(r, path, mailbot, from, room);
    assert sender[..511] == Repeated('a', 511);
  }

  /** A rule without a header or a value, for a mailbox. */
  lemma PlainAccepted(folder: string, sender: string)
    requires FolderOk(folder) && StoredFolder(folder)[0] == '.' && '\n' !in folder
    requires forall k :: 0 <= k < |sender| ==> sender[k] == 'a'
    ensures var r := Rule("r", TextPlain, NOFLAGS, "", "", StoredFolder(folder), sender);
      RuleUpdate(Some("r"), TextPlain, NOFLAGS, None, None, Some(folder), sender) == Accepted(r)
      && Stored(r) && Unbroken(r)
  {
    SkipNothing(sender);
    hide FolderOk, Stored;
    UpdateStores(Some("r"), TextPlain, NOFLAGS, None, None, Some(folder), sender);
  }

  lemma FolderAccepted(folder: string)
    requires folder == "." || (folder != "" && forall k :: 0 <= k < |folder| ==> folder[k] == 'a')
    requires |folder| <= MAXLEN
    ensures FolderOk(folder) && StoredFolder(folder) == if folder == "." then "." else "." + folder
  {}

  lemma SavedAlone(r: Rule, path: string, mailbot: string, from: string, room: nat)
    requires Stored(r) && Unbroken(r) && |r.from| + 30 <= room
    requires '\n' !in path && '\n' !in mailbot && '\n' !in from
    requires room >= 2 * |path| + |mailbot| + |from| + 800
    ensures Load(Save([r], path, mailbot, from), room, []) ==
      if |r.folder| > MAXLEN then Loaded(LoadError, []) else Loaded(LoadOk, [Kept(r)])
  {
    hide Load, Save, AllFit, Unbroken, SaveLines, Stored, Kept;
    WhenLinesFit([r], path, mailbot, from, room);
    LoadSaved([r], path, mailbot, from, room);
    assert [r][1..] == [] && [] + [Kept(r)] == [Kept(r)];
    assert Reloaded([], [Kept(r)]) == Loaded(LoadOk, [Kept(r)]);
  }
}
