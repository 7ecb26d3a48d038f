/** The file a mail filter is kept in, wmail/maildir/maildirfilter.c: a script for the delivery
    agent, with the rules themselves in its comments.  mailbot and path are the two settings
    that the script names; room is one less than the size of the buffer that lines are read to. */
module FilterFile {
  import opened CStrings
  import opened Decimal
  import opened FilterRules

  // ----- the words of the file

  function KindName(kind: Kind): string {
    match kind
    case StartsWith => "startswith"
    case EndsWith => "endswith"
    case Contains => "contains"
    case HasRecipient => "hasrecipient"
    case MimeMultipart => "mimemultipart"
    case TextPlain => "textplain"
    case IsLargerThan => "islargerthan"
  }

  const KINDS := [StartsWith, EndsWith, Contains, HasRecipient, MimeMultipart, TextPlain, IsLargerThan]

  function KindFrom(s: string, i: nat): Option<Kind>
    requires i <= |KINDS|
    decreases |KINDS| - i
  {
    if i == |KINDS| then None else if SameText(KindName(KINDS[i]), s) then Some(KINDS[i]) else KindFrom(s, i + 1)
  }

  function KindOf(s: string): Option<Kind> {
    KindFrom(s, 0)
  }

  /** strncasecmp of a prefix. */
  predicate HasKey(p: string, key: string) {
    |p| >= |key| && SameText(p[..|key|], key)
  }

  datatype Note =
    | From(text: string) | Op(text: string) | Header(text: string) | Value(text: string) | Folder(text: string)
    | PlainString | DoesNot | Continue | Body | Name(text: string) | Other

  predicate Quiet(line: string) {
    !("##" <= line)
  }

  function NoteAt(p: string): Note {
    if HasKey(p, "From:") then From(p[5..])
    else if HasKey(p, "Op:") then Op(p[3..])
    else if HasKey(p, "Header:") then Header(p[7..])
    else if HasKey(p, "Value:") then Value(p[6..])
    else if HasKey(p, "Folder:") then Folder(p[7..])
    else if SameText(p, "plainstring") then PlainString
    else if SameText(p, "doesnot") then DoesNot
    else if SameText(p, "continue") then Continue
    else if SameText(p, "body") then Body
    else if HasKey(p, "Name:") then Name(p[5..])
    else Other
  }

  function NoteOf(line: string): Note {
    if Quiet(line) then Other else NoteAt(SkipSpaces(line[2..]))
  }

  /** atoi. */
  function Atoi(s: string): int {
    var p := SkipSpaces(s);
    var signed := p != "" && (p[0] == '-' || p[0] == '+');
    var j := if signed then 1 else 0;
    var n: int := Decimal.Value(p[j..DigitsEnd(p, j)]);
    if signed && p[0] == '-' then 0 - n else n
  }

  // ----- lines

  function Unlines(lines: seq<string>): string {
    if lines == [] then "" else lines[0] + "\n" + Unlines(lines[1..])
  }

  /** How many characters fgets finds before a newline, or takes without one. */
  function LineLength(t: string, room: nat): (n: nat)
    ensures n <= room && n <= |t| && (n < room && n < |t| ==> t[n] == '\n')
  {
    if room > 0 && t != "" && t[0] != '\n' then 1 + LineLength(t[1..], room - 1) else 0
  }

  function Taken(t: string, room: nat): (m: nat)
    requires t != "" && room > 0
    ensures 0 < m <= |t|
  {
    var n := LineLength(t, room);
    if n < room && n < |t| then n + 1 else n
  }

  /** What fgets returns, piece by piece, without the newlines. */
  function Lines(t: string, room: nat): seq<string>
    requires room > 0
    decreases |t|
  {
    if t == "" then [] else [t[..LineLength(t, room)]] + Lines(t[Taken(t, room)..], room)
  }

  predicate Fits(line: string, room: nat) {
    '\n' !in line && |line| < room
  }

  predicate AllFit(lines: seq<string>, room: nat) {
    forall k :: 0 <= k < |lines| ==> Fits(lines[k], room)
  }

  lemma {:induction false} LineLengthIs(line: string, rest: string, room: nat)
    requires Fits(line, room)
    ensures LineLength(line + "\n" + rest, room) == |line|
  {
    var t := line + "\n" + rest;
    if line != "" {
      assert t[1..] == line[1..] + "\n" + rest;
      LineLengthIs(line[1..], rest, room - 1);
    }
  }

  lemma FirstLine(line: string, rest: string, room: nat)
    requires Fits(line, room)
    ensures Lines(line + "\n" + rest, room) == [line] + Lines(rest, room)
  {
    var t := line + "\n" + rest;
    LineLengthIs(line, rest, room);
    assert t[..|line|] == line && t[|line| + 1..] == rest;
  }

  lemma {:induction false} LinesOfUnlines(lines: seq<string>, room: nat)
    requires AllFit(lines, room) && room > 0
    ensures Lines(Unlines(lines), room) == lines
  {
    hide Lines, Fits;
    if lines == [] {
      NoLines(room);
    } else {
      FirstLine(lines[0], Unlines(lines[1..]), room);
      assert forall k :: 0 <= k < |lines| - 1 ==> lines[1..][k] == lines[k + 1];
      LinesOfUnlines(lines[1..], room);
    }
  }

  lemma NoLines(room: nat)
    requires room > 0
    ensures Lines("", room) == []
  {}

  // ----- the script of a rule

  function IsAlnum(c: char): bool {
    'a' <= c <= 'z' || 'A' <= c <= 'Z' || '0' <= c <= '9'
  }

  function Literally(v: string): (s: string)
    ensures |v| <= |s| <= 2 * |v|
  {
    if v == "" then "" else (if IsAlnum(v[0]) then [v[0]] else ['\\', v[0]]) + Literally(v[1..])
  }

  function Pattern(r: Rule): string {
    if r.flags.plain then Literally(r.value)
    else (if r.value != "" && IsSpace(r.value[0]) then "\\" else "") + r.value
  }

  /** What a pattern matches that has no special characters but behind a backslash. */
  function Unescape(s: string): string {
    if s == "" then ""
    else if s[0] == '\\' && |s| > 1 then [s[1]] + Unescape(s[2..])
    else [s[0]] + Unescape(s[1..])
  }

  /** The pattern printed for a plain string means that string. */
  lemma {:induction false} LiterallyMeans(v: string)
    ensures Unescape(Literally(v)) == v
  {
    if v != "" {
      var rest := Literally(v[1..]);
      LiterallyMeans(v[1..]);
      if IsAlnum(v[0]) {
        assert ([v[0]] + rest)[1..] == rest;
      } else {
        assert (['\\', v[0]] + rest)[2..] == rest;
      }
    }
  }

  function Condition(r: Rule): string {
    match r.kind
    case StartsWith =>
      if r.flags.body then "/^" + Pattern(r) + "/:b" else "/^" + r.header + ": *" + Pattern(r) + "/"
    case EndsWith =>
      if r.flags.body then "/" + Pattern(r) + "$/:b" else "/^" + r.header + ":.*" + Pattern(r) + "$/"
    case Contains =>
      if r.flags.body then "/" + Pattern(r) + "/:b" else "/^" + r.header + ":.*" + Pattern(r) + "/"
    case HasRecipient => "hasaddr(\"" + r.value + "\")"
    case MimeMultipart => "/^Content-Type: *multipart\\/mixed/"
    case TextPlain =>
      " (! /^Content-Type:/) || " + "/^Content-Type: text\\/plain$/ || " + "/^Content-Type: text\\/plain;/"
    case IsLargerThan => "$SIZE > " + r.value
  }

  // ----- the autoresponder of a rule

  function DropBlanks(s: string): (r: string)
    ensures |r| <= |s| && (r == "" || !IsBlank(r[0]))
  {
    if s != "" && IsBlank(s[0]) then DropBlanks(s[1..]) else s
  }

  function TokenLength(s: string): (n: nat)
    ensures n <= |s| && (s != "" && !IsBlank(s[0]) ==> n > 0)
  {
    if s != "" && !IsBlank(s[0]) then 1 + TokenLength(s[1..]) else 0
  }

  /** The tokens that strtok finds. */
  function Tokens(s: string): seq<string>
    decreases |s|
  {
    var t := DropBlanks(s);
    if t == "" then [] else [t[..TokenLength(t)]] + Tokens(t[TokenLength(t)..])
  }

  datatype Autoresponder = Autoresponder(name: string, dsn: bool, days: nat)

  function Option0(a: Autoresponder, token: string): Autoresponder {
    if "dsn=" <= token then a.(dsn := Atoi(token[4..]) != 0)
    else if "days=" <= token then a.(days := Atoi(token[5..]) % 0x1_0000_0000)
    else a
  }

  function Options(a: Autoresponder, tokens: seq<string>): Autoresponder
    decreases |tokens|
  {
    if tokens == [] then a else Options(Option0(a, tokens[0]), tokens[1..])
  }

  /** maildir_filter_autoresp_info_init_str: the name goes from the very beginning of the string,
      blanks before it included, to where strtok cut it off. */
  function ParseAutoresponder(s: string): Autoresponder {
    var t := DropBlanks(s);
    Options(Autoresponder(s[..|s| - |t| + TokenLength(t)], false, 0), Tokens(t[TokenLength(t)..]))
  }

  /** Every blank before the name becomes part of it. */
  lemma BlankKept(c: char, s: string)
    requires IsBlank(c)
    ensures ParseAutoresponder([c] + s) == ParseAutoresponder(s).(name := [c] + ParseAutoresponder(s).name)
  {
    hide Tokens, TokenLength, Options;
    assert ([c] + s)[1..] == s;
    var t := DropBlanks(s);
    var n := |s| - |t| + TokenLength(t);
    assert ([c] + s)[..n + 1] == [c] + s[..n];
    OptionsName(Autoresponder(s[..n], false, 0), [c] + s[..n], Tokens(t[TokenLength(t)..]));
  }

  lemma {:induction false} OptionsName(a: Autoresponder, name: string, tokens: seq<string>)
    ensures Options(a.(name := name), tokens) == Options(a, tokens).(name := name)
    ensures Options(a, tokens).name == a.name
    decreases |tokens|
  {
    hide Atoi;
    if tokens != [] {
      OptionsName(Option0(a, tokens[0]), name, tokens[1..]);
    }
  }

  // ----- maildir_filter_saverules

  function ToWord(r: Rule): string {
    if r.flags.continues then "cc" else "to"
  }

  function Sender(r: Rule): string {
    if r.from != "" then "    AUTOREPLYFROM='" + r.from + "'" else "    AUTOREPLYFROM=$FROM"
  }

  function Headers(a: Autoresponder, mailbot: string): string {
    "   `" + mailbot + " -A \"X-Sender: $FROM\"" + " -A \"From: $AUTOREPLYFROM\""
    + (if a.dsn then " -M \"$FROM\"" else "")
  }

  function Message(a: Autoresponder, path: string): string {
    " -m \"" + path + "/autoresponses/" + a.name + "\""
  }

  function Database(a: Autoresponder, path: string): string {
    if a.days > 0 then " -d \"" + path + "/autoresponses/" + a.name + ".dat\" -D " + OfNat(a.days) else ""
  }

  function Responder(a: Autoresponder, path: string, mailbot: string): string {
    Headers(a, mailbot) + Message(a, path) + Database(a, path) + " $SENDMAIL -t -f \"\"`"
  }

  function Mailbox(r: Rule, path: string): string {
    var m := if r.folder != "" && r.folder[0] == '.' then r.folder[1..] else r.folder;
    "   " + ToWord(r) + " \"" + path + (if m != "" then "/." else "") + m + "/.\""
  }

  function Forward(r: Rule): string
    requires r.folder != ""
  {
    "    " + ToWord(r) + " \"| $SENDMAIL -f \" '\"$SENDER\"' \" " + r.folder[1..] + "\""
  }

  function Echo(r: Rule): string
    requires r.folder != ""
  {
    "    echo \"" + r.folder[1..] + "\""
  }

  function Action(r: Rule, path: string, mailbot: string): seq<string> {
    if r.folder != "" && r.folder[0] == '!' then [Forward(r)]
    else if r.folder != "" && r.folder[0] == '*' then [Echo(r), "    EXITCODE=77", "    exit"]
    else if r.folder != "" && r.folder[0] == '+' then
      if AutoresponderOk(r.folder[1..])
      then [Sender(r), Responder(ParseAutoresponder(r.folder[1..]), path, mailbot)]
      else []
    else [Mailbox(r, path)]
  }

  function Test(r: Rule): string {
    "if (" + (if r.flags.doesNot then "!" else "") + "(" + Condition(r) + "))"
  }

  function Script(r: Rule, path: string, mailbot: string): seq<string> {
    ["", "", Test(r), "{"] + Action(r, path, mailbot) + ["}", ""]
  }

  function Flag(on: bool, line: string): seq<string> {
    if on then [line] else []
  }

  function Texts(r: Rule): seq<string> {
    ["##Op:" + KindName(r.kind), "##Header:" + r.header, "##Value:" + r.value,
     "##Folder:" + r.folder, "##From:" + r.from]
  }

  function FlagNotes(f: Flags): seq<string> {
    Flag(f.plain, "##PlainString") + Flag(f.doesNot, "##DoesNot") + Flag(f.body, "##Body")
    + Flag(f.continues, "##Continue")
  }

  function RuleLines(r: Rule, path: string, mailbot: string): seq<string> {
    Texts(r) + FlagNotes(r.flags) + ["##Name:" + r.name] + Script(r, path, mailbot)
  }

  function RulesLines(rules: seq<Rule>, path: string, mailbot: string): seq<string> {
    if rules == [] then [] else RuleLines(rules[0], path, mailbot) + RulesLines(rules[1..], path, mailbot)
  }

  function Unquoted(from: string): (s: string)
    ensures |s| <= |from|
  {
    if from == "" then ""
    else (if from[0] in "\"'\\" then "" else [from[0]]) + Unquoted(from[1..])
  }

  function PrologWith(quoted: string): seq<string> {
    ["#", "# DO NOT EDIT THIS FILE.  This is" + " an automatically generated filter.", "",
     "FROM='" + quoted + "'", "import SENDER", "if ($SENDER eq \"\")", "{", " SENDER=$FROM", "}", ""]
  }

  function Prolog(from: string): seq<string> {
    PrologWith(Unquoted(from))
  }

  const HEADING := "#MFMAILDROP=2"

  function SaveLines(rules: seq<Rule>, path: string, mailbot: string, from: string): seq<string> {
    [HEADING] + Prolog(from) + RulesLines(rules, path, mailbot) + ["to \"" + path + "/.\""]
  }

  function Save(rules: seq<Rule>, path: string, mailbot: string, from: string): string {
    Unlines(SaveLines(rules, path, mailbot, from))
  }

  // ----- maildir_filter_loadrules

  datatype Pending = Pending(kind: Kind, header: string, value: string, folder: string, from: string, flags: Flags)

  const NOFLAGS := Flags(false, false, false, false)

  const FRESH := Pending(Contains, "", "", "", "", NOFLAGS)

  datatype Status = LoadOk | LoadForeign | LoadError

  datatype Loaded = Loaded(status: Status, rules: seq<Rule>)

  /** The last character of a buffer is kept for the NUL. */
  function Cut(s: string, size: nat): string
    requires size > 0
  {
    if |s| < size then s else s[..size - 1]
  }

  function Noted(p: Pending, note: Note): Pending {
    match note
    case From(s) => p.(from := Cut(s, 512))
    case Op(s) => if KindOf(s).Some? then p.(kind := KindOf(s).value) else p
    case Header(s) => p.(header := Cut(s, 256))
    case Value(s) => p.(value := Cut(s, 256))
    case Folder(s) => p.(folder := Cut(s, 256))
    case PlainString => p.(flags := p.flags.(plain := true))
    case DoesNot => p.(flags := p.flags.(doesNot := true))
    case Continue => p.(flags := p.flags.(continues := true))
    case Body => p.(flags := p.flags.(body := true))
    case _ => p
  }

  function Made(name: string, p: Pending): Update {
    RuleUpdate(Some(name), p.kind, p.flags, Some(p.header), Some(p.value), Some(p.folder), p.from)
  }

  function LoadFrom(lines: seq<string>, p: Pending, done: seq<Rule>): Loaded {
    if lines == [] then Loaded(LoadOk, done)
    else
      var note := NoteOf(lines[0]);
      if note.Op? && KindOf(note.text).None? then Loaded(LoadForeign, done)
      else if note.Name? then
        var u := Made(note.text, p);
        if u.Refused? then Loaded(LoadError, done) else LoadFrom(lines[1..], FRESH, done + [u.rule])
      else LoadFrom(lines[1..], Noted(p, note), done)
  }

  predicate IsHeading(line: string) {
    "#MFMAILDROP=" <= line && (Atoi(line[12..]) == 1 || Atoi(line[12..]) == 2)
  }

  function LoadLines(lines: seq<string>, before: seq<Rule>): Loaded {
    if lines == [] || !IsHeading(lines[0]) then Loaded(LoadForeign, before) else LoadFrom(lines[1..], FRESH, before)
  }

  /** The rules of a file, after those that the filter had before. */
  function Load(text: string, room: nat, before: seq<Rule>): Loaded
    requires room > 0
  {
    LoadLines(Lines(text, room), before)
  }

  // ----- what is written is what is read: one line

  lemma NoteWith(key: string, text: string)
    requires key != "" && !IsSpace(key[0])
    ensures NoteOf("##" + key + text) == NoteAt(key + text)
  {
    hide NoteAt;
    var line := "##" + key + text;
    assert line[..2] == "##" && line[2..] == key + text;
  }

  lemma KeyOf(key: string, text: string)
    ensures HasKey(key + text, key) && (key + text)[|key|..] == text
  {
    assert (key + text)[..|key|] == key;
  }

  /** Two words that begin differently. */
  lemma NotKey(p: string, key: string)
    requires p != "" && key != "" && Lower(p[0]) != Lower(key[0])
    ensures !HasKey(p, key) && !SameText(p, key)
  {}

  lemma NotKeyLater(p: string, key: string, k: nat)
    requires k < |p| && k < |key| && Lower(p[k]) != Lower(key[k])
    ensures !HasKey(p, key) && !SameText(p, key)
  {}

  lemma OpNote(s: string)
    ensures NoteOf("##Op:" + s) == Op(s)
  {
    hide HasKey, SameText;
    assert "##" + "Op:" == "##Op:";
    NoteWith("Op:", s);
    KeyOf("Op:", s);
    NotKey("Op:" + s, "From:");
  }

  lemma HeaderNote(s: string)
    ensures NoteOf("##Header:" + s) == Header(s)
  {
    hide HasKey, SameText;
    assert "##" + "Header:" == "##Header:";
    NoteWith("Header:", s);
    KeyOf("Header:", s);
    NotKey("Header:" + s, "From:");
    NotKey("Header:" + s, "Op:");
  }

  lemma ValueNote(s: string)
    ensures NoteOf("##Value:" + s) == Value(s)
  {
    hide HasKey, SameText;
    assert "##" + "Value:" == "##Value:";
    NoteWith("Value:", s);
    KeyOf("Value:", s);
    NotKey("Value:" + s, "From:");
    NotKey("Value:" + s, "Op:");
    NotKey("Value:" + s, "Header:");
  }

  lemma FolderNote(s: string)
    ensures NoteOf("##Folder:" + s) == Folder(s)
  {
    hide HasKey, SameText;
    assert "##" + "Folder:" == "##Folder:";
    NoteWith("Folder:", s);
    KeyOf("Folder:", s);
    NotKeyLater("Folder:" + s, "From:", 1);
    NotKey("Folder:" + s, "Op:");
    NotKey("Folder:" + s, "Header:");
    NotKey("Folder:" + s, "Value:");
  }

  lemma FromNote(s: string)
    ensures NoteOf("##From:" + s) == From(s)
  {
    hide HasKey, SameText;
    assert "##" + "From:" == "##From:";
    NoteWith("From:", s);
    KeyOf("From:", s);
  }

  lemma NotTexts(p: string)
    requires p != "" && Lower(p[0]) !in "fohv"
    ensures !HasKey(p, "From:") && !HasKey(p, "Op:") && !HasKey(p, "Header:") && !HasKey(p, "Value:")
    ensures !HasKey(p, "Folder:")
  {
    hide HasKey, SameText;
    assert "fohv"[0] == 'f' && "fohv"[1] == 'o' && "fohv"[2] == 'h' && "fohv"[3] == 'v';
    NotKey(p, "From:");
    NotKey(p, "Op:");
    NotKey(p, "Header:");
    NotKey(p, "Value:");
    NotKey(p, "Folder:");
  }

  lemma NameNote(s: string)
    ensures NoteOf("##Name:" + s) == Name(s)
  {
    hide HasKey, SameText;
    var p := "Name:" + s;
    assert "##" + "Name:" == "##Name:";
    NoteWith("Name:", s);
    KeyOf("Name:", s);
    NotTexts(p);
    NotKey(p, "plainstring");
    NotKey(p, "doesnot");
    NotKey(p, "continue");
    NotKey(p, "body");
  }

  lemma WordNote(word: string)
    requires word != "" && !IsSpace(word[0])
    ensures NoteOf("##" + word) == NoteAt(word)
  {
    hide NoteAt;
    NoteWith(word, "");
    assert "##" + word + "" == "##" + word && word + "" == word;
  }

  lemma SamePlain()
    ensures SameText("PlainString", "plainstring")
  {}

  lemma SameDoesNot()
    ensures SameText("DoesNot", "doesnot")
  {}

  lemma SameContinue()
    ensures SameText("Continue", "continue")
  {}

  lemma PlainNote()
    ensures NoteOf("##PlainString") == PlainString
  {
    hide HasKey, SameText;
    var p := "PlainString";
    assert "##" + p == "##PlainString";
    WordNote(p);
    NotTexts(p);
    SamePlain();
  }

  lemma DoesNotNote()
    ensures NoteOf("##DoesNot") == DoesNot
  {
    hide HasKey, SameText;
    var p := "DoesNot";
    assert "##" + p == "##DoesNot";
    WordNote(p);
    NotTexts(p);
    NotKey(p, "plainstring");
    SameDoesNot();
  }

  lemma ContinueNote()
    ensures NoteOf("##Continue") == Continue
  {
    hide HasKey, SameText;
    var p := "Continue";
    assert "##" + p == "##Continue";
    WordNote(p);
    NotTexts(p);
    NotKey(p, "plainstring");
    NotKey(p, "doesnot");
    SameContinue();
  }

  lemma BodyNote()
    ensures NoteOf("##Body") == Body
  {
    hide HasKey;
    var p := "Body";
    assert "##" + p == "##Body";
    WordNote(p);
    NotTexts(p);
    NotKey(p, "plainstring");
    NotKey(p, "doesnot");
    NotKey(p, "continue");
  }
}
