/** The list of rules of a mail filter, wmail/maildir/maildirfilter.c: doubly linked, its rules
    rewritten, moved and unlinked in place, written to a file and read from one. */
module FilterList {
  import opened CStrings
  import opened FilterRules
  import opened FilterFile
  import opened FilterReload
  import opened Links

  /** struct maildirfilterrule, and struct maildirfilter. */
  type RuleNode = Node<Rule>

  type Filter = List<Rule>

  const BLANK := Rule("", StartsWith, NOFLAGS, "", "", "", "")

  ghost function RulesOf(nodes: seq<RuleNode>): (rules: seq<Rule>)
    reads nodes
    ensures |rules| == |nodes| && forall k :: 0 <= k < |nodes| ==> rules[k] == nodes[k].data
  {
    if nodes == [] then [] else [nodes[0].data] + RulesOf(nodes[1..])
  }

  ghost function Rules(r: Filter): seq<Rule>
    reads r, r.spine
  {
    RulesOf(r.spine)
  }

  ghost predicate Valid(r: Filter)
    reads r, r.spine
  {
    r.Linked() && AllStored(Rules(r))
  }

  /** The nodes hold these rules. */
  ghost predicate Hold(nodes: seq<RuleNode>, rules: seq<Rule>)
    reads nodes
  {
    |nodes| == |rules| && forall k :: 0 <= k < |nodes| ==> nodes[k].data == rules[k]
  }

  lemma HoldRules(nodes: seq<RuleNode>)
    ensures Hold(nodes, RulesOf(nodes))
  {}

  lemma RulesHeld(nodes: seq<RuleNode>, rules: seq<Rule>)
    requires Hold(nodes, rules)
    ensures RulesOf(nodes) == rules
  {}

  lemma RulesWithout(nodes: seq<RuleNode>, rules: seq<Rule>, k: nat)
    requires Hold(nodes, rules) && k < |nodes|
    ensures RulesOf(Without(nodes, k)) == Without(rules, k)
    ensures AllStored(rules) ==> AllStored(Without(rules, k))
  {
    hide Stored;
    RulesHeld(Without(nodes, k), Without(rules, k));
  }

  lemma RulesSwapped(nodes: seq<RuleNode>, rules: seq<Rule>, k: nat)
    requires Hold(nodes, rules) && 0 < k < |nodes|
    ensures RulesOf(Swap(nodes, k)) == Swap(rules, k)
    ensures AllStored(rules) ==> AllStored(Swap(rules, k))
  {
    hide Stored;
    RulesHeld(Swap(nodes, k), Swap(rules, k));
  }

  lemma RulesRewritten(nodes: seq<RuleNode>, rules: seq<Rule>, k: nat, rule: Rule)
    requires |nodes| == |rules| && k < |nodes| && Hold(nodes, rules[k := rule])
    ensures RulesOf(nodes) == rules[k := rule]
    ensures AllStored(rules) && (Stored(rule) || rule == rules[k]) ==> AllStored(rules[k := rule])
  {
    hide Stored;
    RulesHeld(nodes, rules[k := rule]);
  }

  /** maildir_filter_ruledel. */
  method RuleDel(r: Filter, p: RuleNode, ghost k: nat)
    requires r.Linked() && k < |r.spine| && p == r.spine[k]
    modifies r, r.spine`next, r.spine`prev
    ensures r.Linked() && r.spine == Without(old(r.spine), k)
    ensures Rules(r) == Without(old(Rules(r)), k) && (old(Valid(r)) ==> Valid(r))
  {
    hide List.Linked, RulesOf, AllStored, Without;
    ghost var was, rules := r.spine, Rules(r);
    HoldRules(was);
    r.Unlink(p, k);
    RulesWithout(was, rules, k);
  }

  /** maildir_filter_ruleup. */
  method RuleUp(r: Filter, p: RuleNode, ghost k: nat)
    requires r.Linked() && k < |r.spine| && p == r.spine[k]
    modifies r, r.spine`next, r.spine`prev
    ensures r.Linked() && r.spine == if k == 0 then old(r.spine) else Swap(old(r.spine), k)
    ensures Rules(r) == if k == 0 then old(Rules(r)) else Swap(old(Rules(r)), k)
    ensures old(Valid(r)) ==> Valid(r)
  {
    hide RulesOf, AllStored, List.Linked, Swap;
    ghost var was, rules := r.spine, Rules(r);
    HoldRules(was);
    MoveUp(r, p, k);
    if k > 0 {
      RulesSwapped(was, rules, k);
    } else {
      RulesHeld(was, rules);
    }
  }

  /** The same, as far as the nodes go. */
  method MoveUp(r: Filter, p: RuleNode, ghost k: nat)
    requires r.Linked() && k < |r.spine| && p == r.spine[k]
    modifies r, r.spine`next, r.spine`prev
    ensures r.Linked() && r.spine == if k == 0 then old(r.spine) else Swap(old(r.spine), k)
  {
    hide RulesOf, AllStored, Distinct, Swap, Without, With;
    ghost var was := r.spine;
    var q := p.prev;
    if q == null {
      return;
    }
    MovedAway(was, k);
    assert k > 0 && q == was[k - 1];
    hide List.Linked;
    RuleDel(r, p, k);
    r.InsertBefore(p, q, k - 1);
    SwapMoves(was, k);
  }

  /** maildir_filter_ruledown. */
  method RuleDown(r: Filter, p: RuleNode, ghost k: nat)
    requires r.Linked() && k < |r.spine| && p == r.spine[k]
    modifies r, r.spine`next, r.spine`prev
    ensures r.Linked() && r.spine == if k + 1 == |old(r.spine)| then old(r.spine) else Swap(old(r.spine), k + 1)
    ensures Rules(r) == if k + 1 == |old(r.spine)| then old(Rules(r)) else Swap(old(Rules(r)), k + 1)
    ensures old(Valid(r)) ==> Valid(r)
  {
    hide RulesOf, AllStored, List.Linked, Swap;
    ghost var was, rules := r.spine, Rules(r);
    HoldRules(was);
    MoveDown(r, p, k);
    if k + 1 < |was| {
      RulesSwapped(was, rules, k + 1);
    } else {
      RulesHeld(was, rules);
    }
  }

  /** The same, as far as the nodes go. */
  method MoveDown(r: Filter, p: RuleNode, ghost k: nat)
    requires r.Linked() && k < |r.spine| && p == r.spine[k]
    modifies r, r.spine`next, r.spine`prev
    ensures r.Linked() && r.spine == if k + 1 == |old(r.spine)| then old(r.spine) else Swap(old(r.spine), k + 1)
  {
    hide RulesOf, AllStored, Distinct, Swap, Without, With;
    ghost var was := r.spine;
    var q := p.next;
    if q == null {
      return;
    }
    MovedAway(was, k);
    assert k + 1 < |was| && q == was[k + 1];
    hide List.Linked;
    RuleDel(r, p, k);
    r.InsertAfter(p, q, k);
    SwapMoves(was, k + 1);
  }

  /** maildir_filter_ruleupdate. */
  method Rewrite(p: RuleNode, name: Option<string>, kind: Kind, flags: Flags, header: Option<string>,
                 value: Option<string>, folder: Option<string>, from: string, ghost r: Filter, ghost k: nat)
    returns (u: Update)
    requires r.Linked() && k < |r.spine| && p == r.spine[k]
    modifies p`data
    ensures u == RuleUpdate(name, kind, flags, header, value, folder, from)
    ensures p.data == if u.Accepted? then u.rule else old(p.data)
    ensures r.Linked() && Rules(r) == old(Rules(r))[k := p.data] && (old(Valid(r)) ==> Valid(r))
  {
    hide RuleUpdate, Stored, RulesOf, List.Linked;
    UpdateStores(name, kind, flags, header, value, folder, from);
    u := Validate(name, kind, flags, header, value, folder, from);
    if u.Accepted? {
      Replace(p, u.rule, r, k);
    } else {
      HoldRules(r.spine);
    }
  }

  method Replace(p: RuleNode, rule: Rule, ghost r: Filter, ghost k: nat)
    requires r.Linked() && k < |r.spine| && p == r.spine[k]
    modifies p`data
    ensures p.data == rule && r.Linked() && Rules(r) == old(Rules(r))[k := rule]
    ensures old(AllStored(Rules(r))) && Stored(rule) ==> AllStored(Rules(r))
  {
    hide Stored, RulesOf, AllStored, Distinct;
    ghost var rules := Rules(r);
    HoldRules(r.spine);
    Apart(r.spine, k);
    p.data := rule;
    RulesRewritten(r.spine, rules, k, rule);
  }

  /** maildir_filter_appendrule: the node is linked first, and unlinked if its rule is refused. */
  method AppendRule(r: Filter, name: Option<string>, kind: Kind, flags: Flags, header: Option<string>,
                    value: Option<string>, folder: Option<string>, from: string) returns (u: Update)
    requires Valid(r)
    modifies r, r.spine
    ensures Valid(r) && u == RuleUpdate(name, kind, flags, header, value, folder, from)
    ensures Rules(r) == if u.Accepted? then old(Rules(r)) + [u.rule] else old(Rules(r))
    ensures forall k :: 0 <= k < |r.spine| ==> r.spine[k] in old(r.spine) || fresh(r.spine[k])
  {
    hide RuleUpdate, List.Linked, Stored, RulesOf;
    UpdateStores(name, kind, flags, header, value, folder, from);
    u := LinkRule(r, name, kind, flags, header, value, folder, from);
    assert Rules(r) == if u.Accepted? then old(Rules(r)) + [u.rule] else old(Rules(r));
  }

  method LinkRule(r: Filter, name: Option<string>, kind: Kind, flags: Flags, header: Option<string>,
                  value: Option<string>, folder: Option<string>, from: string) returns (u: Update)
    requires r.Linked()
    modifies r, r.spine`next, r.spine`prev
    ensures r.Linked() && u == RuleUpdate(name, kind, flags, header, value, folder, from)
    ensures u.Refused? ==> r.spine == old(r.spine)
    ensures u.Accepted? ==>
      |r.spine| == |old(r.spine)| + 1 && r.spine[..|old(r.spine)|] == old(r.spine) && fresh(r.spine[|old(r.spine)|])
      && r.spine[|old(r.spine)|].data == u.rule
  {
    hide RuleUpdate, List.Linked, RulesOf, AllStored;
    ghost var was, n := r.spine, |r.spine|;
    var p := new Node(BLANK);
    r.Append(p);
    u := Rewrite(p, name, kind, flags, header, value, folder, from, r, n);
    if u.Refused? {
      RuleDel(r, p, n);
      assert r.spine == was;
    }
  }

  /** maildir_filter_saverules, up to the closing of the file. */
  method SaveRules(r: Filter, path: string, mailbot: string, from: string) returns (f: string)
    requires r.Linked()
    ensures f == Save(Rules(r), path, mailbot, from)
  {
    hide Unlines, RuleLines, RulesLines, Distinct, Wired, RulesOf;
    f := PrintProlog(from);
    ghost var before, i := [HEADING] + Prolog(from), 0;
    var p := r.first;
    NoRules(path, mailbot);
    while p != null
      invariant 0 <= i <= |r.spine| && p == NodeAt(r.spine, i)
      invariant f == Unlines(before) + Unlines(RulesLines(Rules(r)[..i], path, mailbot))
      decreases |r.spine| - i
    {
      NextOf(r.spine, i);
      RulesSnoc(Rules(r), i, path, mailbot);
      f := PrintRule(f, p.data, path, mailbot);
      p := p.next;
      i := i + 1;
    }
    assert Rules(r)[..i] == Rules(r);
    SaveJoin(Rules(r), path, mailbot, from);
    f := f + ("to \"" + path + "/.\"" + "\n");
  }

  /** maildir_filter_loadrules, of a file that could be opened. */
  method LoadRules(r: Filter, text: string, room: nat) returns (status: Status)
    requires Valid(r) && room > 0
    modifies r, r.spine
    ensures Valid(r) && Loaded(status, Rules(r)) == Load(text, room, old(Rules(r)))
  {
    hide Lines, LoadFrom, IsHeading, List.Linked, RulesOf, Stored;
    if text == "" {
      NoLines(room);
      return LoadForeign;
    }
    var line, pos := ReadLine(text, 0, room);
    assert text[0..] == text;
    if !IsHeading(line) {
      return LoadForeign;
    }
    status := LoadBody(r, text, pos, room);
  }

  method LoadBody(r: Filter, text: string, start: nat, room: nat) returns (status: Status)
    requires Valid(r) && room > 0 && start <= |text|
    modifies r, r.spine
    ensures Valid(r) && Loaded(status, Rules(r)) == LoadFrom(Lines(text[start..], room), FRESH, old(Rules(r)))
  {
    hide Lines, LoadFrom, List.Linked, RulesOf, Stored, NoteOf, KindOf, Noted, Made;
    ghost var whole := LoadFrom(Lines(text[start..], room), FRESH, Rules(r));
    var pos, p := start, FRESH;
    while pos < |text|
      invariant start <= pos <= |text| && Valid(r)
        && (forall k :: 0 <= k < |r.spine| ==> r.spine[k] in old(r.spine) || fresh(r.spine[k]))
      invariant whole == LoadFrom(Lines(text[pos..], room), p, Rules(r))
      decreases |text| - pos
    {
      var line, next := ReadLine(text, pos, room);
      LoadStep(line, Lines(text[next..], room), p, Rules(r));
      var note := NoteOf(line);
      if note.Op? && KindOf(note.text).None? {
        return LoadForeign;
      }
      if note.Name? {
        var u := AppendRule(r, Some(note.text), p.kind, p.flags, Some(p.header), Some(p.value), Some(p.folder), p.from);
        MadeIs(note.text, p);
        if u.Refused? {
          return LoadError;
        }
        p := FRESH;
      } else {
        p := Noted(p, note);
      }
      pos := next;
    }
    assert text[pos..] == "";
    NoLines(room);
    LoadNothing(p, Rules(r));
    return LoadOk;
  }

  lemma MadeIs(name: string, p: Pending)
    ensures Made(name, p) ==
      RuleUpdate(Some(name), p.kind, p.flags, Some(p.header), Some(p.value), Some(p.folder), p.from)
  {}

  method LineEnd(text: string, pos: nat, room: nat) returns (n: nat)
    requires pos <= |text|
    ensures pos <= n <= |text| && n == pos + LineLength(text[pos..], room)
  {
    n := pos;
    while n < |text| && n - pos < room && text[n] != '\n'
      invariant pos <= n <= |text| && n - pos <= room
      invariant pos + LineLength(text[pos..], room) == n + LineLength(text[n..], room - (n - pos))
    {
      assert text[n..][1..] == text[n + 1..];
      n := n + 1;
    }
  }

  /** fgets, without the newline. */
  method ReadLine(text: string, pos: nat, room: nat) returns (line: string, next: nat)
    requires pos < |text| && room > 0
    ensures pos < next <= |text| && Lines(text[pos..], room) == [line] + Lines(text[next..], room)
  {
    hide Lines;
    ghost var t := text[pos..];
    var n := LineEnd(text, pos, room);
    line := text[pos..n];
    next := if n - pos < room && n < |text| then n + 1 else n;
    LinesStep(t, room);
    assert t[..n - pos] == line && t[next - pos..] == text[next..];
  }

  lemma LinesStep(t: string, room: nat)
    requires t != "" && room > 0
    ensures Lines(t, room) == [t[..LineLength(t, room)]] + Lines(t[Taken(t, room)..], room)
  {}

  // ----- printing

  lemma {:induction false} UnlinesJoin(a: seq<string>, b: seq<string>)
    ensures Unlines(a + b) == Unlines(a) + Unlines(b)
  {
    if a == [] {
      assert a + b == b;
    } else {
      assert (a + b)[1..] == a[1..] + b;
      UnlinesJoin(a[1..], b);
    }
  }

  lemma UnlinesOne(line: string)
    ensures Unlines([line]) == line + "\n"
  {}

  lemma UnlinesNone()
    ensures Unlines([]) == ""
  {}

  lemma NoRules(path: string, mailbot: string)
    ensures Unlines(RulesLines([], path, mailbot)) == ""
  {}

  lemma {:induction false} RulesLinesJoin(a: seq<Rule>, b: seq<Rule>, path: string, mailbot: string)
    ensures RulesLines(a + b, path, mailbot) == RulesLines(a, path, mailbot) + RulesLines(b, path, mailbot)
  {
    hide RuleLines;
    if a == [] {
      assert a + b == b;
    } else {
      assert (a + b)[1..] == a[1..] + b;
      RulesLinesJoin(a[1..], b, path, mailbot);
    }
  }

  lemma RulesSnoc(rules: seq<Rule>, i: nat, path: string, mailbot: string)
    requires i < |rules|
    ensures Unlines(RulesLines(rules[..i + 1], path, mailbot)) ==
            Unlines(RulesLines(rules[..i], path, mailbot)) + Unlines(RuleLines(rules[i], path, mailbot))
  {
    hide Unlines, RuleLines;
    assert rules[..i + 1] == rules[..i] + [rules[i]];
    RulesLinesJoin(rules[..i], [rules[i]], path, mailbot);
    assert RulesLines([rules[i]], path, mailbot) == RuleLines(rules[i], path, mailbot);
    UnlinesJoin(RulesLines(rules[..i], path, mailbot), RuleLines(rules[i], path, mailbot));
  }

  lemma SaveJoin(rules: seq<Rule>, path: string, mailbot: string, from: string)
    ensures Save(rules, path, mailbot, from) ==
            Unlines([HEADING] + Prolog(from)) + Unlines(RulesLines(rules, path, mailbot))
            + ("to \"" + path + "/.\"" + "\n")
  {
    hide Unlines, Prolog, RulesLines;
    var last := "to \"" + path + "/.\"";
    UnlinesJoin([HEADING] + Prolog(from) + RulesLines(rules, path, mailbot), [last]);
    UnlinesJoin([HEADING] + Prolog(from), RulesLines(rules, path, mailbot));
    UnlinesOne(last);
  }

  /** One fprintf of a line, behind lines that are printed already. */
  method Put(f: string, line: string, ghost before: string, ghost lines: seq<string>) returns (out: string)
    requires f == before + Unlines(lines)
    ensures out == before + Unlines(lines + [line])
  {
    hide Unlines;
    UnlinesJoin(lines, [line]);
    UnlinesOne(line);
    out := f + line + "\n";
  }

  method PutAll(f: string, more: seq<string>, ghost before: string, ghost lines: seq<string>) returns (out: string)
    requires f == before + Unlines(lines)
    ensures out == before + Unlines(lines + more)
  {
    hide Unlines;
    out := f;
    var i: nat := 0;
    assert lines + more[..0] == lines;
    while i < |more|
      invariant i <= |more| && out == before + Unlines(lines + more[..i])
    {
      out := Put(out, more[i], before, lines + more[..i]);
      assert lines + more[..i] + [more[i]] == lines + more[..i + 1];
      i := i + 1;
    }
    assert more[..i] == more;
  }

  method PutFlag(f: string, on: bool, line: string, ghost before: string, ghost lines: seq<string>)
    returns (out: string)
    requires f == before + Unlines(lines)
    ensures out == before + Unlines(lines + Flag(on, line))
  {
    out := f;
    assert lines + [] == lines;
    if on {
      out := Put(f, line, before, lines);
    }
  }

  method PrintProlog(from: string) returns (f: string)
    ensures f == Unlines([HEADING] + Prolog(from))
  {
    hide Unlines, PrologWith;
    UnlinesNone();
    f := PutAll("", [HEADING], "", []);
    assert [] + [HEADING] == [HEADING];
    var quoted := PrintUnquoted(from);
    f := PutAll(f, PrologWith(quoted), "", [HEADING]);
    assert f == "" + f;
  }

  /** The sender's address without quotation marks and backslashes. */
  method PrintUnquoted(from: string) returns (f: string)
    ensures f == Unquoted(from)
  {
    hide Unquoted;
    f := "";
    var i: nat := 0;
    assert from[0..] == from;
    while i < |from|
      invariant i <= |from| && f + Unquoted(from[i..]) == Unquoted(from)
    {
      UnquotedStep(f, from, i);
      if from[i] != '"' && from[i] != '\'' && from[i] != '\\' {
        f := f + [from[i]];
      }
      i := i + 1;
    }
    UnquotedNothing();
    assert from[i..] == "";
  }

  lemma UnquotedStep(f: string, from: string, i: nat)
    requires i < |from|
    ensures f + Unquoted(from[i..]) ==
            (if from[i] == '"' || from[i] == '\'' || from[i] == '\\' then f else f + [from[i]])
            + Unquoted(from[i + 1..])
  {
    assert from[i..][1..] == from[i + 1..];
  }

  lemma UnquotedNothing()
    ensures Unquoted("") == ""
  {}

  method PrintRule(f: string, r: Rule, path: string, mailbot: string) returns (out: string)
    ensures out == f + Unlines(RuleLines(r, path, mailbot))
  {
    hide Unlines, Texts, Flag, Action, Test;
    UnlinesNone();
    out := PutAll(f, Texts(r), f, []);
    assert [] + Texts(r) == Texts(r);
    out := PrintFlags(out, r.flags, f, Texts(r));
    ghost var sofar := Texts(r) + FlagNotes(r.flags);
    out := PutAll(out, ["##Name:" + r.name, "", "", Test(r), "{"], f, sofar);
    out := PutAll(out, Action(r, path, mailbot), f, sofar + ["##Name:" + r.name, "", "", Test(r), "{"]);
    out := PutAll(out, ["}", ""], f,
                  sofar + ["##Name:" + r.name, "", "", Test(r), "{"] + Action(r, path, mailbot));
    RuleLinesAre(r, path, mailbot);
  }

  lemma RuleLinesAre(r: Rule, path: string, mailbot: string)
    ensures RuleLines(r, path, mailbot) ==
            Texts(r) + FlagNotes(r.flags) + ["##Name:" + r.name, "", "", Test(r), "{"]
            + Action(r, path, mailbot) + ["}", ""]
  {
    hide Texts, FlagNotes, Action, Test;
  }

  method PrintFlags(f: string, flags: Flags, ghost before: string, ghost lines: seq<string>) returns (out: string)
    requires f == before + Unlines(lines)
    ensures out == before + Unlines(lines + FlagNotes(flags))
  {
    hide Unlines, Flag;
    ghost var one := lines + Flag(flags.plain, "##PlainString");
    ghost var two := one + Flag(flags.doesNot, "##DoesNot");
    ghost var three := two + Flag(flags.body, "##Body");
    out := PutFlag(f, flags.plain, "##PlainString", before, lines);
    out := PutFlag(out, flags.doesNot, "##DoesNot", before, one);
    out := PutFlag(out, flags.body, "##Body", before, two);
    out := PutFlag(out, flags.continues, "##Continue", before, three);
    assert three + Flag(flags.continues, "##Continue") == lines + FlagNotes(flags);
  }

  /** The elements k - 1 and k, exchanged. */
  ghost function Swap<T>(s: seq<T>, k: nat): (r: seq<T>)
    requires 0 < k < |s|
  {
    s[k - 1 := s[k]][k := s[k - 1]]
  }

  lemma SwapMoves<T>(s: seq<T>, k: nat)
    requires 0 < k < |s|
    ensures Swap(s, k) == With(Without(s, k), k - 1, s[k]) == With(Without(s, k - 1), k, s[k - 1])
  {}

  /** Moving a rule up and then down again changes nothing, and no rule is lost or doubled. */
  lemma SwapUndone<T>(s: seq<T>, k: nat)
    requires 0 < k < |s|
    ensures Swap(Swap(s, k), k) == s && multiset(Swap(s, k)) == multiset(s)
  {}
}
