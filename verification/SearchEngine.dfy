/** wmail/maildir/maildirsearch.c and maildirsearch.h: looking for a string in a text that
    comes one character at a time, with a table of where to go on after a mismatch. */
module SearchEngine {
  import opened CStrings

  // ----- what the table and the search are about

  /** The prefix of length j of the pattern is a proper border of its prefix of length k. */
  ghost predicate Border(p: string, j: nat, k: nat) {
    j < k <= |p| && p[..j] == p[k - j..k]
  }

  /** A border after which the pattern goes on differently than after position k. */
  ghost predicate StrongBorder(p: string, j: nat, k: nat) {
    k < |p| && Border(p, j, k) && p[j] != p[k]
  }

  /** r is where to go on after a mismatch at k: the longest strong border, or else 0. */
  ghost predicate IsRetry(p: string, k: nat, r: nat) {
    (r == 0 || StrongBorder(p, r, k)) && forall j: nat :: StrongBorder(p, j, k) ==> j <= r
  }

  ghost predicate IsTable(p: string, r: seq<nat>) {
    |r| == |p| && forall k :: 0 <= k < |p| ==> IsRetry(p, k, r[k])
  }

  ghost predicate Occurs(p: string, t: string) {
    exists k :: Match(p, t, k)
  }

  ghost predicate Match(p: string, t: string, k: nat) {
    k + |p| <= |t| && t[k..k + |p|] == p
  }

  /** The last j characters of the text are the first j of the pattern. */
  ghost predicate Overlap(p: string, t: string, j: nat) {
    j <= |p| && j <= |t| && t[|t| - j..] == p[..j]
  }

  ghost predicate LongestOverlap(p: string, t: string, i: nat) {
    Overlap(p, t, i) && forall j: nat :: Overlap(p, t, j) ==> j <= i
  }

  lemma OccursIs(p: string, t: string)
    ensures Occurs(p, t) <==> exists a, b :: t == a + p + b
  {
    if Occurs(p, t) {
      var k: nat :| Match(p, t, k);
      assert t == t[..k] + p + t[k + |p|..];
    }
    if exists a, b :: t == a + p + b {
      var a, b :| t == a + p + b;
      assert Match(p, t, |a|);
    }
  }

  // ----- how overlaps grow

  lemma OverlapEmpty(p: string, t: string)
    ensures Overlap(p, t, 0)
  {}

  /** A longer text overlaps by j + 1 exactly where the shorter one did by j. */
  lemma OverlapSnoc(p: string, t: string, c: char, j: nat)
    requires j < |p|
    ensures Overlap(p, t + [c], j + 1) <==> Overlap(p, t, j) && p[j] == c
  {
    if j <= |t| {
      assert (t + [c])[|t| - j..] == t[|t| - j..] + [c];
      assert p[..j + 1] == p[..j] + [p[j]];
      assert p[..j + 1][..j] == p[..j] && (t[|t| - j..] + [c])[..j] == t[|t| - j..];
      assert p[..j + 1][j] == p[j] && (t[|t| - j..] + [c])[j] == c;
    }
  }

  /** Of two overlaps the shorter is a border of the longer. */
  lemma OverlapsNest(p: string, t: string, j: nat, i: nat)
    requires j < i && Overlap(p, t, i)
    ensures Overlap(p, t, j) <==> Border(p, j, i)
  {
    assert t[|t| - j..] == t[|t| - i..][i - j..];
    assert p[i - j..i] == p[..i][i - j..];
  }

  /** The pattern occurs in a longer text if it did before, or now ends it. */
  lemma OccursSnoc(p: string, t: string, c: char)
    ensures Occurs(p, t + [c]) <==> Occurs(p, t) || Overlap(p, t + [c], |p|)
  {
    var u := t + [c];
    if Occurs(p, t) {
      var k: nat :| Match(p, t, k);
      assert u[k..k + |p|] == t[k..k + |p|];
      assert Match(p, u, k);
    }
    if Overlap(p, u, |p|) {
      assert u[|u| - |p|..] == u[|u| - |p|..|u| - |p| + |p|] && p[..|p|] == p;
      assert Match(p, u, |u| - |p|);
    }
    if Occurs(p, u) {
      var k: nat :| Match(p, u, k);
      if k + |p| <= |t| {
        assert u[k..k + |p|] == t[k..k + |p|];
        assert Match(p, t, k);
      } else {
        assert u[|u| - |p|..] == p == p[..|p|];
      }
    }
  }

  // ----- one turn of the search

  /** i is an overlap, and no longer one is followed by ch in the pattern. */
  ghost predicate Candidate(p: string, t: string, ch: char, i: nat) {
    i < |p| && Overlap(p, t, i) && forall j: nat :: j < |p| && Overlap(p, t, j) && p[j] == ch ==> j <= i
  }

  lemma EntryIs(p: string, r: seq<nat>, i: nat)
    requires IsTable(p, r) && i < |p|
    ensures i < |r| && IsRetry(p, i, r[i])
  {}

  lemma FirstCandidate(p: string, t: string, ch: char, i: nat)
    requires LongestOverlap(p, t, i) && i < |p|
    ensures Candidate(p, t, ch, i)
  {}

  lemma FoundAtEnd(p: string, t: string, ch: char, i: nat)
    requires LongestOverlap(p, t + [ch], i)
    ensures i <= |p| && (Overlap(p, t + [ch], |p|) <==> i == |p|)
  {}

  lemma Advance(p: string, t: string, ch: char, i: nat)
    requires Candidate(p, t, ch, i) && p[i] == ch
    ensures LongestOverlap(p, t + [ch], i + 1)
  {
    hide Overlap;
    OverlapSnoc(p, t, ch, i);
    forall j: nat | Overlap(p, t + [ch], j)
      ensures j <= i + 1
    {
      if j > 0 {
        OverlapBound(p, t + [ch], j);
        OverlapSnoc(p, t, ch, j - 1);
      }
    }
  }

  lemma OverlapBound(p: string, t: string, j: nat)
    requires Overlap(p, t, j)
    ensures j <= |p|
  {}

  lemma Nothing(p: string, t: string, ch: char)
    requires Candidate(p, t, ch, 0) && p[0] != ch
    ensures LongestOverlap(p, t + [ch], 0) && !Overlap(p, t + [ch], |p|)
  {
    hide Overlap;
    OverlapEmpty(p, t + [ch]);
    forall j: nat | Overlap(p, t + [ch], j)
      ensures j == 0
    {
      if j > 0 {
        OverlapBound(p, t + [ch], j);
        OverlapSnoc(p, t, ch, j - 1);
      }
    }
  }

  /** After a mismatch the table names the next candidate. */
  lemma Retreat(p: string, t: string, ch: char, i: nat, r: nat)
    requires Candidate(p, t, ch, i) && p[i] != ch && i > 0 && IsRetry(p, i, r)
    ensures r < i && Candidate(p, t, ch, r)
  {
    OverlapEmpty(p, t);
    if r > 0 {
      OverlapsNest(p, t, r, i);
    }
    forall j: nat | j < |p| && Overlap(p, t, j) && p[j] == ch
      ensures j <= r
    {
      assert j < i;
      OverlapsNest(p, t, j, i);
      assert StrongBorder(p, j, i);
    }
  }

  // ----- the table

  /** r is right for position k as far as borders found by shifts below `shifts` go. */
  ghost predicate RetrySoFar(p: string, k: nat, r: nat, shifts: nat) {
    (r == 0 || StrongBorder(p, r, k)) && forall j: nat :: StrongBorder(p, j, k) && k - j < shifts ==> j <= r
  }

  /** The double loop of maildir_search_start. */
  method BuildTable(s: string) returns (r: array<nat>)
    ensures fresh(r) && IsTable(s, r[..])
  {
    r := new nat[|s|](_ => 0);
    for i := 0 to |s|
      invariant forall k :: 0 <= k < |s| ==> RetrySoFar(s, k, r[k], i)
    {
      ghost var was := r[..];
      var j := 0;
      while i + j < |s|
        invariant 0 <= j && i + j <= |s| && s[..j] == s[i..i + j] && r[..] == was
      {
        if s[j] != s[i + j] {
          if r[i + j] < j {
            r[i + j] := j;
          }
          break;
        }
        assert s[..j + 1] == s[..j] + [s[j]] && s[i..i + j + 1] == s[i..i + j] + [s[i + j]];
        j := j + 1;
      }
      forall k: nat | k < |s|
        ensures RetrySoFar(s, k, r[k], i + 1)
      {
        assert RetrySoFar(s, k, was[k], i);
        ShiftFinds(s, k, was[k], i, j);
      }
    }
    forall k | 0 <= k < |s|
      ensures IsRetry(s, k, r[k])
    {
      assert RetrySoFar(s, k, r[k], |s|);
    }
  }

  /** Comparing the pattern with itself shifted by i finds all strong borders k - j == i there
      are: one, at the first difference. */
  lemma ShiftFinds(p: string, k: nat, was: nat, i: nat, j: nat)
    requires k < |p| && RetrySoFar(p, k, was, i)
    requires i + j <= |p| && p[..j] == p[i..i + j]
    requires i + j < |p| ==> p[j] != p[i + j]
    ensures RetrySoFar(p, k, if k == i + j && was < j then j else was, i + 1)
  {
    assert forall x :: 0 <= x < j ==> p[..j][x] == p[i..i + j][x];
    forall m: nat | StrongBorder(p, m, k) && k - m == i
      ensures m == j
    {
      assert p[..m] == p[i..k];
      assert forall x :: 0 <= x < m ==> p[..m][x] == p[i..k][x];
    }
  }

  // ----- the engine

  /** The loop of maildir_search_step; a turn either ends it or loses a character of the overlap. */
  method NextOverlap(p: string, r: array<nat>, from: nat, ch: char, ghost t: string) returns (i: nat, ghost turns: nat)
    requires IsTable(p, r[..]) && from < |p| && LongestOverlap(p, t, from)
    ensures LongestOverlap(p, t + [ch], i) && turns + i <= from + 2
    ensures i <= |p| && (Overlap(p, t + [ch], |p|) <==> i == |p|)
  {
    hide IsRetry, IsTable, Candidate, LongestOverlap, Overlap;
    i, turns := from, 0;
    FirstCandidate(p, t, ch, i);
    while true
      invariant 0 <= i < |p| && Candidate(p, t, ch, i) && turns + i <= from
      decreases i
    {
      turns := turns + 1;
      if p[i] == ch {
        Advance(p, t, ch, i);
        i := i + 1;
        break;
      }
      if i == 0 {
        Nothing(p, t, ch);
        break;
      }
      EntryIs(p, r[..], i);
      Retreat(p, t, ch, i, r[i]);
      i := r[i];
    }
    FoundAtEnd(p, t, ch, i);
  }

  /** struct maildir_searchengine.  The pattern is a C string, so it has no NUL in it. */
  class Engine {
    var str: string
    var ptr: Option<string>
    var r: array?<nat>
    var i: nat

    /** The text since the last reset, and how often the loop in maildir_search_step ran for it. */
    ghost var fed: string
    ghost var turns: nat

    ghost predicate Valid()
      reads this, r
    {
      ptr.Some? ==>
        && ptr.value == str && r != null && IsTable(str, r[..])
        && i <= |str| && turns + i <= 2 * |fed|
        && (if Occurs(str, fed) then i == |str| else i < |str| && LongestOverlap(str, fed, i))
    }

    /** maildir_search_init. */
    constructor ()
      ensures Valid() && ptr == None
    {
      str, ptr, r, i := "", None, null, 0;
      fed, turns := "", 0;
    }

    /** maildir_search_start, for a pattern s; the allocation is taken to succeed. */
    method Start(s: string)
      modifies this
      ensures Valid() && ptr == Some(s) && fed == "" && turns == 0 && fresh(r)
    {
      str := s;
      i := 0;
      r := BuildTable(s);
      Reset();
    }

    /** maildir_search_reset. */
    method Reset()
      requires r != null && IsTable(str, r[..])
      modifies this`i, this`ptr, this`fed, this`turns
      ensures Valid() && ptr == Some(str) && i == 0 && fed == "" && turns == 0
    {
      i, ptr := 0, Some(str);
      fed, turns := "", 0;
      OverlapEmpty(str, "");
      assert Match(str, "", 0) <==> str == "";
    }

    /** maildir_search_found. */
    method Found() returns (found: bool)
      requires Valid()
      ensures found <==> ptr.Some? && Occurs(ptr.value, fed)
    {
      found := ptr.Some? && i == |ptr.value|;
    }

    /** maildir_search_step. */
    method Step(ch: char)
      requires Valid()
      modifies this`i, this`fed, this`turns
      ensures Valid()
      ensures ptr.Some? ==> fed == old(fed) + [ch]
      ensures ptr.None? ==> fed == old(fed)
    {
      if ptr.None? {
        return;
      }
      hide Overlap, Occurs, IsRetry, IsTable, LongestOverlap;
      var p := ptr.value;
      OccursSnoc(p, fed, ch);
      if i < |p| {
        ghost var more;
        i, more := NextOverlap(p, r, i, ch, fed);
        turns := turns + more;
      }
      fed := fed + [ch];
    }
  }

  /** The documented use, from init to found: does the pattern occur in the text?  The whole
      search makes at most two turns of the inner loop for a character. */
  method Search(s: string, text: string) returns (found: bool, ghost turns: nat)
    ensures found <==> Occurs(s, text)
    ensures found <==> exists a, b :: text == a + s + b
    ensures turns <= 2 * |text|
  {
    OccursIs(s, text);
    var engine := new Engine();
    engine.Start(s);
    for k := 0 to |text|
      invariant engine.Valid() && fresh(engine) && engine.ptr == Some(s) && engine.fed == text[..k]
      invariant engine.r != null && fresh(engine.r)
    {
      engine.Step(text[k]);
    }
    assert text[..|text|] == text;
    found := engine.Found();
    turns := engine.turns;
  }
}
