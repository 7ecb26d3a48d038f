/** File names of messages in a maildir, in which a size may be cached as `,S=<digits>` before
    the flags: wmail/maildir/maildirrequota.c writes it, maildirparsequota.c reads it, and the
    lookup of maildirfilename.c does not mind it.  Names here have no directory in front. */
module MaildirNames {
  import opened CStrings
  import opened Decimal

  const SEPARATOR := ':'

  /** A size tag starts at j. */
  predicate TagAt(s: string, j: nat) {
    j + 3 <= |s| && s[j] == ',' && s[j + 1] == 'S' && s[j + 2] == '='
  }

  /** The end of the name proper: the first separator, or the end. */
  function FlagsAt(s: string, j: nat): (e: nat)
    requires j <= |s|
    ensures j <= e <= |s| && (forall k :: j <= k < e ==> s[k] != SEPARATOR) && (e == |s| || s[e] == SEPARATOR)
    decreases |s| - j
  {
    if j < |s| && s[j] != SEPARATOR then FlagsAt(s, j + 1) else j
  }

  // ----- maildir_filename

  function SkipTag(s: string, j: nat): (k: nat)
    requires j <= |s|
    ensures j <= k <= |s|
  {
    if TagAt(s, j) then DigitsEnd(s, j + 3) else j
  }

  predicate AtEnd(s: string, j: nat)
    requires j <= |s|
  {
    j == |s| || s[j] == SEPARATOR
  }

  /** What the lookup compares: the name from j on without its size tag and its flags.  One tag
      is left out before each character that counts. */
  function NormalFrom(s: string, j: nat): string
    requires j <= |s|
    decreases |s| - j
  {
    var k := SkipTag(s, j);
    if AtEnd(s, k) then "" else [s[k]] + NormalFrom(s, k + 1)
  }

  function Normal(s: string): string {
    NormalFrom(s, 0)
  }

  /** The matching loop, with its two pointers. */
  method Matches(filename: string, entry: string) returns (same: bool)
    ensures same <==> Normal(filename) == Normal(entry)
  {
    hide NormalFrom, SkipTag, AtEnd;
    var a: nat, b: nat := 0, 0;
    ghost var before := "";
    while true
      invariant a <= |filename| && b <= |entry|
      invariant Normal(filename) == before + NormalFrom(filename, a)
      invariant Normal(entry) == before + NormalFrom(entry, b)
      decreases |filename| - a
    {
      ghost var a0, b0 := a, b;
      NormalStep(filename, a);
      NormalStep(entry, b);
      a := SkipTag(filename, a);
      b := SkipTag(entry, b);
      if AtEnd(filename, a) && AtEnd(entry, b) {
        return true;
      }
      if AtEnd(filename, a) || AtEnd(entry, b) || filename[a] != entry[b] {
        Differ(before, NormalFrom(filename, a0), NormalFrom(entry, b0));
        return false;
      }
      Regroup(before, [filename[a]], NormalFrom(filename, a + 1));
      Regroup(before, [entry[b]], NormalFrom(entry, b + 1));
      before := before + [filename[a]];
      a := a + 1;
      b := b + 1;
    }
  }

  lemma NormalStep(s: string, j: nat)
    requires j <= |s|
    ensures var k := SkipTag(s, j);
      if AtEnd(s, k) then NormalFrom(s, j) == ""
      else k < |s| && NormalFrom(s, j) == [s[k]] + NormalFrom(s, k + 1)
  {}

  lemma Differ(before: string, x: string, y: string)
    requires (x == "") != (y == "") || (x != "" && y != "" && x[0] != y[0])
    ensures before + x != before + y
  {
    assert (before + x)[|before|..] == x && (before + y)[|before|..] == y;
  }

  // ----- what the lookup disregards

  /** Flags make no difference. */
  lemma FlagsDisregarded(name: string, flags: string)
    ensures Normal(name + ":" + flags) == Normal(name)
  {
    NormalBefore(name, flags, 0);
  }

  /** From any place in the name on. */
  lemma {:induction false} NormalBefore(name: string, flags: string, j: nat)
    requires j <= |name|
    ensures NormalFrom(name + ":" + flags, j) == NormalFrom(name, j)
    decreases |name| - j
  {
    var s := name + ":" + flags;
    SameSkip(name, flags, j);
    var k := SkipTag(name, j);
    if k < |name| {
      assert s[k] == name[k];
      NormalBefore(name, flags, k + 1);
    } else {
      assert s[k] == ':';
    }
  }

  lemma SameSkip(name: string, flags: string, j: nat)
    requires j <= |name|
    ensures SkipTag(name + ":" + flags, j) == SkipTag(name, j) <= |name|
  {
    var s := name + ":" + flags;
    assert forall k :: 0 <= k < |name| ==> s[k] == name[k];
    assert s[|name|] == ':';
    if j + 3 <= |name| {
      SameDigitsEnd(name, flags, j + 3);
    } else {
      assert !TagAt(name, j) && !TagAt(s, j);
    }
  }

  lemma {:induction false} SameDigitsEnd(name: string, flags: string, j: nat)
    requires j <= |name|
    ensures DigitsEnd(name + ":" + flags, j) == DigitsEnd(name, j)
    decreases |name| - j
  {
    var s := name + ":" + flags;
    if j < |name| {
      assert s[j] == name[j];
      SameDigitsEnd(name, flags, j + 1);
    } else {
      assert s[j] == ':';
    }
  }

  /** A name with neither tag nor flags is compared as it is. */
  lemma {:induction false} NormalPlain(name: string, j: nat)
    requires j <= |name| && ':' !in name && forall k :: j <= k < |name| ==> !TagAt(name, k)
    ensures NormalFrom(name, j) == name[j..]
    decreases |name| - j
  {
    if j < |name| {
      NormalPlain(name, j + 1);
    }
  }

  /** So messages that differ in their flags alone are found by either name. */
  lemma FoundByFlags(entries: seq<string>, name: string, flags: string, flags': string)
    requires name + ":" + flags' in entries
    ensures exists e :: e in entries && Normal(e) == Normal(name + ":" + flags)
  {
    hide Normal;
    FlagsDisregarded(name, flags);
    FlagsDisregarded(name, flags');
  }

  ghost predicate FirstMatch(entries: seq<string>, filename: string, k: nat) {
    && k < |entries| && Normal(entries[k]) == Normal(filename)
    && forall m :: 0 <= m < k ==> Normal(entries[m]) != Normal(filename)
  }

  /** maildir_filename in a directory with these entries; None stands for ENOENT. */
  method Lookup(entries: seq<string>, filename: string) returns (r: Option<string>)
    ensures r.None? <==> '/' in filename || ("." <= filename)
    ensures r.Some? && filename in entries ==> r.value == filename
    ensures r.Some? && filename !in entries ==>
      if exists e :: e in entries && Normal(e) == Normal(filename)
      then exists k: nat :: FirstMatch(entries, filename, k) && r.value == entries[k]
      else r.value == filename
  {
    if '/' in filename || "." <= filename {
      return None;
    }
    if filename in entries {
      return Some(filename);
    }
    for k := 0 to |entries|
      invariant forall m :: 0 <= m < k ==> Normal(entries[m]) != Normal(filename)
    {
      var same := Matches(filename, entries[k]);
      if same {
        assert entries[k] in entries && FirstMatch(entries, filename, k);
        return Some(entries[k]);
      }
    }
    r := Some(filename);
  }

  // ----- maildir_requota

  /** Where the size goes: the first tag or separator, or else the end. */
  function SizePlace(s: string, j: nat): (k: nat)
    requires j <= |s|
    ensures j <= k <= |s| && (k == |s| || TagAt(s, k) || s[k] == SEPARATOR)
    ensures forall m :: j <= m < k ==> !TagAt(s, m) && s[m] != SEPARATOR
    decreases |s| - j
  {
    if j < |s| && !TagAt(s, j) && s[j] != SEPARATOR then SizePlace(s, j + 1) else j
  }

  function Requota(s: string, size: nat): string {
    var q := SizePlace(s, 0);
    s[..q] + (",S=" + OfNat(size)) + s[SkipTag(s, q)..]
  }

  /** maildir_requota. */
  method RequotaName(oldname: string, size: nat) returns (p: string)
    ensures p == Requota(oldname, size)
  {
    hide OfNat, DigitsEnd;
    var n := StrOffT(size);
    var buf := ",S=" + n;
    var q: nat := 0;
    while q < |oldname|
      invariant q <= |oldname| && SizePlace(oldname, q) == SizePlace(oldname, 0)
    {
      if TagAt(oldname, q) || oldname[q] == SEPARATOR {
        p := oldname[..q] + buf;
        if oldname[q] == ',' {
          q := q + 3;
        }
        q := SkipDigits(oldname, q);
        return p + oldname[q..];
      }
      q := q + 1;
    }
    assert oldname[..q] == oldname && oldname[SkipTag(oldname, q)..] == "";
    p := oldname + buf;
  }

  // ----- maildir_parsequota

  /** The last tag that starts before k, or none. */
  function LastTag(s: string, k: nat): (r: Option<nat>)
    requires k <= |s|
    ensures r.Some? ==> r.value < k && TagAt(s, r.value)
    ensures forall m :: (if r.Some? then r.value else -1) < m < k ==> !TagAt(s, m)
  {
    if k == 0 then None else if TagAt(s, k - 1) then Some(k - 1) else LastTag(s, k - 1)
  }

  function TagValue(s: string, j: nat): nat
    requires TagAt(s, j)
  {
    Value(s[j + 3..DigitsEnd(s, j + 3)])
  }

  /** The size in a name, if it has one. */
  function ParsedSize(s: string): Option<nat> {
    var t := LastTag(s, FlagsAt(s, 0));
    if t.Some? then Some(TagValue(s, t.value)) else None
  }

  /** maildir_parsequota; None stands for its result -1. */
  method ParseQuotaName(n: string) returns (r: Option<nat>)
    ensures r == ParsedSize(n)
  {
    var o: nat := 0;
    while o < |n| && n[o] != SEPARATOR
      invariant o <= |n| && FlagsAt(n, o) == FlagsAt(n, 0)
    {
      o := o + 1;
    }
    ghost var flags := o;
    var yes := false;
    assert !TagAt(n, o);
    while o > 0
      invariant 0 <= o <= flags && LastTag(n, o) == LastTag(n, flags)
    {
      o := o - 1;
      if TagAt(n, o) {
        yes := true;
        break;
      }
    }
    if !yes {
      return None;
    }
    o := o + 3;
    var s;
    s, o := ReadDigits(n, o);
    r := Some(s);
  }

  // ----- lookup, writing and reading agree

  /** From x on, s reads like t from y on. */
  ghost predicate Same(s: string, x: nat, t: string, y: nat) {
    x <= |s| && y <= |t| && s[x..] == t[y..]
  }

  lemma SameLater(s: string, x: nat, t: string, y: nat, d: nat)
    requires Same(s, x, t, y) && x + d <= |s|
    ensures |s| - x == |t| - y && Same(s, x + d, t, y + d)
    ensures x + d < |s| ==> s[x + d] == t[y + d]
  {
    assert |s| - x == |s[x..]| == |t[y..]| == |t| - y;
    assert s[x + d..] == s[x..][d..] && t[y + d..] == t[y..][d..];
    assert x + d < |s| ==> s[x..][d] == t[y..][d];
  }

  lemma SameTag(s: string, x: nat, t: string, y: nat)
    requires Same(s, x, t, y)
    ensures TagAt(s, x) <==> TagAt(t, y)
    ensures SkipTag(s, x) - x == SkipTag(t, y) - y
  {
    SameBounds(s, x, t, y);
    hide Same;
    SameLater(s, x, t, y, 0);
    if x + 3 <= |s| {
      SameLater(s, x, t, y, 1);
      SameLater(s, x, t, y, 2);
      SameLater(s, x, t, y, 3);
      SameDigits(s, x + 3, t, y + 3);
    }
  }

  lemma SameDigits(s: string, x: nat, t: string, y: nat)
    requires Same(s, x, t, y)
    ensures x <= |s| && y <= |t| && DigitsEnd(s, x) - x == DigitsEnd(t, y) - y
  {
    DigitsEndSuffix(s, x, t, y);
  }

  lemma SameBounds(s: string, x: nat, t: string, y: nat)
    requires Same(s, x, t, y)
    ensures x <= |s| && y <= |t|
  {}

  /** The normal form of what follows a position depends on nothing else. */
  lemma {:induction false} NormalSame(s: string, x: nat, t: string, y: nat)
    requires x <= |s| && y <= |t| && Same(s, x, t, y)
    ensures NormalFrom(s, x) == NormalFrom(t, y)
    decreases |s| - x
  {
    hide Same, NormalFrom, SkipTag;
    SameTag(s, x, t, y);
    var k, l := SkipTag(s, x), SkipTag(t, y);
    SameLater(s, x, t, y, k - x);
    NormalStep(s, x);
    NormalStep(t, y);
    if !AtEnd(s, k) {
      SameLater(s, x, t, y, k + 1 - x);
      NormalSame(s, k + 1, t, l + 1);
    }
  }

  /** Where a rewritten name and the old one correspond: up to q they are equal, and what comes
      behind the new tag, from e on, is what came behind the old one, from k on. */
  lemma RequotaShape(s: string, n: nat)
    ensures var t, q := Requota(s, n), SizePlace(s, 0);
      var k, e := SkipTag(s, q), q + 3 + |OfNat(n)|;
      && t[..q] == s[..q] && Same(s, k, t, e)
      && TagAt(t, q) && SkipTag(t, q) == e && t[q + 3..e] == OfNat(n)
      && (forall j :: 0 <= j < q ==> !TagAt(t, j) && t[j] != SEPARATOR)
  {
    hide OfNat;
    var q, num := SizePlace(s, 0), OfNat(n);
    var k := SkipTag(s, q);
    assert k < |s| ==> !IsDigit(s[k]);
    Joined(s[..q], num, s[k..]);
    NoTagBefore(s, Requota(s, n), q);
  }

  /** A head, a tag with these digits, and a rest that does not go on with a digit. */
  lemma Joined(head: string, num: string, rest: string)
    requires AllDigits(num) && (rest == "" || !IsDigit(rest[0]))
    ensures var t, q := head + (",S=" + num) + rest, |head|;
      var e := q + 3 + |num|;
      && t[..q] == head && t[e..] == rest && e <= |t|
      && TagAt(t, q) && SkipTag(t, q) == e && t[q + 3..e] == num
  {
    var t, q := head + (",S=" + num) + rest, |head|;
    var tag := ",S=" + num;
    var e := q + |tag|;
    assert t[q..e] == tag && t[e..] == rest;
    assert t[q] == tag[0] && t[q + 1] == tag[1] && t[q + 2] == tag[2];
    assert t[q + 3..e] == tag[3..] == num;
    assert rest != "" ==> t[e] == rest[0];
    DigitsEndIs(t, q + 3, e);
  }

  /** Up to the place of the size there is no tag, in the old name and in the new one. */
  lemma NoTagBefore(s: string, t: string, q: nat)
    requires q == SizePlace(s, 0) && q < |t| && t[..q] == s[..q] && t[q] == ','
    ensures forall j :: 0 <= j < q ==> !TagAt(t, j) && t[j] != SEPARATOR
  {
    forall j | 0 <= j < q
      ensures !TagAt(t, j) && t[j] != SEPARATOR
    {
      assert t[j] == t[..q][j] == s[j] && !TagAt(s, j);
      assert j + 1 < q ==> t[j + 1] == t[..q][j + 1] == s[j + 1];
      assert j + 2 < q ==> t[j + 2] == t[..q][j + 2] == s[j + 2];
    }
  }

  lemma {:induction false} NormalPrefix(s: string, t: string, q: nat, j: nat)
    requires j <= q && q <= |s| && q <= |t| && s[..q] == t[..q]
    requires forall m :: 0 <= m < q ==> !TagAt(s, m) && !TagAt(t, m)
    requires NormalFrom(s, q) == NormalFrom(t, q)
    ensures NormalFrom(s, j) == NormalFrom(t, j)
    decreases q - j
  {
    if j < q {
      assert s[j] == s[..q][j] == t[..q][j] == t[j];
      NormalPrefix(s, t, q, j + 1);
    }
  }

  /** Changing the size does not change what a lookup compares. */
  lemma RequotaNormal(s: string, n: nat)
    ensures Normal(Requota(s, n)) == Normal(s)
  {
    hide Requota, OfNat, Same, NormalFrom;
    var t, q := Requota(s, n), SizePlace(s, 0);
    var k, e := SkipTag(s, q), q + 3 + |OfNat(n)|;
    RequotaShape(s, n);
    SameLater(s, k, t, e, 0);
    NormalStep(s, q);
    NormalStep(t, q);
    if !AtEnd(s, k) {
      SameLater(s, k, t, e, 1);
      NormalSame(s, k + 1, t, e + 1);
    }
    NormalPrefix(s, t, q, 0);
  }

  lemma {:induction false} SizePlaceIs(s: string, j: nat, q: nat)
    requires j <= q < |s| && TagAt(s, q)
    requires forall m :: j <= m < q ==> !TagAt(s, m) && s[m] != SEPARATOR
    ensures SizePlace(s, j) == q
    decreases q - j
  {
    if j < q {
      SizePlaceIs(s, j + 1, q);
    }
  }

  /** Of several sizes written, the last stays, as if it had been the only one. */
  lemma LastRequotaWins(s: string, m: nat, n: nat)
    ensures Requota(Requota(s, m), n) == Requota(s, n)
  {
    hide OfNat;
    RequotaShape(s, m);
    var t, q := Requota(s, m), SizePlace(s, 0);
    SizePlaceIs(t, 0, q);
  }

  /** A second tag stands between the place of the size and the flags. */
  predicate LaterTag(s: string) {
    var t := LastTag(s, FlagsAt(s, 0));
    t.Some? && t.value > SizePlace(s, 0)
  }

  lemma {:induction false} LastTagIs(s: string, k: nat, r: nat)
    requires r < k <= |s| && TagAt(s, r) && forall m :: r < m < k ==> !TagAt(s, m)
    ensures LastTag(s, k) == Some(r)
  {
    if r < k - 1 {
      LastTagIs(s, k - 1, r);
    }
  }

  lemma {:induction false} FlagsAtIs(s: string, j: nat, e: nat)
    requires j <= e <= |s| && SEPARATOR !in s[j..e] && (e == |s| || s[e] == SEPARATOR)
    ensures FlagsAt(s, j) == e
    decreases e - j
  {
    if j < e {
      assert s[j] == s[j..e][0];
      assert s[j + 1..e] == s[j..e][1..];
      FlagsAtIs(s, j + 1, e);
    }
  }

  /** Inside a tag there is no separator and no other tag. */
  lemma TagPlain(s: string, q: nat)
    requires q <= |s|
    ensures forall m :: q <= m < SkipTag(s, q) ==> s[m] != SEPARATOR && (m > q ==> !TagAt(s, m))
  {
    if TagAt(s, q) {
      DigitsWithin(s, q + 3);
    }
  }

  lemma FlagsBehind(s: string)
    ensures SkipTag(s, SizePlace(s, 0)) <= FlagsAt(s, 0)
  {
    var q, f := SizePlace(s, 0), FlagsAt(s, 0);
    TagPlain(s, q);
    assert f < |s| ==> s[f] == SEPARATOR;
  }

  lemma NoSeparatorBefore(s: string)
    ensures forall m :: 0 <= m < FlagsAt(s, 0) ==> s[m] != SEPARATOR
  {
    var f := FlagsAt(s, 0);
    assert forall m :: 0 <= m < f ==> s[0..f][m] == s[m];
  }

  /** Behind the tags, the two names have the same flags. */
  lemma SameFlags(s: string, k: nat, t: string, e: nat)
    requires Same(s, k, t, e)
    requires k <= FlagsAt(s, 0) && forall m :: 0 <= m < e ==> m < |t| && t[m] != SEPARATOR
    ensures FlagsAt(t, 0) == FlagsAt(s, 0) - k + e
  {
    hide Same;
    var f := FlagsAt(s, 0);
    var g := f - k + e;
    NoSeparatorBefore(s);
    SameLater(s, k, t, e, f - k);
    forall m | 0 <= m < g
      ensures t[m] != SEPARATOR
    {
      if m >= e {
        SameLater(s, k, t, e, m - e);
      }
    }
    assert SEPARATOR !in t[0..g];
    FlagsAtIs(t, 0, g);
  }

  /** ... and the same tags. */
  lemma SameTags(s: string, k: nat, t: string, e: nat, m: nat)
    requires Same(s, k, t, e) && k <= |s| && e <= |t| && e <= m <= |t|
    ensures m - e + k <= |s| && (TagAt(t, m) <==> TagAt(s, m - e + k))
  {
    hide TagAt;
    SameLater(s, k, t, e, 0);
    SameLater(s, k, t, e, m - e);
    SameTag(s, m - e + k, t, m);
  }

  /** If the last tag before the flags is behind k in s, it is as far behind e in t. */
  lemma LastTagMoves(s: string, k: nat, t: string, e: nat, f: nat, r: nat)
    requires Same(s, k, t, e) && k <= r < f <= |s| && e <= |t|
    requires LastTag(s, f) == Some(r)
    ensures f - k + e <= |t| && LastTag(t, f - k + e) == Some(r - k + e)
  {
    hide Same, TagAt, LastTag;
    SameLater(s, k, t, e, f - k);
    SameTags(s, k, t, e, r - k + e);
    forall m | r - k + e < m < f - k + e
      ensures !TagAt(t, m)
    {
      SameTags(s, k, t, e, m);
    }
    LastTagIs(t, f - k + e, r - k + e);
  }

  /** If there is no tag behind k in s, there is none behind e in t. */
  lemma NoTagMoves(s: string, k: nat, t: string, e: nat, f: nat, q: nat)
    requires Same(s, k, t, e) && k <= f <= |s| && q < e <= |t| && TagAt(t, q)
    requires forall m :: q < m < e ==> !TagAt(t, m)
    requires forall m :: k <= m < f ==> !TagAt(s, m)
    ensures f - k + e <= |t| && LastTag(t, f - k + e) == Some(q)
  {
    hide Same, TagAt, LastTag;
    SameLater(s, k, t, e, f - k);
    forall m | q < m < f - k + e
      ensures !TagAt(t, m)
    {
      if m >= e {
        SameTags(s, k, t, e, m);
      }
    }
    LastTagIs(t, f - k + e, q);
  }

  lemma SameValue(s: string, r: nat, t: string, u: nat)
    requires Same(s, r, t, u) && TagAt(s, r) && TagAt(t, u)
    ensures TagValue(s, r) == TagValue(t, u)
  {
    SameLater(s, r, t, u, 3);
    SameDigits(s, r + 3, t, u + 3);
    var d := DigitsEnd(s, r + 3) - r - 3;
    assert s[r + 3..r + 3 + d] == s[r + 3..][..d] && t[u + 3..u + 3 + d] == t[u + 3..][..d];
  }

  /** The size read from a rewritten name is the one written, unless a later tag hides it. */
  lemma RequotaParsed(s: string, n: nat)
    ensures ParsedSize(Requota(s, n)) == if LaterTag(s) then ParsedSize(s) else Some(n)
  {
    hide Requota, OfNat, Same, TagAt, SkipTag, FlagsAt, LastTag, TagValue;
    RequotaShape(s, n);
    var t, q := Requota(s, n), SizePlace(s, 0);
    var k, e := SkipTag(s, q), q + 3 + |OfNat(n)|;
    var f := FlagsAt(s, 0);
    SameLater(s, k, t, e, 0);
    FlagsBehind(s);
    TagOrEnd(s);
    TagPlain(s, q);
    TagPlain(t, q);
    SameFlags(s, k, t, e);
    if LaterTag(s) {
      LaterValue(s, k, t, e, f, LastTag(s, f).value);
    } else {
      NoTagMoves(s, k, t, e, f, q);
      WrittenValue(t, q, n);
    }
  }

  /** The place of the size is a tag, or it is the end of the name proper. */
  lemma TagOrEnd(s: string)
    ensures var q := SizePlace(s, 0);
      (TagAt(s, q) && q < SkipTag(s, q)) || (SkipTag(s, q) == q && FlagsAt(s, 0) == q)
  {
    FlagsBehind(s);
    NoSeparatorBefore(s);
  }

  lemma LaterValue(s: string, k: nat, t: string, e: nat, f: nat, r: nat)
    requires Same(s, k, t, e) && k <= r < f <= |s| && e <= |t|
    requires LastTag(s, f) == Some(r)
    ensures f - k + e <= |t|
    ensures var u := LastTag(t, f - k + e); u.Some? && TagValue(t, u.value) == TagValue(s, r)
  {
    hide Same, LastTag, TagValue, TagAt;
    var d := r - k;
    LastTagMoves(s, k, t, e, f, r);
    SameLater(s, k, t, e, d);
    SameValue(s, k + d, t, e + d);
  }

  lemma WrittenValue(t: string, q: nat, n: nat)
    requires TagAt(t, q) && var e := q + 3 + |OfNat(n)|; SkipTag(t, q) == e && t[q + 3..e] == OfNat(n)
    ensures TagValue(t, q) == n
  {
    ValueOfNat(n);
  }

  /** Exactly when a written size is read back. */
  lemma RequotaReadBack(s: string, n: nat)
    ensures ParsedSize(Requota(s, n)) == Some(n) <==> !LaterTag(s) || ParsedSize(s) == Some(n)
  {
    RequotaParsed(s, n);
  }

  /** With two tags the first is rewritten, but the last is read. */
  lemma SecondTagHides()
    ensures var s := "a,S=1,S=2"; LaterTag(s) && ParsedSize(Requota(s, 3)) == Some(2)
  {
    hide LastTag, FlagsAt, SizePlace, DigitsEnd, Requota, Value;
    var s := "a,S=1,S=2";
    assert TagAt(s, 5) && TagAt(s, 1);
    LastTagIs(s, 9, 5);
    FlagsAtIs(s, 0, 9);
    SizePlaceIs(s, 0, 1);
    DigitsEndIs(s, 8, 9);
    assert s[8..9] == "2";
    ValueOfTwo();
    RequotaParsed(s, 3);
  }

  lemma ValueOfTwo()
    ensures Value("2") == 2
  {
    assert "2"[..0] == "" && Value("2"[..0]) == 0;
  }
}
