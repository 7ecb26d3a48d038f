/** The quota ledger of a maildir, wmail/maildir/maildirquota.c: the maildirsize file, what it
    must add up to, and the operations that keep it so.  Nothing else touches the maildir while
    an operation runs, and no system call fails. */
module QuotaLedger {
  import opened CStrings
  import opened Decimal
  import opened QuotaFile
  import MaildirNames

  // ----- counting

  datatype File = File(name: string, size: nat)

  datatype Folder = Folder(name: string, newFiles: seq<File>, curFiles: seq<File>)

  predicate FlagsSayDeleted(n: string, j: nat)
    decreases |n| - j
  {
    j < |n| && 'A' <= n[j] <= 'Z' && (n[j] == 'T' || FlagsSayDeleted(n, j + 1))
  }

  predicate CountsFrom(n: string, j: nat)
    decreases |n| - j
  {
    if j + 3 > |n| then true
    else if n[j] == ':' && n[j + 1] == '2' && n[j + 2] == ',' then !FlagsSayDeleted(n, j + 3)
    else CountsFrom(n, j + 1)
  }

  /** maildirquota_countfile on a name without a directory: all but messages marked as deleted. */
  method CountFileName(n: string) returns (counts: bool)
    ensures counts == CountsFrom(n, 0)
  {
    var j: nat := 0;
    while j < |n|
      invariant j <= |n| && CountsFrom(n, j) == CountsFrom(n, 0)
    {
      if j + 3 > |n| || n[j] != ':' || n[j + 1] != '2' || n[j + 2] != ',' {
        j := j + 1;
        continue;
      }
      j := j + 3;
      ghost var flags := j;
      while j < |n| && 'A' <= n[j] <= 'Z'
        invariant flags <= j <= |n| && FlagsSayDeleted(n, j) == FlagsSayDeleted(n, flags)
      {
        if n[j] == 'T' {
          return false;
        }
        j := j + 1;
      }
      return true;
    }
    counts := true;
  }

  const TRASH := ".Trash"

  /** maildirquota_countfolder: all but the trash, at the end of any path. */
  predicate CountsFolder(folder: string) {
    && folder != TRASH && folder != TRASH + "/"
    && forall k :: 0 <= k < |folder| && folder[k] == '/' ==>
         folder[k + 1..] != TRASH && folder[k + 1..] != TRASH + "/"
  }

  /** The entries of the maildir that are folders to be counted. */
  predicate IsCountedFolder(name: string) {
    "." <= name && name != "." && name != ".." && CountsFolder(name)
  }

  function CountFile(f: File): (r: Totals)
    ensures r == NONE || (r.nmessages == 1 && r.nbytes >= 0)
  {
    if "." <= f.name || !CountsFrom(f.name, 0) then NONE
    else
      var s := MaildirNames.ParsedSize(f.name);
      Totals(if s.Some? then s.value else f.size, 1)
  }

  function CountFiles(fs: seq<File>): (r: Totals)
    ensures r.nbytes >= 0 && r.nmessages >= 0
  {
    if fs == [] then NONE else Plus(CountFiles(fs[..|fs| - 1]), CountFile(fs[|fs| - 1]))
  }

  function CountFolder(f: Folder): (r: Totals)
    ensures r.nbytes >= 0 && r.nmessages >= 0
  {
    Plus(CountFiles(f.newFiles), CountFiles(f.curFiles))
  }

  function CountSubs(subs: seq<Folder>): (r: Totals)
    ensures r.nbytes >= 0 && r.nmessages >= 0
  {
    if subs == [] then NONE
    else
      var f := subs[|subs| - 1];
      Plus(CountSubs(subs[..|subs| - 1]), if IsCountedFolder(f.name) then CountFolder(f) else NONE)
  }

  /** What a full recount finds. */
  function Recount(inbox: Folder, subs: seq<Folder>): (r: Totals)
    ensures r.nbytes >= 0 && r.nmessages >= 0
  {
    Plus(CountFolder(inbox), CountSubs(subs))
  }

  /** With the letter T among its flags a message is deleted, and so is not counted. */
  lemma DeletedNotCounted(base: string, flags: string)
    requires ':' !in base && forall c :: c in flags ==> 'A' <= c <= 'Z'
    ensures CountsFrom(base + ":2," + flags, 0) <==> 'T' !in flags
    ensures CountsFrom(base, 0)
  {
    FlagsReached(base, flags, 0);
    FlagsRead(base + ":2,", flags, |base| + 3);
    NoFlags(base, 0);
    assert (base + ":2," + flags)[|base| + 3..] == flags;
  }

  lemma {:induction false} FlagsReached(base: string, flags: string, j: nat)
    requires ':' !in base && j <= |base|
    ensures var n := base + ":2," + flags; CountsFrom(n, j) <==> !FlagsSayDeleted(n, |base| + 3)
    decreases |base| - j
  {
    hide FlagsSayDeleted;
    var n := base + ":2," + flags;
    if j < |base| {
      assert n[j] == base[j];
      FlagsReached(base, flags, j + 1);
    } else {
      assert n[j] == ':' && n[j + 1] == '2' && n[j + 2] == ',';
    }
  }

  lemma {:induction false} FlagsRead(head: string, flags: string, j: nat)
    requires |head| <= j <= |head| + |flags| && forall c :: c in flags ==> 'A' <= c <= 'Z'
    ensures FlagsSayDeleted(head + flags, j) <==> 'T' in (head + flags)[j..]
    decreases |head| + |flags| - j
  {
    var n := head + flags;
    if j < |n| {
      assert n[j] in flags && n[j..] == [n[j]] + n[j + 1..];
      FlagsRead(head, flags, j + 1);
    }
  }

  lemma {:induction false} NoFlags(n: string, j: nat)
    requires ':' !in n && j <= |n|
    ensures CountsFrom(n, j)
    decreases |n| - j
  {
    if j + 3 <= |n| {
      assert n[j] in n;
      NoFlags(n, j + 1);
    }
  }

  /** Every folder but the trash is counted. */
  lemma FolderCounted(name: string)
    requires '/' !in name
    ensures IsCountedFolder(name) <==>
      name != "" && name[0] == '.' && name != "." && name != ".." && name != ".Trash"
  {
    assert name != TRASH + "/" by {
      assert (TRASH + "/")[|TRASH|] == '/';
    }
    assert "." <= name <==> name != "" && name[0] == '.';
    assert forall k :: 0 <= k < |name| ==> name[k] != '/';
  }

  /** docount, which adds to the totals so far. */
  method DoCount(files: seq<File>, soFar: Totals) returns (r: Totals)
    ensures r == Plus(soFar, CountFiles(files))
  {
    hide CountFile, CountFiles, CountsFrom;
    r := soFar;
    CountNoFiles();
    for k := 0 to |files|
      invariant r == Plus(soFar, CountFiles(files[..k]))
    {
      var f := files[k];
      CountFilesMore(files, k);
      CountFileIs(f);
      PlusPlus(soFar, CountFiles(files[..k]), CountFile(f));
      if "." <= f.name {
        continue;
      }
      var counts := CountFileName(f.name);
      if !counts {
        continue;
      }
      var s := MaildirNames.ParseQuotaName(f.name);
      r := Totals(r.nbytes + (if s.Some? then s.value else f.size), r.nmessages + 1);
    }
    assert files[..|files|] == files;
  }

  lemma CountNoFiles()
    ensures CountFiles([]) == NONE
  {}

  lemma CountFilesMore(fs: seq<File>, k: nat)
    requires k < |fs|
    ensures CountFiles(fs[..k + 1]) == Plus(CountFiles(fs[..k]), CountFile(fs[k]))
  {
    hide CountFile;
    assert fs[..k + 1][..k] == fs[..k];
  }

  lemma CountFileIs(f: File)
    ensures "." <= f.name || !CountsFrom(f.name, 0) ==> CountFile(f) == NONE
    ensures !("." <= f.name) && CountsFrom(f.name, 0) ==>
      var s := MaildirNames.ParsedSize(f.name);
      CountFile(f) == Totals(if s.Some? then s.value else f.size, 1)
  {}

  /** countcurnew. */
  method CountCurNew(f: Folder, soFar: Totals) returns (r: Totals)
    ensures r == Plus(soFar, CountFolder(f))
  {
    hide CountFiles, Plus;
    PlusPlus(soFar, CountFiles(f.newFiles), CountFiles(f.curFiles));
    r := DoCount(f.newFiles, soFar);
    r := DoCount(f.curFiles, r);
  }

  lemma PlusPlus(a: Totals, b: Totals, c: Totals)
    ensures Plus(Plus(a, b), c) == Plus(a, Plus(b, c))
  {}

  lemma PlusNone(a: Totals)
    ensures Plus(NONE, a) == a == Plus(a, NONE)
  {}

  lemma CountNoSubs()
    ensures CountSubs([]) == NONE
  {}

  lemma CountOneMore(subs: seq<Folder>, k: nat)
    requires k < |subs|
    ensures CountSubs(subs[..k + 1]) ==
      if IsCountedFolder(subs[k].name) then Plus(CountSubs(subs[..k]), CountFolder(subs[k]))
      else CountSubs(subs[..k])
  {
    hide CountFolder, IsCountedFolder;
    assert subs[..k + 1][..k] == subs[..k];
  }

  /** The recount in docheckquota. */
  method CountAll(inbox: Folder, subs: seq<Folder>) returns (r: Totals)
    ensures r == Recount(inbox, subs)
  {
    hide CountFolder, IsCountedFolder, CountSubs, Plus;
    PlusNone(CountFolder(inbox));
    r := CountCurNew(inbox, NONE);
    CountNoSubs();
    for k := 0 to |subs|
      invariant r == Plus(CountFolder(inbox), CountSubs(subs[..k]))
    {
      CountOneMore(subs, k);
      PlusPlus(CountFolder(inbox), CountSubs(subs[..k]), CountFolder(subs[k]));
      if IsCountedFolder(subs[k].name) {
        r := CountCurNew(subs[k], r);
      }
    }
    assert subs[..|subs|] == subs;
  }

  // ----- how changes of the maildir change the recount

  lemma {:induction false} CountFilesUpdate(fs: seq<File>, i: nat, f: File)
    requires i < |fs|
    ensures Plus(CountFiles(fs[i := f]), CountFile(fs[i])) == Plus(CountFiles(fs), CountFile(f))
    decreases |fs|
  {
    hide CountFile, CountFiles;
    var n := |fs| - 1;
    var gs := fs[i := f];
    CountFilesMore(fs, n);
    CountFilesMore(gs, n);
    assert fs[..n + 1] == fs && gs[..n + 1] == gs;
    if i < n {
      CountFilesUpdate(fs[..n], i, f);
      assert gs[..n] == fs[..n][i := f];
    } else {
      assert gs[..n] == fs[..n];
    }
  }

  lemma {:induction false} CountSubsUpdate(subs: seq<Folder>, i: nat, f: Folder)
    requires i < |subs| && f.name == subs[i].name
    ensures CountSubs(subs[i := f]) ==
      if IsCountedFolder(f.name)
      then Minus(Plus(CountSubs(subs), CountFolder(f)), CountFolder(subs[i]))
      else CountSubs(subs)
    decreases |subs|
  {
    hide CountFolder, IsCountedFolder;
    var n := |subs| - 1;
    if i < n {
      CountSubsUpdate(subs[..n], i, f);
      assert subs[i := f][..n] == subs[..n][i := f];
    } else {
      assert subs[i := f][..n] == subs[..n];
    }
  }

  function Minus(a: Totals, b: Totals): Totals {
    Totals(a.nbytes - b.nbytes, a.nmessages - b.nmessages)
  }

  // ----- limits

  /** A limit of 0 is none. */
  predicate Fits(size: Totals, quota: Totals) {
    && (quota.nbytes == 0 || size.nbytes <= quota.nbytes)
    && (quota.nmessages == 0 || size.nmessages <= quota.nmessages)
  }

  lemma FitsIs(size: Totals, extra: Totals, quota: Option<Totals>)
    ensures quota.Some? ==>
      (Fits(Plus(size, extra), quota.value) <==>
        && (quota.value.nbytes == 0 || size.nbytes + extra.nbytes <= quota.value.nbytes)
        && (quota.value.nmessages == 0 || size.nmessages + extra.nmessages <= quota.value.nmessages))
  {}

  /** C's division, which cuts toward zero. */
  function Div(a: int, b: int): int
    requires b > 0
  {
    if a < 0 then -(-a / b) else a / b
  }

  /** How much of a quota is used, in percent; large numbers are scaled down first. */
  function PercentUsed(size: int, quota: nat): int {
    if quota == 0 then 0
    else if size > quota then 100
    else if quota > 20000000 then Div(Div(size, 1024) * 100, Div(quota, 1024))
    else Div(size * 100, quota)
  }

  /** checkOneQuota. */
  method CheckOneQuota(size: int, quota: int) returns (ok: bool, percentage: int)
    requires quota >= 0
    ensures ok <==> quota == 0 || size <= quota
    ensures percentage == PercentUsed(size, quota)
    ensures size >= 0 ==> 0 <= percentage <= 100
    ensures !ok ==> percentage == 100
  {
    var x := 1;
    if quota == 0 {
      return true, 0;
    }
    if size > quota {
      return false, 100;
    }
    if quota > 20000000 {
      x := 1024;
    }
    percentage := if quota > 0 then Div(Div(size, x) * 100, Div(quota, x)) else 0;
    ok := true;
    if size >= 0 {
      PercentageBounded(size, quota, x);
    }
  }

  lemma PercentAtMost(size: int, quota: nat)
    ensures PercentUsed(size, quota) <= 100
  {
    if size < 0 && 0 < quota {
      hide Div;
      DivNegative(size, 1024);
      DivNegative(quota, 1024);
      DivNegative(size * 100, quota);
      DivNegative(Div(size, 1024) * 100, quota / 1024);
    } else if 0 < quota && size <= quota {
      Percent(size, quota);
      if quota > 20000000 {
        PercentageBounded(size, quota, 1024);
      }
    }
  }

  lemma DivNegative(a: int, b: nat)
    ensures b > 0 && a <= 0 ==> Div(a, b) <= 0
    ensures b > 0 && a >= 0 ==> Div(a, b) == a / b
  {
    if b > 0 && a < 0 {
      DivMonotone(0, -a, b);
      ZeroDiv(b);
    } else if b > 0 && a == 0 {
      ZeroDiv(b);
    }
  }

  lemma ZeroDiv(b: nat)
    requires b > 0
    ensures 0 / b == 0
  {
    assert b * (0 / b) + 0 % b == 0;
  }

  /** Scaling changes the result by one at most. */
  lemma PercentUsedClose(size: nat, quota: nat)
    requires 0 < quota && size <= quota
    ensures quota <= 20000000 ==> PercentUsed(size, quota) == size * 100 / quota
    ensures PercentUsed(size, quota) - 1 <= size * 100 / quota <= PercentUsed(size, quota) + 1
  {
    if quota > 20000000 {
      Percent(size, quota);
      PercentageBounded(size, quota, 1024);
      Scaled(size, quota, size / 1024, quota / 1024, size / 1024 * 100 / (quota / 1024), size * 100 / quota);
    }
  }

  lemma Scaled(size: nat, quota: nat, s: nat, q: nat, p: nat, e: nat)
    requires 1024 * s <= size < 1024 * (s + 1) && 1024 * q <= quota < 1024 * (q + 1)
    requires 200 < q && e <= 100 && p == 100 * s / q && e == 100 * size / quota
    ensures p - 1 <= e <= p + 1
  {
    Quotient(100 * s, q);
    Quotient(100 * size, quota);
    if e >= p + 2 {
      Multiply(quota, p + 2, e);
      TimesScale(q, quota, p + 1);
      assert false;
    }
    if p >= e + 2 {
      Multiply(q, e + 2, p);
      TimesScale(q, quota, e);
      assert false;
    }
  }

  lemma TimesScale(q: nat, quota: nat, m: nat)
    requires 1024 * q <= quota < 1024 * (q + 1)
    ensures quota * (m + 1) >= 1024 * (q * m + q)
    ensures quota * (m + 1) <= 1024 * (q * m + q + m + 1)
    ensures q * (m + 2) == q * m + 2 * q
  {
    var d := quota - 1024 * q;
    assert quota * (m + 1) == 1024 * (q * m + q) + d * (m + 1);
    Multiply(m + 1, d, 1024);
  }

  lemma Quotient(n: nat, d: nat)
    requires d > 0
    ensures d * (n / d) <= n < d * (n / d + 1)
  {
    assert d * (n / d) + n % d == n;
    assert d * (n / d + 1) == d * (n / d) + d;
  }

  lemma PercentageBounded(size: nat, quota: nat, x: nat)
    requires 0 < x <= quota && size <= quota
    ensures quota / x > 0 && 0 <= size / x * 100 / (quota / x) <= 100
  {
    DivMonotone(size, quota, x);
    DivMonotone(x, quota, x);
    assert x / x == 1;
    Percent(size / x, quota / x);
  }

  lemma Percent(s: nat, q: nat)
    requires s <= q && q > 0
    ensures 0 <= s * 100 / q <= 100
  {
    DivMonotone(s * 100, q * 100, q);
    var r := q * 100 / q;
    assert q * r + (q * 100) % q == q * 100;
    assert q * r < q * 101;
    Cancel(q, r, 101);
  }

  lemma DivMonotone(a: nat, b: nat, q: nat)
    requires a <= b && q > 0
    ensures a / q <= b / q
  {
    var u, v := a / q, b / q;
    assert q * u + a % q == a && q * v + b % q == b;
    assert q * u < q * (v + 1);
    Cancel(q, u, v + 1);
  }

  lemma Cancel(q: nat, u: nat, w: nat)
    requires q * u < q * w
    ensures u < w
  {
    Multiply(q, w, u);
  }

  lemma Multiply(q: nat, w: nat, u: nat)
    ensures w <= u ==> q * w <= q * u
  {}

  function Larger(a: int, b: int): int {
    if a < b then b else a
  }

  /** checkQuota. */
  method CheckQuota(size: Totals, quota: Totals) returns (ok: bool, percentage: int)
    requires quota.nbytes >= 0 && quota.nmessages >= 0
    ensures ok <==> Fits(size, quota)
    ensures ok <==>
      && (quota.nbytes == 0 || size.nbytes <= quota.nbytes)
      && (quota.nmessages == 0 || size.nmessages <= quota.nmessages)
    ensures percentage == Larger(PercentUsed(size.nbytes, quota.nbytes), PercentUsed(size.nmessages, quota.nmessages))
    ensures size.nbytes >= 0 && size.nmessages >= 0 ==> 0 <= percentage <= 100
    ensures !ok ==> percentage == 100
  {
    hide PercentUsed;
    PercentAtMost(size.nbytes, quota.nbytes);
    PercentAtMost(size.nmessages, quota.nmessages);
    var bOk, b := CheckOneQuota(size.nbytes, quota.nbytes);
    if !bOk {
      return false, 100;
    }
    var nOk, n := CheckOneQuota(size.nmessages, quota.nmessages);
    if !nOk {
      return false, 100;
    }
    return true, if b < n then n else b;
  }

  // ----- the maildir, and struct maildirsize

  /** The part of struct maildirsize that lives longer than a call. */
  class Info {
    var open: bool
    var quota: Totals
    var size: Totals
    var nlines: nat
    var recalculationNeeded: bool
    var mtime: int

    constructor (open: bool, reading: Reading, mtime: int)
      ensures this.open == open && this.mtime == mtime && quota == reading.quota && size == reading.size
      ensures nlines == reading.nlines && recalculationNeeded == reading.recalculationNeeded
    {
      this.open := open;
      this.quota, this.size, this.nlines := reading.quota, reading.size, reading.nlines;
      this.recalculationNeeded := reading.recalculationNeeded;
      this.mtime := mtime;
    }
  }

  predicate IsQuota(q: Totals) {
    q.nbytes >= 0 && q.nmessages >= 0 && Small(q)
  }

  /** What a program does to the maildir, at some time; a delivery may name a quota. */
  datatype Operation =
    | Delivery(place: nat, file: File, newquota: Option<string>, now: int)
    | FlagChange(place: nat, index: nat, newname: string, now: int)
    | Recalculation(now: int)

  function Named(newquota: Option<string>): Option<Totals> {
    if newquota.Some? && ParseQuota(newquota.value) != NONE then Some(ParseQuota(newquota.value)) else None
  }

  function NamedBy(op: Operation): Option<Totals> {
    if op.Delivery? then Named(op.newquota) else None
  }

  /** The maildir without the text of its ledger: what is in it, and the quota if there is a
      ledger.  Place 0 is the inbox, place k + 1 the folder subs[k]. */
  datatype State = State(inbox: Folder, subs: seq<Folder>, limit: Option<Totals>) {
    predicate Counted(place: nat)
      requires place <= |subs|
    {
      place == 0 || IsCountedFolder(subs[place - 1].name)
    }

    function FolderAt(place: nat): Folder
      requires place <= |subs|
    {
      if place == 0 then inbox else subs[place - 1]
    }

    function Put(place: nat, f: Folder): State
      requires place <= |subs|
    {
      if place == 0 then this.(inbox := f) else this.(subs := subs[place - 1 := f])
    }

    function Counts(): Totals {
      Recount(inbox, subs)
    }

    /** The quota an addition is held to: a new one if it names a limit, else the ledger's. */
    function Effective(newquota: Option<string>): Option<Totals> {
      if Named(newquota).Some? then Named(newquota) else limit
    }

    /** A quota is in force and the change, which adds something, would break it. */
    predicate Refuses(place: nat, delta: Totals, newquota: Option<string>)
      requires place <= |subs|
    {
      && Counted(place) && delta.nmessages > 0 && Effective(newquota).Some?
      && !Fits(Plus(Counts(), delta), Effective(newquota).value)
    }

    /** A folder's contents change unless the quota in force refuses it; a quota that is named
        is in force from then on, even then. */
    function Changed(place: nat, g: Folder, delta: Totals, newquota: Option<string>): State
      requires place <= |subs|
    {
      var s := if Counted(place) then this.(limit := Effective(newquota)) else this;
      if Refuses(place, delta, newquota) then s else s.Put(place, g)
    }

    predicate Within() {
      limit.Some? ==> Fits(Counts(), limit.value)
    }

    /** The place is there, a named quota can be stored, a delivered message's name tells its true
        size or none, and the message whose flags change is there and keeps its size. */
    predicate Possible(op: Operation) {
      match op
      case Delivery(place, f, newquota, _) =>
        && place <= |subs| && CountFile(f) == Totals(f.size, 1)
        && (newquota.Some? ==> IsQuota(ParseQuota(newquota.value)))
      case FlagChange(place, i, newname, _) =>
        && place <= |subs| && i < |FolderAt(place).curFiles|
        && KeepsSize(FolderAt(place).curFiles[i], newname)
      case Recalculation(_) => true
    }

    /** What an operation is to do; what is not possible is not done. */
    function Next(op: Operation): State {
      if !Possible(op) then this
      else
        match op
        case Delivery(place, f, newquota, _) =>
          Changed(place, WithFile(FolderAt(place), f), Totals(f.size, 1), newquota)
        case FlagChange(place, i, newname, _) =>
          var g := FolderAt(place);
          Changed(place, WithName(g, i, newname), Delta(g.curFiles[i], newname), None)
        case Recalculation(_) => this
    }

    function Run(ops: seq<Operation>): State {
      if ops == [] then this else Run(ops[..|ops| - 1]).Next(ops[|ops| - 1])
    }

    /** A counted delivery finds a maildir that keeps to the quota it names, or else to the old one. */
    predicate Admits(op: Operation) {
      op.Delivery? && Possible(op) && Counted(op.place) && Effective(op.newquota).Some? ==>
        Fits(Counts(), Effective(op.newquota).value)
    }

    /** The totals fit in 64 bits. */
    predicate InRange() {
      Small(Counts())
    }
  }

  function WithFile(g: Folder, f: File): Folder {
    g.(newFiles := g.newFiles + [f])
  }

  function WithName(g: Folder, i: nat, newname: string): Folder
    requires i < |g.curFiles|
  {
    g.(curFiles := g.curFiles[i := g.curFiles[i].(name := newname)])
  }

  /** By how much a new name changes what a file counts for. */
  function Delta(f: File, newname: string): Totals {
    Minus(CountFile(f.(name := newname)), CountFile(f))
  }

  /** With the new name the file counts for the same size, if it counts before and after. */
  predicate KeepsSize(f: File, newname: string) {
    Delta(f, newname).nmessages == 0 ==> Delta(f, newname) == NONE
  }

  class Maildir {
    var inbox: Folder
    var subs: seq<Folder>
    var maildirsize: Option<string>
    var mtime: int

    /** What the file was written with: its quota and its records. */
    ghost var quota: Totals
    ghost var deltas: seq<Totals>

    /** The text of the file is what its quota and records look like. */
    ghost predicate Ledger()
      reads this
    {
      maildirsize.Some? ==> maildirsize.value == Written(quota, deltas) && IsQuota(quota)
    }

    /** If there is a ledger, it adds up to what a recount would find. */
    ghost predicate Valid()
      reads this
    {
      Ledger() && (maildirsize.Some? ==> Total(deltas) == Recount(inbox, subs))
    }

    /** The recorded totals keep to the quota. */
    ghost predicate Within()
      reads this
    {
      maildirsize.Some? ==> Fits(Total(deltas), quota)
    }

    /** The file is at most a byte short of LIMIT, and one record. */
    ghost predicate Short()
      reads this
    {
      maildirsize.Some? ==> |maildirsize.value| <= LIMIT - 1 + 42
    }

    ghost function Contents(): State
      reads this
    {
      State(inbox, subs, if maildirsize.Some? then Some(quota) else None)
    }

    /** What an opened maildirsize knows is true. */
    ghost predicate Knows(info: Info)
      reads this, info
    {
      info.open ==>
        && IsQuota(info.quota)
        && (!info.recalculationNeeded ==>
              && maildirsize.Some? && Compact()
              && info.quota == quota && info.size == Total(deltas) && info.nlines == |deltas|)
    }

    /** A file is small if it is below LIMIT, or made by a recount and nothing since. */
    ghost predicate Compact()
      reads this
    {
      maildirsize.Some? ==> |maildirsize.value| < LIMIT || |deltas| == 1
    }

    constructor (inbox: Folder, subs: seq<Folder>)
      ensures Valid() && maildirsize.None? && this.inbox == inbox && this.subs == subs
    {
      this.inbox, this.subs, this.maildirsize, this.mtime := inbox, subs, None, 0;
      this.quota, this.deltas := NONE, [];
    }

    /** maildir_openquotafile_init; the result says whether it succeeded. */
    method OpenQuota(newquota: Option<string>) returns (info: Info, ok: bool)
      requires Valid()
      requires newquota.Some? ==> IsQuota(ParseQuota(newquota.value))
      ensures fresh(info) && Knows(info)
      ensures ok <==> newquota.None? || ParseQuota(newquota.value) != NONE
      ensures newquota.None? ==> (info.open <==> maildirsize.Some?)
      ensures newquota.None? && info.open ==> info.quota == quota
      ensures newquota.Some? ==> (info.open <==> ok)
      ensures newquota.Some? && ok ==> info.quota == ParseQuota(newquota.value) && info.recalculationNeeded
    {
      hide Written, Total, Recount, ParseQuota;
      ok := true;
      if newquota.Some? {
        var q := ParseQuotaStr(newquota.value);
        ok := q.nbytes != 0 || q.nmessages != 0;
        info := new Info(ok, Reading(q, NONE, 0, true), mtime);
      } else if maildirsize.Some? {
        WrittenPlain(quota, deltas);
        HeaderLength(quota);
        ReadWritten(quota, deltas);
        var reading := OpenQuotaFile(maildirsize.value);
        info := new Info(true, reading, mtime);
      } else {
        info := new Info(false, Reading(NONE, NONE, 0, false), mtime);
      }
    }

    /** docheckquota at the time `now`; true stands for its result 0. */
    method CheckQuotaFor(info: Info, extra: Totals, now: int) returns (ok: bool)
      requires Valid() && Knows(info)
      modifies this`maildirsize, this`mtime, this`quota, this`deltas, info
      ensures Valid() && Knows(info) && info.open == old(info.open)
      ensures ok <==> !info.open || Fits(Plus(Recount(inbox, subs), extra), info.quota)
      ensures info.open ==> maildirsize.Some? && info.quota == old(info.quota) == quota && Compact()
      ensures info.open && old(info.recalculationNeeded) ==> deltas == [Recount(inbox, subs)]
      ensures !info.open ==> maildirsize == old(maildirsize) && quota == old(quota) && deltas == old(deltas)
    {
      hide Written, Total, Recount, Small, Fits, PercentUsed, Larger;
      if !info.open {
        return true;
      }
      var fits, percentage := CheckQuota(Plus(info.size, extra), info.quota);
      if !info.recalculationNeeded {
        if fits {
          return true;
        }
        if info.nlines == 1 && now < info.mtime + 15 * 60 {
          return false;
        }
      }
      WriteRecount(info, now);
      ok, percentage := CheckQuota(Plus(info.size, extra), info.quota);
    }

    /** The file is written anew, with the recount as its only record. */
    method WriteRecount(info: Info, now: int)
      requires IsQuota(info.quota)
      modifies this`maildirsize, this`mtime, this`quota, this`deltas, info
      ensures Valid() && Knows(info) && Compact() && maildirsize.Some? && deltas == [Recount(inbox, subs)]
      ensures info.open == old(info.open) && info.quota == old(info.quota) == quota && info.size == Recount(inbox, subs)
    {
      hide Written, Total, Recount, Small, IsQuota, NewHeader, Record, Plus;
      var size := CountAll(inbox, subs);
      var text := DoAddQuota(info.quota, size, true);
      WrittenAnew(info.quota, size);
      maildirsize, mtime := Some(text), now;
      quota, deltas := info.quota, [size];
      info.recalculationNeeded := false;
      info.size := size;
      info.nlines := 1;
    }

    /** maildir_quota_set. */
    method SetQuota(newquota: string, now: int)
      requires Valid() && IsQuota(ParseQuota(newquota))
      modifies this`maildirsize, this`mtime, this`quota, this`deltas
      ensures Valid()
      ensures ParseQuota(newquota) != NONE ==> maildirsize.Some? && quota == ParseQuota(newquota) && Compact()
      ensures ParseQuota(newquota) == NONE ==> maildirsize == old(maildirsize)
    {
      hide Written, Total, Recount, ParseQuota;
      var info, ok := OpenQuota(Some(newquota));
      if ok {
        ok := CheckQuotaFor(info, NONE, now);
      }
    }

    /** maildir_quota_add_start; true stands for its result 0.  A recount that is disturbed, and
        therefore tried again, does not happen here. */
    method AddStart(msg: Totals, newquota: Option<string>, now: int) returns (info: Info, ok: bool)
      requires Valid()
      requires newquota.Some? ==> IsQuota(ParseQuota(newquota.value))
      modifies this`maildirsize, this`mtime, this`quota, this`deltas
      ensures Valid() && fresh(info) && Knows(info)
      ensures ok <==>
        old(Contents().Effective(newquota)).None?
        || Fits(Plus(Recount(inbox, subs), msg), old(Contents().Effective(newquota)).value)
      ensures info.open <==> ok && maildirsize.Some?
      ensures maildirsize.Some? <==> old(Contents().Effective(newquota)).Some?
      ensures maildirsize.Some? ==> quota == old(Contents().Effective(newquota)).value && Compact()
      ensures info.open ==> info.quota == quota
      ensures maildirsize.Some? ==>
        (ok <==>
          && (quota.nbytes == 0 || Recount(inbox, subs).nbytes + msg.nbytes <= quota.nbytes)
          && (quota.nmessages == 0 || Recount(inbox, subs).nmessages + msg.nmessages <= quota.nmessages))
    {
      hide Written, Total, Recount, ParseQuota, Fits, Small, Plus;
      FitsIs(Recount(inbox, subs), msg, Contents().Effective(newquota));
      info, ok := OpenQuota(None);
      if newquota.Some? {
        var mq := ParseQuotaStr(newquota.value);
        if (mq.nbytes > 0 || mq.nmessages > 0) && (!info.open || info.quota != mq) {
          if !info.open {
            SetQuota(newquota.value, now);
            info, ok := OpenQuota(None);
          } else {
            info.quota := mq;
            info.recalculationNeeded := true;
          }
        }
      }
      if !info.open {
        return info, true;
      }
      ok := CheckQuotaFor(info, msg, now);
      if !ok {
        info.open := false;
      }
    }

    /** maildir_addquota and maildir_closequotafile. */
    method AddEnd(info: Info, msg: Totals)
      requires Ledger() && (info.open ==> maildirsize.Some? && info.quota == quota)
      modifies this`maildirsize, this`deltas, info`open
      ensures Ledger() && maildirsize.Some? == old(maildirsize.Some?) && !info.open
      ensures old(info.open) ==> Total(deltas) == Plus(old(Total(deltas)), msg)
      ensures old(info.open) && old(Compact()) && Small(msg) && Small(old(Total(deltas))) ==> Short()
      ensures !old(info.open) ==> maildirsize == old(maildirsize) && deltas == old(deltas)
    {
      hide Written, Total, Record;
      if info.open {
        var text := DoAddQuota(info.quota, msg, false);
        WrittenMore(quota, deltas, msg);
        assert "" + Record(msg) == Record(msg);
        if Compact() && Small(msg) && Small(Total(deltas)) {
          StillShort(quota, deltas, msg);
        }
        maildirsize := Some(maildirsize.value + text);
        deltas := deltas + [msg];
      }
      info.open := false;
    }

    /** maildir_quota_deleted. */
    method QuotaDeleted(msg: Totals, now: int)
      requires Valid()
      modifies this`maildirsize, this`mtime, this`quota, this`deltas
      ensures Ledger() && maildirsize.Some? == old(maildirsize.Some?) && quota == old(quota)
      ensures maildirsize.Some? ==> Total(deltas) == Plus(Recount(inbox, subs), msg)
      ensures maildirsize.Some? && Small(msg) && Contents().InRange() ==> Short()
    {
      hide Written, Total, Recount, Fits, Small;
      var info, ok := OpenQuota(None);
      ok := CheckQuotaFor(info, msg, now);
      AddEnd(info, msg);
    }

    /** maildir_quota_recalculate. */
    method Recalculate(now: int)
      requires Valid()
      modifies this`maildirsize, this`mtime, this`quota, this`deltas
      ensures Valid() && maildirsize.Some? == old(maildirsize.Some?) && quota == old(quota)
      ensures maildirsize.Some? ==> deltas == [Recount(inbox, subs)]
    {
      hide Written, Total, Recount, Fits, Small;
      var info, ok := OpenQuota(None);
      info.recalculationNeeded := true;
      ok := CheckQuotaFor(info, NONE, now);
    }

    lemma CompactIsShort()
      requires Valid() && (maildirsize.Some? ==> Compact()) && Contents().InRange()
      ensures Short()
    {
      hide Small, Written, Total, Recount;
      if maildirsize.Some? && |deltas| == 1 {
        assert deltas == [deltas[0]];
        WrittenAnew(quota, deltas[0]);
        CompactLength(quota, deltas[0]);
      }
    }

    // ----- whole operations

    /** The file system's part: a folder's contents change. */
    method Put(place: nat, f: Folder, ghost delta: Totals)
      requires place <= |subs| && f.name == Contents().FolderAt(place).name
      requires CountFolder(f) == Plus(CountFolder(Contents().FolderAt(place)), delta)
      modifies this`inbox, this`subs
      ensures Contents() == old(Contents()).Put(place, f)
      ensures Contents().Counts() ==
        if old(Contents()).Counted(place) then Plus(old(Contents()).Counts(), delta) else old(Contents()).Counts()
    {
      hide CountFolder, IsCountedFolder, Recount;
      PutCounts(Contents(), place, f, delta);
      if place == 0 {
        inbox := f;
      } else {
        subs := subs[place - 1 := f];
      }
    }

    /** The ledger has the quota that is named, if that has a limit, and else the old one. */
    ghost predicate InForce(newquota: Option<string>, was: bool, old': Totals)
      reads this
    {
      if newquota.Some? && ParseQuota(newquota.value) != NONE
      then maildirsize.Some? && quota == ParseQuota(newquota.value)
      else maildirsize.Some? == was && (was ==> quota == old')
    }

    /** What delivering and undeleting share: ask, change the folder, record the change. */
    method Add(place: nat, g: Folder, delta: Totals, newquota: Option<string>, now: int) returns (ok: bool)
      requires Valid() && place <= |subs| && g.name == Contents().FolderAt(place).name
      requires Contents().Counted(place) && delta.nmessages > 0
      requires CountFolder(g) == Plus(CountFolder(Contents().FolderAt(place)), delta)
      requires newquota.Some? ==> IsQuota(ParseQuota(newquota.value))
      modifies this
      ensures Valid() && Contents() == old(Contents()).Changed(place, g, delta, newquota)
      ensures ok <==> !old(Contents()).Refuses(place, delta, newquota)
      ensures Contents().Counts() == if ok then Plus(old(Contents()).Counts(), delta) else old(Contents()).Counts()
      ensures maildirsize.Some? ==>
        (ok <==>
          && (quota.nbytes == 0 || old(Recount(inbox, subs)).nbytes + delta.nbytes <= quota.nbytes)
          && (quota.nmessages == 0 || old(Recount(inbox, subs)).nmessages + delta.nmessages <= quota.nmessages))
      ensures maildirsize.None? ==> ok
      ensures InForce(newquota, old(maildirsize.Some?), old(quota))
      ensures old(Short() && Contents().InRange()) && Contents().InRange() ==> Short()
    {
      hide Written, Total, Recount, ParseQuota, Fits, Small, CountFolder, IsCountedFolder;
      var info;
      info, ok := AddStart(delta, newquota, now);
      if Contents().InRange() {
        CompactIsShort();
      }
      if !ok {
        return false;
      }
      SmallDelta(Contents().Counts(), Plus(Contents().Counts(), delta), delta);
      Put(place, g, delta);
      AddEnd(info, delta);
    }

    /** Delivery: ask, put the message into "new", record it.  Its name tells its true size, or none. */
    method Deliver(place: nat, f: File, newquota: Option<string>, now: int) returns (ok: bool)
      requires Valid() && Contents().Possible(Delivery(place, f, newquota, now))
      modifies this
      ensures Valid() && Contents() == old(Contents()).Next(Delivery(place, f, newquota, now))
      ensures ok <==> !old(Contents()).Refuses(place, Totals(f.size, 1), newquota)
      ensures Contents().Counts() ==
        if ok && old(Contents()).Counted(place) then Plus(old(Contents()).Counts(), Totals(f.size, 1))
        else old(Contents()).Counts()
      ensures ok && place == 0 ==> inbox.newFiles == old(inbox.newFiles) + [f]
      ensures ok && place > 0 ==>
        |subs| == old(|subs|) && subs[place - 1].newFiles == old(subs[place - 1].newFiles) + [f]
      ensures !ok ==> inbox == old(inbox) && subs == old(subs)
      ensures ok || (maildirsize.Some? && (place == 0 || old(IsCountedFolder(subs[place - 1].name))))
      ensures (place == 0 || old(IsCountedFolder(subs[place - 1].name))) && maildirsize.Some? ==>
        (ok <==>
          && (quota.nbytes == 0 || old(Recount(inbox, subs)).nbytes + f.size <= quota.nbytes)
          && (quota.nmessages == 0 || old(Recount(inbox, subs)).nmessages + 1 <= quota.nmessages))
      ensures place == 0 || old(IsCountedFolder(subs[place - 1].name)) ==>
        InForce(newquota, old(maildirsize.Some?), old(quota))
      ensures old(Short() && Contents().InRange()) && Contents().InRange() ==> Short()
    {
      hide Written, Total, Recount, ParseQuota, Fits, Small, CountFile, CountFolder, IsCountedFolder;
      var g := if place == 0 then inbox else subs[place - 1];
      var g' := g.(newFiles := g.newFiles + [f]);
      var msg := Totals(f.size, 1);
      CountWithFile(g, f);
      if place != 0 && !IsCountedFolder(subs[place - 1].name) {
        Put(place, g', msg);
        return true;
      }
      ok := Add(place, g', msg, newquota, now);
    }

    /** A change of flags in "cur": a message is marked as deleted, or no longer is, or neither. */
    method Rename(place: nat, i: nat, newname: string, now: int) returns (ok: bool)
      requires Valid() && Contents().Possible(FlagChange(place, i, newname, now))
      modifies this
      ensures Valid() && Contents() == old(Contents()).Next(FlagChange(place, i, newname, now))
      ensures ok <==> !old(Contents()).Refuses(place, Delta(old(Contents()).FolderAt(place).curFiles[i], newname), None)
      ensures old(Short() && Contents().InRange()) && Contents().InRange() ==> Short()
    {
      hide Written, Total, Recount, ParseQuota, Fits, Small, IsCountedFolder, CountFiles;
      var g := if place == 0 then inbox else subs[place - 1];
      var f := g.curFiles[i];
      var f' := f.(name := newname);
      var g' := g.(curFiles := g.curFiles[i := f']);
      var delta := Minus(CountFile(f'), CountFile(f));
      CountFilesUpdate(g.curFiles, i, f');
      hide CountFile, CountFolder;
      assert CountFolder(g') == Plus(CountFolder(g), delta);
      if (place != 0 && !IsCountedFolder(subs[place - 1].name)) || delta.nmessages == 0 {
        Put(place, g', delta);
        return true;
      }
      SmallDelta(Contents().Counts(), Plus(Contents().Counts(), delta), delta);
      if delta.nmessages < 0 {
        QuotaDeleted(delta, now);
        Put(place, g', delta);
        return true;
      }
      ok := Add(place, g', delta, None, now);
    }

    method PerformOne(op: Operation)
      requires Valid() && Contents().Possible(op)
      modifies this
      ensures Valid() && Contents() == old(Contents()).Next(op)
      ensures old(Short() && Contents().InRange()) && Contents().InRange() ==> Short()
    {
      hide Written, Total, Recount, Fits, CountFile, Small;
      match op
      case Delivery(place, f, newquota, now) =>
        var ok := Deliver(place, f, newquota, now);
      case FlagChange(place, i, newname, now) =>
        var ok := Rename(place, i, newname, now);
      case Recalculation(now) =>
        Recalculate(now);
        if Contents().InRange() {
          CompactIsShort();
        }
    }

    /** Any run of operations, one after the other, does what it is to do and leaves a ledger that
        adds up to a recount; so the recorded totals keep to the quota if and only if what is in
        the maildir does.  The file stays short while the totals fit in 64 bits. */
    method Perform(ops: seq<Operation>)
      requires Valid()
      modifies this
      ensures Valid() && Contents() == old(Contents()).Run(ops)
      ensures Within() <==> old(Contents()).Run(ops).Within()
      ensures old(Contents()).Run(ops).Within() <==>
        (maildirsize.Some? ==>
          && (quota.nbytes == 0 || Recount(inbox, subs).nbytes <= quota.nbytes)
          && (quota.nmessages == 0 || Recount(inbox, subs).nmessages <= quota.nmessages))
      ensures old(Short()) && AlwaysInRange(old(Contents()), ops) ==>
        Short() && (maildirsize.Some? ==> |maildirsize.value| <= 5161)
    {
      hide Valid, Within, Short, State.Possible, State.Next, State.InRange, Ledger;
      ghost var s := Contents();
      ghost var short := Short() && AlwaysInRange(s, ops);
      for k := 0 to |ops|
        invariant Valid() && Contents() == s.Run(ops[..k])
        invariant short ==> Short()
      {
        PrefixInRange(s, ops, k);
        RunMore(s, ops, k);
        SamePossible(Contents(), State(inbox, subs, None), ops[k]);
        if State(inbox, subs, None).Possible(ops[k]) {
          PerformOne(ops[k]);
        }
      }
      assert ops[..|ops|] == ops;
      WithinIs();
      ShortIs();
    }

    lemma ShortIs()
      ensures Short() ==> (maildirsize.Some? ==> |maildirsize.value| <= 5161)
    {}

    lemma WithinIs()
      requires Valid()
      ensures Within() <==> Contents().Within()
      ensures Within() <==>
        (maildirsize.Some? ==>
          && (quota.nbytes == 0 || Recount(inbox, subs).nbytes <= quota.nbytes)
          && (quota.nmessages == 0 || Recount(inbox, subs).nmessages <= quota.nmessages))
    {}
  }

  lemma CountWithFile(g: Folder, f: File)
    ensures CountFolder(WithFile(g, f)) == Plus(CountFolder(g), CountFile(f))
  {
    hide CountFile;
    assert (g.newFiles + [f])[..|g.newFiles|] == g.newFiles;
  }

  /** The difference of two totals in range is in range. */
  lemma SmallDelta(before: Totals, after: Totals, delta: Totals)
    requires after == Plus(before, delta) && before.nbytes >= 0 && before.nmessages >= 0
    ensures Small(before) && Small(after) && after.nbytes >= 0 && after.nmessages >= 0 ==> Small(delta)
  {
    hide Pow10;
  }

  // ----- runs

  lemma SamePossible(s: State, t: State, op: Operation)
    requires s.inbox == t.inbox && s.subs == t.subs
    ensures s.Possible(op) == t.Possible(op)
  {
    hide IsQuota, KeepsSize, CountFile, ParseQuota;
  }

  /** The totals fit in 64 bits before and after every operation. */
  ghost predicate AlwaysInRange(s: State, ops: seq<Operation>) {
    forall k :: 0 <= k <= |ops| ==> s.Run(ops[..k]).InRange()
  }

  lemma PrefixInRange(s: State, ops: seq<Operation>, k: nat)
    requires k < |ops|
    ensures AlwaysInRange(s, ops) ==> s.Run(ops[..k]).InRange() && s.Run(ops[..k + 1]).InRange()
  {
    hide State.Run;
  }

  lemma RunMore(s: State, ops: seq<Operation>, k: nat)
    requires k < |ops|
    ensures s.Run(ops[..k + 1]) == s.Run(ops[..k]).Next(ops[k])
    ensures !s.Run(ops[..k]).Possible(ops[k]) ==> s.Run(ops[..k + 1]) == s.Run(ops[..k])
  {
    hide State.Possible;
    assert ops[..k + 1][..k] == ops[..k];
  }

  lemma PutCounts(s: State, place: nat, g: Folder, delta: Totals)
    requires place <= |s.subs| && g.name == s.FolderAt(place).name
    requires CountFolder(g) == Plus(CountFolder(s.FolderAt(place)), delta)
    ensures s.Put(place, g).Counts() == if s.Counted(place) then Plus(s.Counts(), delta) else s.Counts()
  {
    hide CountFolder, IsCountedFolder, CountSubs;
    if place > 0 {
      CountSubsUpdate(s.subs, place - 1, g);
    }
  }

  /** After a change that adds something, the quota in force is kept if and only if the maildir
      kept to it before. */
  lemma ChangedWithin(s: State, place: nat, g: Folder, delta: Totals, newquota: Option<string>)
    requires place <= |s.subs| && g.name == s.FolderAt(place).name
    requires CountFolder(g) == Plus(CountFolder(s.FolderAt(place)), delta)
    requires s.Counted(place) && delta.nmessages > 0 && delta.nbytes >= 0
    ensures s.Changed(place, g, delta, newquota).Within() <==>
      (s.Effective(newquota).Some? ==> Fits(s.Counts(), s.Effective(newquota).value))
  {
    hide CountFolder, IsCountedFolder, Recount, ParseQuota;
    PutCounts(s, place, g, delta);
  }

  lemma CountWithName(g: Folder, i: nat, newname: string)
    requires i < |g.curFiles|
    ensures CountFolder(WithName(g, i, newname)) == Plus(CountFolder(g), Delta(g.curFiles[i], newname))
  {
    hide CountFile, CountFiles;
    CountFilesUpdate(g.curFiles, i, g.curFiles[i].(name := newname));
    var was, now := CountFiles(g.curFiles), CountFiles(WithName(g, i, newname).curFiles);
    var newFiles := CountFiles(g.newFiles);
    assert now == Plus(was, Delta(g.curFiles[i], newname));
    hide Delta;
  }

  /** A delivery to a counted folder ends within the quota in force if and only if the maildir
      kept to that quota when it began; everything else keeps to it. */
  lemma NextWithin(s: State, op: Operation)
    ensures s.Within() ==> (s.Next(op).Within() <==> s.Admits(op))
    ensures op.Delivery? && s.Possible(op) && s.Counted(op.place) ==> (s.Next(op).Within() <==> s.Admits(op))
  {
    hide CountFile, CountFolder, IsCountedFolder, Recount, ParseQuota, Fits;
    if s.Possible(op) {
      match op
      case Delivery(place, f, newquota, _) =>
        var g := s.FolderAt(place);
        CountWithFile(g, f);
        if s.Counted(place) {
          ChangedWithin(s, place, WithFile(g, f), Totals(f.size, 1), newquota);
        } else {
          PutCounts(s, place, WithFile(g, f), Totals(f.size, 1));
        }
      case FlagChange(place, i, newname, _) =>
        var g := s.FolderAt(place);
        var delta := Delta(g.curFiles[i], newname);
        CountWithName(g, i, newname);
        PutCounts(s, place, WithName(g, i, newname), delta);
        FitsLess(s, delta);
      case Recalculation(_) =>
    }
  }

  /** Taking messages away never breaks a limit. */
  lemma FitsLess(s: State, delta: Totals)
    ensures s.Within() && delta.nbytes <= 0 && delta.nmessages <= 0 && s.limit.Some? ==>
      Fits(Plus(s.Counts(), delta), s.limit.value)
  {
    hide Recount;
  }

  /** A run keeps to the quotas in force from beginning to end if and only if it begins so and no
      counted delivery names a quota that the maildir already breaks. */
  lemma {:induction false} WithinThroughout(s: State, ops: seq<Operation>)
    ensures AlwaysWithin(s, ops) <==> s.Within() && AlwaysAdmits(s, ops)
    decreases |ops|
  {
    hide State.Next, State.Within, State.Admits, State.Possible, State.Counted;
    if ops == [] {
      assert ops[..0] == [];
    } else {
      var n := |ops| - 1;
      WithinThroughout(s, ops[..n]);
      NextWithin(s.Run(ops[..n]), ops[n]);
      assert ops[..n + 1] == ops;
      assert forall k :: 0 <= k <= n ==> ops[..n][..k] == ops[..k];
      assert AlwaysWithin(s, ops) <==> AlwaysWithin(s, ops[..n]) && s.Run(ops[..n + 1]).Within();
      assert AlwaysAdmits(s, ops) <==> AlwaysAdmits(s, ops[..n]) && s.Run(ops[..n]).Admits(ops[n]);
    }
  }

  ghost predicate AlwaysWithin(s: State, ops: seq<Operation>) {
    forall k :: 0 <= k <= |ops| ==> s.Run(ops[..k]).Within()
  }

  ghost predicate AlwaysAdmits(s: State, ops: seq<Operation>) {
    forall k :: 0 <= k < |ops| ==> s.Run(ops[..k]).Admits(ops[k])
  }

  /** Whatever fits q fits p. */
  predicate NotLower(q: Totals, p: Totals) {
    && (p.nbytes == 0 || (q.nbytes != 0 && q.nbytes <= p.nbytes))
    && (p.nmessages == 0 || (q.nmessages != 0 && q.nmessages <= p.nmessages))
  }

  /** No quota named is lower than the first one, or than one named before. */
  ghost predicate Rising(first: Totals, ops: seq<Operation>) {
    && (forall k :: 0 <= k < |ops| && NamedBy(ops[k]).Some? ==> NotLower(first, NamedBy(ops[k]).value))
    && (forall j, k :: 0 <= j < k < |ops| && NamedBy(ops[j]).Some? && NamedBy(ops[k]).Some? ==>
          NotLower(NamedBy(ops[j]).value, NamedBy(ops[k]).value))
  }

  ghost predicate NamedIn(limit: Option<Totals>, first: Totals, ops: seq<Operation>) {
    limit == Some(first) || (limit.Some? && exists j :: 0 <= j < |ops| && NamedBy(ops[j]) == limit)
  }

  /** So a run that never names a lower quota keeps to its quotas. */
  lemma {:induction false} RisingWithin(s: State, ops: seq<Operation>)
    requires s.limit.Some? && s.Within() && Rising(s.limit.value, ops)
    ensures AlwaysWithin(s, ops) && NamedIn(s.Run(ops).limit, s.limit.value, ops)
    decreases |ops|
  {
    hide State.Next, State.Within, State.Admits, State.Possible, State.Counted, NamedBy, NotLower;
    if ops == [] {
      assert ops[..0] == [];
    } else {
      var n := |ops| - 1;
      RisingWithin(s, ops[..n]);
      var t := s.Run(ops[..n]);
      assert ops[..n][..n] == ops[..n];
      NamedIsLower(t.limit, s.limit.value, ops);
      RisingStep(t, ops[n]);
      NextWithin(t, ops[n]);
      RunMore(s, ops, n);
      assert ops[..n + 1] == ops;
      assert forall k :: 0 <= k <= n ==> ops[..n][..k] == ops[..k];
      NamedMore(t.limit, s.Run(ops).limit, s.limit.value, ops);
    }
  }

  lemma NamedMore(limit: Option<Totals>, next: Option<Totals>, first: Totals, ops: seq<Operation>)
    requires |ops| > 0 && NamedIn(limit, first, ops[..|ops| - 1])
    requires next == limit || (next.Some? && next == NamedBy(ops[|ops| - 1]))
    ensures NamedIn(next, first, ops)
  {
    hide NamedBy;
    var n := |ops| - 1;
    if next == limit && limit != Some(first) {
      var j :| 0 <= j < n && NamedBy(ops[..n][j]) == limit;
      assert ops[..n][j] == ops[j];
    }
  }

  lemma NamedIsLower(limit: Option<Totals>, first: Totals, ops: seq<Operation>)
    requires |ops| > 0 && NamedIn(limit, first, ops[..|ops| - 1]) && Rising(first, ops)
    ensures var named := NamedBy(ops[|ops| - 1]); named.Some? ==> NotLower(limit.value, named.value)
  {
    hide NamedBy, NotLower;
    var n := |ops| - 1;
    if limit != Some(first) {
      var j :| 0 <= j < n && NamedBy(ops[..n][j]) == limit;
      assert ops[..n][j] == ops[j];
    }
  }

  /** A refused delivery that names a lower quota leaves a maildir that breaks it. */
  lemma LowerQuotaBreaks()
    ensures
      var s := State(Folder("", [File("m", 5)], []), [], Some(Totals(10, 0)));
      var op := Delivery(0, File("n", 1), Some("3S"), 0);
      s.Possible(op) && s.Within() && !s.Next(op).Within()
  {
    hide State.Next, ParseQuota, CountFile, Small;
    var s := State(Folder("", [File("m", 5)], []), [], Some(Totals(10, 0)));
    var op := Delivery(0, File("n", 1), Some("3S"), 0);
    ParseThree();
    CountUntagged(File("m", 5));
    CountUntagged(File("n", 1));
    assert CountFiles([]) == NONE;
    assert CountFiles([File("m", 5)]) == Totals(5, 1) by {
      assert [File("m", 5)][..0] == [];
    }
    assert Recount(s.inbox, []) == Totals(5, 1);
    NextWithin(s, op);
  }

  lemma ParseThree()
    ensures ParseQuota("3S") == Totals(3, 0) && Small(Totals(3, 0))
  {
    assert Pow10(19) == 10 * Pow10(18);
  }

  lemma CountUntagged(f: File)
    requires |f.name| == 1 && f.name[0] != '.'
    ensures CountFile(f) == Totals(f.size, 1)
  {
    hide MaildirNames.FlagsAt, MaildirNames.LastTag;
    assert CountsFrom(f.name, 0);
  }

  lemma RisingStep(t: State, op: Operation)
    requires t.limit.Some? && t.Within()
    requires NamedBy(op).Some? ==> NotLower(t.limit.value, NamedBy(op).value)
    ensures t.Admits(op) && (t.Next(op).limit == t.limit || (NamedBy(op).Some? && t.Next(op).limit == NamedBy(op)))
  {
    hide State.Possible, State.Counted, Recount, ParseQuota, CountFile, IsCountedFolder;
  }

  lemma StillShort(q: Totals, ds: seq<Totals>, d: Totals)
    requires IsQuota(q) && Small(d) && Small(Total(ds))
    requires |Written(q, ds)| < LIMIT || |ds| == 1
    ensures |Written(q, ds)| + |Record(d)| <= LIMIT - 1 + 42
  {
    hide Small, Written, Total, Record;
    RecordLength(d);
    if |ds| == 1 {
      assert ds == [ds[0]];
      WrittenAnew(q, ds[0]);
      CompactLength(q, ds[0]);
    }
  }

  lemma WrittenAnew(q: Totals, d: Totals)
    ensures Written(q, [d]) == NewHeader(q) + Record(d)
    ensures Total([d]) == d
  {
    hide Record, NewHeader;
    assert Records([d]) == Record(d) + Records([]);
    assert [d][1..] == [];
  }
}
