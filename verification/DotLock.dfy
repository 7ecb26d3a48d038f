/** The dot-lock of wmail/liblock/mail.c: a lock file that appears by a hard link.  Every system
    call is one step; the steps of any number of processes interleave in any way. */
module DotLock {
  import opened Decimal

  // ----- who holds a lock

  /** A process, known by its number and its host. */
  datatype Process = Process(pid: nat, host: string)

  /** getid: what a process writes into its lock file. */
  function IdText(p: Process): string {
    OfNat(p.pid) + ":" + p.host
  }

  /** strchr: the text from the first colon on, if there is one. */
  function FromColon(s: string, j: nat): (r: string)
    requires j <= |s|
    decreases |s| - j
  {
    if j == |s| then "" else if s[j] == ':' then s[j..] else FromColon(s, j + 1)
  }

  /** getpidid: the number in another id if it is from my host, and 0 if it is not. */
  function GetPidId(id: string, myid: string): nat {
    var p := Value(id[..DigitsEnd(id, 0)]);
    var a, b := FromColon(id, 0), FromColon(myid, 0);
    if a == "" || b == "" || a != b then 0 else p
  }

  lemma {:induction false} FromColonIs(digits: string, j: nat, rest: string)
    requires j <= |digits| && AllDigits(digits)
    ensures FromColon(digits + ":" + rest, j) == ":" + rest
    decreases |digits| - j
  {
    var s := digits + ":" + rest;
    if j < |digits| {
      assert s[j] == digits[j] && IsDigit(digits[j]);
      FromColonIs(digits, j + 1, rest);
    } else {
      assert s[j..] == ":" + rest;
    }
  }

  lemma GetPidIdIs(other: Process, me: Process)
    ensures GetPidId(IdText(other), IdText(me)) == if other.host == me.host then other.pid else 0
  {
    var digits, s := OfNat(other.pid), IdText(other);
    FromColonIs(digits, 0, other.host);
    FromColonIs(OfNat(me.pid), 0, me.host);
    assert s[..|digits|] == digits && s[0..|digits|] == digits && s[|digits|] == ':';
    DigitsEndIs(s, 0, |digits|);
    ValueOfNat(other.pid);
    assert (":" + other.host)[1..] == other.host && (":" + me.host)[1..] == me.host;
  }

  /** Different processes write different ids. */
  lemma IdInjective(p: Process, q: Process)
    requires IdText(p) == IdText(q)
    ensures p == q
  {
    GetPidIdIs(p, p);
    GetPidIdIs(q, q);
    FromColonIs(OfNat(p.pid), 0, p.host);
    FromColonIs(OfNat(q.pid), 0, q.host);
    assert (":" + p.host)[1..] == p.host && (":" + q.host)[1..] == q.host;
  }

  // ----- the file system, and where each process stands

  datatype Name = Lock | Tmp(owner: nat)

  datatype Inode = Inode(content: string, mtime: int)

  datatype Outcome = Won | Exists | Failed

  /** What a process does next, in try_dotlock, in dotlock_exists or in ll_mail_free. */
  datatype Pc =
    | Idle
    | Writing(ino: nat, written: nat)
    | Linking(ino: nat)
    | Checking(ino: nat)
    | Cleaning(ino: nat, outcome: Outcome)
    | Holding
    | Blocked
    | Reading(ino: nat)
    | Removing
    | Freeing
    | FreeReading(ino: nat)
    | FreeRemoving

  datatype State = State(dir: map<Name, nat>, inodes: map<nat, Inode>, next: nat, pc: map<nat, Pc>)

  const INITIAL := State(map[], map[], 0, map[])

  function PcOf(s: State, p: nat): Pc {
    if p in s.pc then s.pc[p] else Idle
  }

  /** What a step depends on besides the state: whether the call fails for a reason of its own,
      and in dotlock_exists also whether fstat does, how much of the id a write takes, the time,
      and whether kill finds the process. */
  datatype Choice = Choice(error: bool, statFails: bool, written: nat, now: int, alive: bool)

  /** write at an offset. */
  function Overwrite(content: string, at: nat, chunk: string): string {
    var end := at + |chunk|;
    (if at <= |content| then content[..at] else content) + chunk
    + (if end < |content| then content[end..] else "")
  }

  function LinkCount(s: State, ino: nat): nat {
    |set n | n in s.dir && s.dir[n] == ino|
  }

  function Unlink(s: State, n: Name): State {
    s.(dir := s.dir - {n})
  }

  function Go(s: State, p: nat, c: Pc): State {
    s.(pc := s.pc[p := c])
  }

  /** The next system call of process p, in a system of the processes `who`; locks of other
      hosts are taken to be stale after `timeout` seconds, if that is positive. */
  function Step(who: seq<Process>, timeout: int, s: State, p: nat, c: Choice): State
    requires p < |who|
  {
    match PcOf(s, p)
    case Idle =>
      if c.error then s
      else if Tmp(p) in s.dir then Go(s, p, Writing(s.dir[Tmp(p)], 0))
      else Created(s, p, c.now)
    case Writing(ino, written) =>
      var id := IdText(who[p]);
      if written >= |id| then Go(s, p, Linking(ino))
      else if c.error || c.written == 0 || written + c.written > |id| || ino !in s.inodes then
        Go(s, p, Cleaning(ino, Failed))
      else
        var content := Overwrite(s.inodes[ino].content, written, id[written..written + c.written]);
        Go(s.(inodes := s.inodes[ino := Inode(content, c.now)]), p, Writing(ino, written + c.written))
    case Linking(ino) =>
      if c.error then Go(s, p, Cleaning(ino, Failed))
      else if Lock in s.dir then Go(s, p, Cleaning(ino, Exists))
      else Go(s.(dir := s.dir[Lock := ino]), p, Checking(ino))
    case Checking(ino) =>
      var two := !c.error && Tmp(p) in s.dir && LinkCount(s, s.dir[Tmp(p)]) == 2;
      Go(s, p, Cleaning(ino, if two then Won else Failed))
    case Cleaning(ino, outcome) =>
      if c.error then Go(s, p, if outcome.Won? then Holding else Idle)
      else Go(Unlink(s, Tmp(p)), p, match outcome case Won => Holding case Exists => Blocked case Failed => Idle)
    case Holding => Go(s, p, Freeing)
    case Blocked =>
      if c.error || Lock !in s.dir then Go(s, p, Idle) else Go(s, p, Reading(s.dir[Lock]))
    case Reading(ino) => Go(s, p, if LooksStale(who, timeout, s, p, ino, c) then Removing else Idle)
    case Removing => Go(if c.error then s else Unlink(s, Lock), p, Idle)
    case Freeing =>
      if c.error || Lock !in s.dir then Go(s, p, Idle) else Go(s, p, FreeReading(s.dir[Lock]))
    case FreeReading(ino) =>
      var own := !c.error && ino in s.inodes && s.inodes[ino].content == IdText(who[p]);
      Go(s, p, if own then FreeRemoving else Idle)
    case FreeRemoving => Go(if c.error then s else Unlink(s, Lock), p, Idle)
  }

  /** dotlock_exists on the lock file that p has open.  If it cannot be read, only its age counts,
      as if it were of another host. */
  predicate LooksStale(who: seq<Process>, timeout: int, s: State, p: nat, ino: nat, c: Choice)
    requires p < |who|
  {
    && ino in s.inodes
    && if !c.error && GetPidId(s.inodes[ino].content, IdText(who[p])) != 0 then !c.alive
       else timeout > 0 && !c.statFails && s.inodes[ino].mtime < c.now - timeout
  }

  // ----- what every step keeps

  /** Between the calls that leave the process a lock file and the one that takes it away. */
  predicate Owns(c: Pc) {
    c.Checking? || c == Cleaning(if c.Cleaning? then c.ino else 0, Won) || c.Holding?
    || c.Freeing? || c.FreeReading? || c.FreeRemoving?
  }

  predicate HasTmp(c: Pc) {
    c.Writing? || c.Linking? || c.Checking? || c.Cleaning?
  }

  predicate HasOpen(c: Pc) {
    c.Reading? || c.FreeReading?
  }

  ghost predicate Distinct(who: seq<Process>) {
    && (forall p :: 0 <= p < |who| ==> who[p].pid > 0)
    && forall p, q :: 0 <= p < q < |who| ==> who[p] != who[q]
  }

  /** The file holds the whole id of a process. */
  ghost predicate Complete(who: seq<Process>, s: State, ino: nat) {
    ino in s.inodes && exists q :: 0 <= q < |who| && s.inodes[ino].content == IdText(who[q])
  }

  /** Names lead to files, and no file has been made with a number still to come. */
  ghost predicate Files(s: State) {
    && (forall n :: n in s.dir ==> s.dir[n] in s.inodes)
    && (forall i :: i in s.inodes ==> i < s.next)
  }

  /** A temporary file is there while its maker needs it, and perhaps longer, is nobody else's, and
      holds a part of its maker's id. */
  ghost predicate Temporaries(who: seq<Process>, s: State) {
    && (forall p: nat :: Tmp(p) in s.dir ==>
          p < |who| && s.dir[Tmp(p)] in s.inodes && s.inodes[s.dir[Tmp(p)]].content <= IdText(who[p]))
    && (forall p: nat :: HasTmp(PcOf(s, p)) ==> Tmp(p) in s.dir && s.dir[Tmp(p)] == PcOf(s, p).ino)
    && (forall p: nat, q: nat :: Tmp(p) in s.dir && Tmp(q) in s.dir && s.dir[Tmp(p)] == s.dir[Tmp(q)] ==> p == q)
  }

  /** If the file still has the temporary name of a process, that process will not change it: its
      id is there already. */
  ghost predicate Fixed(who: seq<Process>, s: State, ino: nat) {
    forall p: nat :: Tmp(p) in s.dir && s.dir[Tmp(p)] == ino ==>
      p < |who| && ino in s.inodes && s.inodes[ino].content == IdText(who[p])
  }

  /** What a lock file is like for all to see, for as long as anyone has it open. */
  ghost predicate Steady(who: seq<Process>, s: State, ino: nat) {
    Complete(who, s, ino) && Fixed(who, s, ino)
  }

  /** What is known of the files by where process p stands. */
  ghost predicate Local(who: seq<Process>, s: State, p: nat)
    requires p < |who|
  {
    var c, id := PcOf(s, p), IdText(who[p]);
    && !c.Removing?
    && (c.Writing? ==> c.ino in s.inodes && c.written <= |s.inodes[c.ino].content|)
    && (c.Linking? ==> c.ino in s.inodes && s.inodes[c.ino].content == id)
    && (Owns(c) ==> Lock in s.dir && s.dir[Lock] in s.inodes && s.inodes[s.dir[Lock]].content == id)
    && (c.Checking? || c.FreeReading? ==> s.dir[Lock] == c.ino)
    && (HasOpen(c) ==> Steady(who, s, c.ino))
  }

  ghost predicate Inv(who: seq<Process>, s: State) {
    && (forall p :: p in s.pc ==> p < |who|)
    && Files(s) && Temporaries(who, s)
    && (Lock in s.dir ==> Steady(who, s, s.dir[Lock]))
    && forall p :: 0 <= p < |who| ==> Local(who, s, p)
  }

  /** No process dies, and no lock of another host is read when it is older than the timeout, nor
      is one that cannot be read so old. */
  ghost predicate Normal(who: seq<Process>, timeout: int, s: State, p: nat, c: Choice)
    requires p < |who|
  {
    PcOf(s, p).Reading? ==>
      var ino := PcOf(s, p).ino;
      forall q :: 0 <= q < |who| && ino in s.inodes && s.inodes[ino].content == IdText(who[q]) ==>
        if !c.error && who[q].host == who[p].host then c.alive
        else timeout <= 0 || c.statFails || s.inodes[ino].mtime >= c.now - timeout
  }

  /** Under the invariant, a step of p that reads a lock file keeps to the condition exactly if p
      does not go on to remove the file. */
  lemma NotStale(who: seq<Process>, timeout: int, s: State, p: nat, c: Choice)
    requires p < |who| && Distinct(who) && Inv(who, s) && PcOf(s, p).Reading?
    ensures Normal(who, timeout, s, p, c) <==> !LooksStale(who, timeout, s, p, PcOf(s, p).ino, c)
    ensures Normal(who, timeout, s, p, c) <==> !PcOf(Step(who, timeout, s, p, c), p).Removing?
  {
    hide Temporaries, Files, Fixed;
    var ino := PcOf(s, p).ino;
    assert Local(who, s, p);
    var q :| 0 <= q < |who| && s.inodes[ino].content == IdText(who[q]);
    GetPidIdIs(who[q], who[p]);
    forall r | 0 <= r < |who| && s.inodes[ino].content == IdText(who[r])
      ensures who[r] == who[q]
    {
      IdInjective(who[r], who[q]);
    }
  }

  /** A process comes to hold the lock only if its link succeeds and two links are then seen, and
      comes to be blocked only by a lock file that was there. */
  lemma HowHeld(who: seq<Process>, timeout: int, s: State, p: nat, c: Choice)
    requires p < |who|
    ensures var at, next := PcOf(s, p), PcOf(Step(who, timeout, s, p, c), p);
      && (next.Holding? ==> at.Cleaning? && at.outcome.Won?)
      && (next.Cleaning? && next.outcome.Won? ==> at.Checking? && !c.error && LinkCount(s, s.dir[Tmp(p)]) == 2)
      && (next.Checking? ==> at.Linking? && !c.error && Lock !in s.dir)
      && (next.Linking? ==> at.Writing? && at.written >= |OfNat(who[p].pid) + ":" + who[p].host|)
      && (next.Blocked? ==> at.Cleaning? && at.outcome.Exists?)
      && (next.Cleaning? && next.outcome.Exists? ==> at.Linking? && !c.error && Lock in s.dir)
      && (next.FreeReading? ==> at.Freeing? && !c.error) && (next.Freeing? ==> at.Holding?)
  {}

  /** Whatever the state, ll_mail_free goes on to remove the lock file only if what it has read is
      the process's own id. */
  lemma OnlyOwnFreed(who: seq<Process>, timeout: int, s: State, p: nat, c: Choice)
    requires p < |who| && PcOf(s, p).FreeReading? && PcOf(Step(who, timeout, s, p, c), p).FreeRemoving?
    ensures var ino := PcOf(s, p).ino;
      !c.error && ino in s.inodes && s.inodes[ino].content == OfNat(who[p].pid) + ":" + who[p].host
  {}

  /** At most one process owns the lock. */
  lemma MutualExclusion(who: seq<Process>, s: State, p: nat, q: nat)
    requires Distinct(who) && Inv(who, s) && p < |who| && q < |who|
    requires Owns(PcOf(s, p)) && Owns(PcOf(s, q))
    ensures p == q
  {
    assert Local(who, s, p) && Local(who, s, q);
    IdInjective(who[p], who[q]);
  }

  lemma TwoLinks(who: seq<Process>, s: State, p: nat)
    requires Inv(who, s) && p < |who| && PcOf(s, p).Checking?
    ensures Tmp(p) in s.dir && LinkCount(s, s.dir[Tmp(p)]) == 2
  {
    assert Local(who, s, p);
    TwoNames(s, p);
  }

  lemma TwoNames(s: State, p: nat)
    requires Tmp(p) in s.dir && Lock in s.dir && s.dir[Lock] == s.dir[Tmp(p)]
    requires forall q: nat :: Tmp(q) in s.dir && s.dir[Tmp(q)] == s.dir[Tmp(p)] ==> q == p
    ensures LinkCount(s, s.dir[Tmp(p)]) == 2
  {
    var ino := s.dir[Tmp(p)];
    var names := set n | n in s.dir && s.dir[n] == ino;
    forall n
      ensures n in names <==> n in {Lock, Tmp(p)}
    {
      if n in names && n.Tmp? {
        assert s.dir[Tmp(n.owner)] == s.dir[Tmp(p)];
      }
    }
    assert names == {Lock, Tmp(p)};
  }

  /** The files that what is known of q is about. */
  predicate Matters(s: State, q: nat, i: nat) {
    var c := PcOf(s, q);
    ((HasTmp(c) || HasOpen(c)) && i == c.ino) || (Owns(c) && Lock in s.dir && i == s.dir[Lock])
  }

  /** What is known of q stays known if q stays where it is, and those files are as they were. */
  lemma LocalKept(who: seq<Process>, s: State, t: State, q: nat)
    requires q < |who| && Local(who, s, q) && PcOf(t, q) == PcOf(s, q)
    requires Owns(PcOf(s, q)) ==> Lock in t.dir && t.dir[Lock] == s.dir[Lock]
    requires forall i :: i in s.inodes && Matters(s, q, i) ==>
      i in t.inodes && t.inodes[i].content == s.inodes[i].content
    requires HasOpen(PcOf(s, q)) ==> Fixed(who, t, PcOf(s, q).ino)
    ensures Local(who, t, q)
  {
    hide Fixed;
    var c := PcOf(s, q);
    assert HasTmp(c) || HasOpen(c) ==> Matters(s, q, c.ino);
    assert Owns(c) ==> Matters(s, q, s.dir[Lock]);
    if HasOpen(c) {
      CompleteKept(who, s, t, c.ino);
    }
  }

  lemma CompleteKept(who: seq<Process>, s: State, t: State, ino: nat)
    requires Complete(who, s, ino) && ino in t.inodes && t.inodes[ino].content == s.inodes[ino].content
    ensures Complete(who, t, ino)
  {
    var r :| 0 <= r < |who| && s.inodes[ino].content == IdText(who[r]);
    assert t.inodes[ino].content == IdText(who[r]);
  }

  lemma KnownOf(who: seq<Process>, s: State, p: nat)
    requires p < |who| && Inv(who, s)
    ensures Local(who, s, p)
    ensures HasTmp(PcOf(s, p)) ==> Tmp(p) in s.dir && s.dir[Tmp(p)] == PcOf(s, p).ino
  {}

  /** A step that leaves the files alone. */
  lemma PcMove(who: seq<Process>, s: State, p: nat, c: Pc)
    requires p < |who| && Inv(who, s) && Local(who, Go(s, p, c), p)
    requires HasTmp(c) ==> Tmp(p) in s.dir && s.dir[Tmp(p)] == c.ino
    ensures Inv(who, Go(s, p, c))
  {
    var t := Go(s, p, c);
    forall q | 0 <= q < |who|
      ensures Local(who, t, q)
    {
      if q != p {
        assert Local(who, s, q);
        LocalKept(who, s, t, q);
      }
    }
    if Lock in s.dir {
      CompleteKept(who, s, t, s.dir[Lock]);
    }
  }

  function Created(s: State, p: nat, now: int): State {
    Go(State(s.dir[Tmp(p) := s.next], s.inodes[s.next := Inode("", now)], s.next + 1, s.pc),
      p, Writing(s.next, 0))
  }

  lemma FixedOld(who: seq<Process>, s: State, p: nat, now: int, ino: nat)
    requires Fixed(who, s, ino) && ino in s.inodes && Files(s)
    ensures Fixed(who, Created(s, p, now), ino)
  {}

  lemma CreateTidy(who: seq<Process>, s: State, p: nat, now: int)
    requires p < |who| && Files(s) && Temporaries(who, s) && Tmp(p) !in s.dir
    ensures Files(Created(s, p, now)) && Temporaries(who, Created(s, p, now))
  {}

  /** The temporary file is made. */
  lemma CreateKeeps(who: seq<Process>, s: State, p: nat, now: int)
    requires p < |who| && Inv(who, s) && PcOf(s, p).Idle? && Tmp(p) !in s.dir
    ensures Inv(who, Created(s, p, now))
  {
    var t := Created(s, p, now);
    CreateTidy(who, s, p, now);
    if Lock in s.dir {
      CompleteKept(who, s, t, s.dir[Lock]);
      FixedOld(who, s, p, now, s.dir[Lock]);
    }
    hide Temporaries, Fixed, Complete;
    forall q | 0 <= q < |who|
      ensures Local(who, t, q)
    {
      assert Local(who, s, q);
      if q != p {
        CreateLocal(who, s, p, now, q);
      }
    }
  }

  lemma CreateLocal(who: seq<Process>, s: State, p: nat, now: int, q: nat)
    requires q < |who| && q != p && Files(s) && Temporaries(who, s) && Local(who, s, q)
    ensures Local(who, Created(s, p, now), q)
  {
    hide Fixed;
    if HasOpen(PcOf(s, q)) {
      FixedOld(who, s, p, now, PcOf(s, q).ino);
    }
    LocalKept(who, s, Created(s, p, now), q);
  }

  /** The file after a part of the id is written. */
  function Wrote(who: seq<Process>, s: State, p: nat, n: nat, now: int): State
    requires p < |who| && PcOf(s, p).Writing? && PcOf(s, p).ino in s.inodes
    requires PcOf(s, p).written + n <= |IdText(who[p])|
  {
    var c, id := PcOf(s, p), IdText(who[p]);
    var content := Overwrite(s.inodes[c.ino].content, c.written, id[c.written..c.written + n]);
    Go(s.(inodes := s.inodes[c.ino := Inode(content, now)]), p, Writing(c.ino, c.written + n))
  }

  /** Writing a part of a text over a longer or shorter part of the same text. */
  lemma OverwritePrefix(id: string, content: string, at: nat, n: nat)
    requires content <= id && at <= |content| && at + n <= |id|
    ensures var after := Overwrite(content, at, id[at..at + n]);
      after <= id && |after| >= at + n && content <= after
  {
    var after := Overwrite(content, at, id[at..at + n]);
    var m := if at + n < |content| then |content| else at + n;
    assert content == id[..|content|];
    assert after == id[..m];
  }

  /** A lock file is not changed by it, even if the process writes its id into it again. */
  lemma SteadySame(who: seq<Process>, s: State, p: nat, n: nat, now: int, ino: nat)
    requires p < |who| && Inv(who, s) && PcOf(s, p).Writing? && PcOf(s, p).ino in s.inodes
    requires PcOf(s, p).written + n <= |IdText(who[p])| && Steady(who, s, ino)
    ensures var t := Wrote(who, s, p, n, now);
      ino in t.inodes && t.inodes[ino].content == s.inodes[ino].content && Steady(who, t, ino)
  {
    hide Local;
    var c, t := PcOf(s, p), Wrote(who, s, p, n, now);
    assert Tmp(p) in s.dir && s.dir[Tmp(p)] == c.ino;
    if ino == c.ino {
      WrittenIn(who, s, p);
      OverwritePrefix(IdText(who[p]), s.inodes[ino].content, c.written, n);
    }
    CompleteKept(who, s, t, ino);
  }

  lemma WrittenIn(who: seq<Process>, s: State, p: nat)
    requires p < |who| && Inv(who, s) && PcOf(s, p).Writing?
    ensures var c := PcOf(s, p);
      && c.ino in s.inodes && c.written <= |s.inodes[c.ino].content| && s.inodes[c.ino].content <= IdText(who[p])
      && Tmp(p) in s.dir && s.dir[Tmp(p)] == c.ino
  {
    assert Local(who, s, p);
  }

  lemma WriteTidy(who: seq<Process>, s: State, p: nat, n: nat, now: int)
    requires p < |who| && Inv(who, s) && PcOf(s, p).Writing? && PcOf(s, p).ino in s.inodes
    requires PcOf(s, p).written + n <= |IdText(who[p])|
    ensures var t := Wrote(who, s, p, n, now); Files(t) && Temporaries(who, t) && Local(who, t, p)
  {
    WrittenIn(who, s, p);
    var c := PcOf(s, p);
    OverwritePrefix(IdText(who[p]), s.inodes[c.ino].content, c.written, n);
    var t := Wrote(who, s, p, n, now);
    OthersSame(who, s, t, c.ino);
    hide Inv, Overwrite, Temporaries;
    WritingLocal(who, t, p);
  }

  /** A file changes, which has the name of its maker, and a part of that process's id in it. */
  lemma OthersSame(who: seq<Process>, s: State, t: State, ino: nat)
    requires Files(s) && Temporaries(who, s) && ino in s.inodes && ino in t.inodes
    requires t.dir == s.dir && t.next == s.next && t.inodes == s.inodes[ino := t.inodes[ino]]
    requires forall q: nat :: q < |who| && Tmp(q) in s.dir && s.dir[Tmp(q)] == ino ==>
      t.inodes[ino].content <= IdText(who[q])
    requires forall q: nat :: HasTmp(PcOf(t, q)) ==> HasTmp(PcOf(s, q)) && PcOf(t, q).ino == PcOf(s, q).ino
    ensures Files(t) && Temporaries(who, t)
  {}

  lemma WritingLocal(who: seq<Process>, t: State, p: nat)
    requires p < |who| && PcOf(t, p).Writing? && PcOf(t, p).ino in t.inodes
    requires PcOf(t, p).written <= |t.inodes[PcOf(t, p).ino].content|
    ensures Local(who, t, p)
  {}

  lemma WriteLocal(who: seq<Process>, s: State, p: nat, n: nat, now: int, q: nat)
    requires p < |who| && Inv(who, s) && PcOf(s, p).Writing? && PcOf(s, p).ino in s.inodes
    requires PcOf(s, p).written + n <= |IdText(who[p])| && q < |who| && q != p
    ensures Local(who, Wrote(who, s, p, n, now), q)
  {
    var c, d, t := PcOf(s, p), PcOf(s, q), Wrote(who, s, p, n, now);
    assert Local(who, s, q);
    KnownOf(who, s, p);
    KnownOf(who, s, q);
    if HasOpen(d) {
      SteadySame(who, s, p, n, now, d.ino);
    }
    if Owns(d) {
      SteadySame(who, s, p, n, now, s.dir[Lock]);
    }
    assert HasTmp(d) ==> d.ino != c.ino;
    hide Inv, Fixed, Complete;
    LocalKept(who, s, t, q);
  }

  /** A part of the id is written. */
  lemma WriteKeeps(who: seq<Process>, s: State, p: nat, n: nat, now: int)
    requires p < |who| && Inv(who, s) && PcOf(s, p).Writing? && PcOf(s, p).ino in s.inodes
    requires PcOf(s, p).written + n <= |IdText(who[p])|
    ensures Inv(who, Wrote(who, s, p, n, now))
  {
    WriteTidy(who, s, p, n, now);
    if Lock in s.dir {
      SteadySame(who, s, p, n, now, s.dir[Lock]);
    }
    hide Temporaries, Files, Steady, Local;
    forall q | 0 <= q < |who|
      ensures Local(who, Wrote(who, s, p, n, now), q)
    {
      if q != p {
        WriteLocal(who, s, p, n, now, q);
      }
    }
  }

  /** The link succeeds, and the process owns the lock. */
  lemma LinkKeeps(who: seq<Process>, s: State, p: nat)
    requires p < |who| && Inv(who, s) && PcOf(s, p).Linking? && Lock !in s.dir
    ensures var ino := PcOf(s, p).ino; Inv(who, Go(s.(dir := s.dir[Lock := ino]), p, Checking(ino)))
  {
    KnownOf(who, s, p);
    var ino := PcOf(s, p).ino;
    var t := Go(s.(dir := s.dir[Lock := ino]), p, Checking(ino));
    assert Files(t) && Temporaries(who, t);
    assert t.inodes[ino].content == IdText(who[p]);
    assert Steady(who, t, ino);
    hide Temporaries, Files, Complete;
    forall q | 0 <= q < |who|
      ensures Local(who, t, q)
    {
      if q != p {
        assert Local(who, s, q);
        LocalKept(who, s, t, q);
      }
    }
  }

  /** A name is removed, which nobody else needs, and the process goes on elsewhere. */
  lemma UnlinkKeeps(who: seq<Process>, s: State, p: nat, n: Name, c: Pc)
    requires p < |who| && Inv(who, s) && Local(who, Go(Unlink(s, n), p, c), p) && !HasTmp(c)
    requires n == Lock || n == Tmp(p)
    requires n == Lock ==> forall q :: 0 <= q < |who| && q != p ==> !Owns(PcOf(s, q))
    ensures Inv(who, Go(Unlink(s, n), p, c))
  {
    var t := Go(Unlink(s, n), p, c);
    assert Files(t) && Temporaries(who, t);
    if Lock in t.dir {
      CompleteKept(who, s, t, t.dir[Lock]);
      FewerNames(who, s, t, t.dir[Lock]);
    }
    hide Temporaries, Files, Fixed, Complete;
    forall q | 0 <= q < |who|
      ensures Local(who, t, q)
    {
      if q != p {
        assert Local(who, s, q);
        if HasOpen(PcOf(s, q)) {
          FewerNames(who, s, t, PcOf(s, q).ino);
        }
        LocalKept(who, s, t, q);
      }
    }
  }

  lemma FewerNames(who: seq<Process>, s: State, t: State, ino: nat)
    requires Fixed(who, s, ino) && t.inodes == s.inodes
    requires forall n :: n in t.dir ==> n in s.dir && s.dir[n] == t.dir[n]
    ensures Fixed(who, t, ino)
  {}

  lemma OwnedAlone(who: seq<Process>, s: State, p: nat)
    requires p < |who| && Distinct(who) && Inv(who, s) && Owns(PcOf(s, p))
    ensures forall q :: 0 <= q < |who| && q != p ==> !Owns(PcOf(s, q))
  {
    hide Inv, Owns, Distinct;
    forall q | 0 <= q < |who| && q != p && Owns(PcOf(s, q))
      ensures false
    {
      MutualExclusion(who, s, p, q);
    }
  }

  /** The steps of try_dotlock. */
  lemma TryKeeps(who: seq<Process>, timeout: int, s: State, p: nat, c: Choice)
    requires p < |who| && Inv(who, s) && (PcOf(s, p).Idle? || PcOf(s, p).Writing? || PcOf(s, p).Linking?)
    ensures Inv(who, Step(who, timeout, s, p, c))
  {
    hide Inv;
    KnownOf(who, s, p);
    match PcOf(s, p) {
      case Idle =>
        StartKeeps(who, timeout, s, p, c);
      case Writing(ino, written) =>
        WrittenIn(who, s, p);
        var id := IdText(who[p]);
        if written >= |id| {
          PcMove(who, s, p, Linking(ino));
        } else if c.error || c.written == 0 || written + c.written > |id| {
          PcMove(who, s, p, Cleaning(ino, Failed));
        } else {
          WriteKeeps(who, s, p, c.written, c.now);
        }
      case Linking(ino) =>
        if c.error {
          PcMove(who, s, p, Cleaning(ino, Failed));
        } else if Lock in s.dir {
          PcMove(who, s, p, Cleaning(ino, Exists));
        } else {
          LinkKeeps(who, s, p);
        }
    }
  }

  lemma StartKeeps(who: seq<Process>, timeout: int, s: State, p: nat, c: Choice)
    requires p < |who| && Inv(who, s) && PcOf(s, p).Idle?
    ensures Inv(who, Step(who, timeout, s, p, c))
  {
    if !c.error {
      if Tmp(p) in s.dir {
        PcMove(who, s, p, Writing(s.dir[Tmp(p)], 0));
      } else {
        CreateKeeps(who, s, p, c.now);
      }
    }
  }

  /** The check of the links, and the removal of the temporary name. */
  lemma FinishKeeps(who: seq<Process>, timeout: int, s: State, p: nat, c: Choice)
    requires p < |who| && Inv(who, s) && (PcOf(s, p).Checking? || PcOf(s, p).Cleaning?)
    ensures Inv(who, Step(who, timeout, s, p, c))
  {
    hide Inv;
    KnownOf(who, s, p);
    match PcOf(s, p) {
      case Checking(ino) =>
        TwoLinks(who, s, p);
        PcMove(who, s, p, Cleaning(ino, if c.error then Failed else Won));
      case Cleaning(ino, outcome) =>
        if c.error {
          PcMove(who, s, p, if outcome.Won? then Holding else Idle);
        } else {
          UnlinkKeeps(who, s, p, Tmp(p), match outcome case Won => Holding case Exists => Blocked case Failed => Idle);
        }
    }
  }

  /** The steps of dotlock_exists. */
  lemma ExistsKeeps(who: seq<Process>, timeout: int, s: State, p: nat, c: Choice)
    requires p < |who| && Distinct(who) && Inv(who, s) && Normal(who, timeout, s, p, c)
    requires PcOf(s, p).Blocked? || PcOf(s, p).Reading?
    ensures Inv(who, Step(who, timeout, s, p, c))
  {
    hide Inv;
    KnownOf(who, s, p);
    if PcOf(s, p).Reading? {
      NotStale(who, timeout, s, p, c);
      PcMove(who, s, p, Idle);
    } else {
      if Lock in s.dir {
        ReadingSteady(who, s, p);
      }
      PcMove(who, s, p, if c.error || Lock !in s.dir then Idle else Reading(s.dir[Lock]));
    }
  }

  /** A lock file that is opened is steady, and stays so. */
  lemma ReadingSteady(who: seq<Process>, s: State, p: nat)
    requires p < |who| && Inv(who, s) && Lock in s.dir
    ensures Steady(who, Go(s, p, Reading(s.dir[Lock])), s.dir[Lock])
    ensures Steady(who, Go(s, p, FreeReading(s.dir[Lock])), s.dir[Lock])
  {
    CompleteKept(who, s, Go(s, p, Reading(s.dir[Lock])), s.dir[Lock]);
    CompleteKept(who, s, Go(s, p, FreeReading(s.dir[Lock])), s.dir[Lock]);
  }

  /** The steps of ll_mail_free up to the unlink. */
  lemma FreeingKeeps(who: seq<Process>, timeout: int, s: State, p: nat, c: Choice)
    requires p < |who| && Inv(who, s)
    requires PcOf(s, p).Holding? || PcOf(s, p).Freeing? || PcOf(s, p).FreeReading?
    ensures Inv(who, Step(who, timeout, s, p, c))
  {
    hide Inv, Steady;
    KnownOf(who, s, p);
    ReadingSteady(who, s, p);
    match PcOf(s, p) {
      case Holding =>
        PcMove(who, s, p, Freeing);
      case Freeing =>
        PcMove(who, s, p, if c.error then Idle else FreeReading(s.dir[Lock]));
      case FreeReading(ino) =>
        PcMove(who, s, p, if c.error then Idle else FreeRemoving);
    }
  }

  /** The steps of ll_mail_free. */
  lemma FreeKeeps(who: seq<Process>, timeout: int, s: State, p: nat, c: Choice)
    requires p < |who| && Distinct(who) && Inv(who, s)
    requires PcOf(s, p).Holding? || PcOf(s, p).Freeing? || PcOf(s, p).FreeReading? || PcOf(s, p).FreeRemoving?
    ensures Inv(who, Step(who, timeout, s, p, c))
  {
    hide Inv, Distinct;
    KnownOf(who, s, p);
    OwnedAlone(who, s, p);
    if !PcOf(s, p).FreeRemoving? {
      FreeingKeeps(who, timeout, s, p, c);
    } else if c.error {
      PcMove(who, s, p, Idle);
    } else {
      UnlinkKeeps(who, s, p, Lock, Idle);
    }
  }

  /** Every step of a normal run keeps the invariant. */
  lemma StepKeeps(who: seq<Process>, timeout: int, s: State, p: nat, c: Choice)
    requires p < |who| && Distinct(who) && Inv(who, s) && Normal(who, timeout, s, p, c)
    ensures Inv(who, Step(who, timeout, s, p, c))
  {
    KnownOf(who, s, p);
    hide Inv, Step, Normal, Distinct;
    var at := PcOf(s, p);
    if at.Idle? || at.Writing? || at.Linking? {
      TryKeeps(who, timeout, s, p, c);
    } else if at.Checking? || at.Cleaning? {
      FinishKeeps(who, timeout, s, p, c);
    } else if at.Blocked? || at.Reading? {
      ExistsKeeps(who, timeout, s, p, c);
    } else {
      FreeKeeps(who, timeout, s, p, c);
    }
  }

  // ----- runs

  datatype Event = Event(p: nat, choice: Choice)

  /** The state after the first n events. */
  function Run(who: seq<Process>, timeout: int, events: seq<Event>, n: nat): State
    requires n <= |events| && forall k :: 0 <= k < |events| ==> events[k].p < |who|
  {
    if n == 0 then INITIAL
    else Step(who, timeout, Run(who, timeout, events, n - 1), events[n - 1].p, events[n - 1].choice)
  }

  ghost predicate NormalRun(who: seq<Process>, timeout: int, events: seq<Event>)
    requires forall k :: 0 <= k < |events| ==> events[k].p < |who|
  {
    forall n :: 0 <= n < |events| ==>
      Normal(who, timeout, Run(who, timeout, events, n), events[n].p, events[n].choice)
  }

  lemma {:induction false} RunKeeps(who: seq<Process>, timeout: int, events: seq<Event>, n: nat)
    requires n <= |events| && forall k :: 0 <= k < |events| ==> events[k].p < |who|
    requires Distinct(who) && NormalRun(who, timeout, events)
    ensures Inv(who, Run(who, timeout, events, n))
  {
    hide Inv, Step, Normal, Distinct;
    if n == 0 {
      InitialInv(who);
    } else {
      RunKeeps(who, timeout, events, n - 1);
      var s := Run(who, timeout, events, n - 1);
      assert Normal(who, timeout, s, events[n - 1].p, events[n - 1].choice);
      StepKeeps(who, timeout, s, events[n - 1].p, events[n - 1].choice);
    }
  }

  lemma InitialInv(who: seq<Process>)
    ensures Inv(who, INITIAL)
  {}

  /** At most one process owns the lock, and the lock file then holds its whole id; a lock file
      without an owner holds the whole id of some process.  What ll_mail_free is about to remove
      is therefore the process's own. */
  ghost predicate Safe(who: seq<Process>, s: State) {
    && (forall p, q :: 0 <= p < |who| && 0 <= q < |who| && Owns(PcOf(s, p)) && Owns(PcOf(s, q)) ==> p == q)
    && (forall p :: 0 <= p < |who| && Owns(PcOf(s, p)) ==>
          Lock in s.dir && s.dir[Lock] in s.inodes && s.inodes[s.dir[Lock]].content == IdText(who[p]))
    && (Lock in s.dir ==> Complete(who, s, s.dir[Lock]))
    && (forall p :: 0 <= p < |who| ==> !PcOf(s, p).Removing?)
  }

  lemma InvIsSafe(who: seq<Process>, s: State)
    requires Distinct(who) && Inv(who, s)
    ensures Safe(who, s)
  {
    hide Owns;
    forall p, q | 0 <= p < |who| && 0 <= q < |who| && Owns(PcOf(s, p)) && Owns(PcOf(s, q))
      ensures p == q
    {
      MutualExclusion(who, s, p, q);
    }
    forall p | 0 <= p < |who|
      ensures !PcOf(s, p).Removing?
      ensures Owns(PcOf(s, p)) ==>
        Lock in s.dir && s.dir[Lock] in s.inodes && s.inodes[s.dir[Lock]].content == IdText(who[p])
    {
      KnownOf(who, s, p);
    }
  }

  /** Every state of every normal run is safe. */
  lemma Safety(who: seq<Process>, timeout: int, events: seq<Event>, n: nat)
    requires n <= |events| && forall k :: 0 <= k < |events| ==> events[k].p < |who|
    requires Distinct(who) && NormalRun(who, timeout, events)
    ensures Safe(who, Run(who, timeout, events, n))
  {
    hide Safe, Run, Inv;
    RunKeeps(who, timeout, events, n);
    InvIsSafe(who, Run(who, timeout, events, n));
  }

  /** The steps from the link to holding the lock. */
  lemma Acquired(who: seq<Process>, timeout: int, s: State, p: nat, c: Choice)
    requires p < |who| && Distinct(who) && Inv(who, s) && PcOf(s, p).Linking? && Lock !in s.dir && !c.error
    ensures var s1 := Step(who, timeout, s, p, c);
      var s2 := Step(who, timeout, s1, p, c);
      var s3 := Step(who, timeout, s2, p, c);
      PcOf(s3, p).Holding? && Inv(who, s3)
  {
    var s1 := Step(who, timeout, s, p, c);
    var s2 := Step(who, timeout, s1, p, c);
    StepKeeps(who, timeout, s, p, c);
    TwoLinks(who, s1, p);
    StepKeeps(who, timeout, s1, p, c);
    StepKeeps(who, timeout, s2, p, c);
  }

  lemma OwnerKnows(who: seq<Process>, s: State, p: nat)
    requires p < |who| && Inv(who, s) && Owns(PcOf(s, p))
    ensures Lock in s.dir && s.dir[Lock] in s.inodes && s.inodes[s.dir[Lock]].content == IdText(who[p])
    ensures PcOf(s, p).FreeReading? ==> PcOf(s, p).ino == s.dir[Lock]
  {
    KnownOf(who, s, p);
  }

  /** The steps from holding the lock to having given it back. */
  lemma Released(who: seq<Process>, timeout: int, s: State, p: nat, c: Choice)
    requires p < |who| && Inv(who, s) && PcOf(s, p).Holding? && !c.error
    ensures var s1 := Step(who, timeout, s, p, c);
      var s2 := Step(who, timeout, s1, p, c);
      var s3 := Step(who, timeout, s2, p, c);
      var s4 := Step(who, timeout, s3, p, c);
      PcOf(s4, p).Idle? && Lock !in s4.dir
  {
    OwnerKnows(who, s, p);
    hide Inv;
    var ino := s.dir[Lock];
    var s1 := Step(who, timeout, s, p, c);
    assert s1 == Go(s, p, Freeing);
    var s2 := Step(who, timeout, s1, p, c);
    assert s2 == Go(s1, p, FreeReading(ino));
    var s3 := Step(who, timeout, s2, p, c);
    assert s3 == Go(s2, p, FreeRemoving);
  }

  /** The lock can be had: with no lock file there and no failing call, the process that has
      written its id holds the lock after three more of its steps, and after four of ll_mail_free
      the lock file is gone. */
  lemma Available(who: seq<Process>, timeout: int, s: State, p: nat, c: Choice)
    requires p < |who| && Distinct(who) && Inv(who, s) && PcOf(s, p).Linking? && Lock !in s.dir && !c.error
    ensures var s1 := Step(who, timeout, s, p, c);
      var s2 := Step(who, timeout, s1, p, c);
      var s3 := Step(who, timeout, s2, p, c);
      PcOf(s3, p).Holding?
      && var s4 := Step(who, timeout, s3, p, c);
         var s5 := Step(who, timeout, s4, p, c);
         var s6 := Step(who, timeout, s5, p, c);
         var s7 := Step(who, timeout, s6, p, c);
         PcOf(s7, p).Idle? && Lock !in s7.dir
  {
    hide Step, Inv, Distinct;
    Acquired(who, timeout, s, p, c);
    var s1 := Step(who, timeout, s, p, c);
    var s2 := Step(who, timeout, s1, p, c);
    Released(who, timeout, Step(who, timeout, s2, p, c), p, c);
  }

  // ----- what happens otherwise

  /** A run is safe from beginning to end exactly if it is normal. */
  lemma SafeExactly(who: seq<Process>, timeout: int, events: seq<Event>)
    requires Distinct(who) && forall k :: 0 <= k < |events| ==> events[k].p < |who|
    ensures NormalRun(who, timeout, events) <==> AlwaysSafe(who, timeout, events)
  {
    hide Safe, Run, Normal, Distinct;
    if NormalRun(who, timeout, events) {
      forall n | 0 <= n <= |events|
        ensures Safe(who, Run(who, timeout, events, n))
      {
        Safety(who, timeout, events, n);
      }
    }
    if AlwaysSafe(who, timeout, events) {
      SafeIsNormal(who, timeout, events, |events|);
    }
  }

  ghost predicate AlwaysSafe(who: seq<Process>, timeout: int, events: seq<Event>)
    requires forall k :: 0 <= k < |events| ==> events[k].p < |who|
  {
    forall n :: 0 <= n <= |events| ==> Safe(who, Run(who, timeout, events, n))
  }

  lemma {:induction false} SafeIsNormal(who: seq<Process>, timeout: int, events: seq<Event>, n: nat)
    requires n <= |events| && forall k :: 0 <= k < |events| ==> events[k].p < |who|
    requires Distinct(who) && AlwaysSafe(who, timeout, events)
    ensures Inv(who, Run(who, timeout, events, n))
    ensures forall k :: 0 <= k < n ==>
      Normal(who, timeout, Run(who, timeout, events, k), events[k].p, events[k].choice)
  {
    hide Inv, Step, Normal, Distinct, Safe;
    if n == 0 {
      InitialInv(who);
    } else {
      SafeIsNormal(who, timeout, events, n - 1);
      var s, e := Run(who, timeout, events, n - 1), events[n - 1];
      assert Safe(who, Run(who, timeout, events, n));
      SafeStep(who, timeout, s, e.p, e.choice);
      StepKeeps(who, timeout, s, e.p, e.choice);
    }
  }

  lemma SafeStep(who: seq<Process>, timeout: int, s: State, p: nat, c: Choice)
    requires p < |who| && Distinct(who) && Inv(who, s) && Safe(who, Step(who, timeout, s, p, c))
    ensures Normal(who, timeout, s, p, c)
  {
    hide Inv, Step, Distinct;
    if PcOf(s, p).Reading? {
      NotStale(who, timeout, s, p, c);
    }
  }

  /** n steps of process p alone. */
  function Steps(who: seq<Process>, timeout: int, s: State, p: nat, c: Choice, n: nat): State
    requires p < |who|
  {
    if n == 0 then s else Step(who, timeout, Steps(who, timeout, s, p, c, n - 1), p, c)
  }

  lemma StepsMore(who: seq<Process>, timeout: int, s: State, p: nat, c: Choice, n: nat)
    requires p < |who|
    ensures Steps(who, timeout, s, p, c, n + 1) == Step(who, timeout, Steps(who, timeout, s, p, c, n), p, c)
  {}

  lemma ThreeSteps(who: seq<Process>, timeout: int, s: State, p: nat, c: Choice)
    requires p < |who|
    ensures var s1 := Step(who, timeout, s, p, c);
      Steps(who, timeout, s, p, c, 3) == Step(who, timeout, Step(who, timeout, s1, p, c), p, c)
  {
    hide Step;
    StepsMore(who, timeout, s, p, c, 0);
    StepsMore(who, timeout, s, p, c, 1);
    StepsMore(who, timeout, s, p, c, 2);
  }

  lemma {:induction false} ThenSteps(who: seq<Process>, timeout: int, s: State, p: nat, c: Choice, m: nat, n: nat)
    requires p < |who|
    ensures Steps(who, timeout, s, p, c, m + n) == Steps(who, timeout, Steps(who, timeout, s, p, c, m), p, c, n)
  {
    hide Step;
    if n > 0 {
      ThenSteps(who, timeout, s, p, c, m, n - 1);
      StepsMore(who, timeout, s, p, c, m + n - 1);
    }
  }

  /** No call fails, kill finds every process, and a write takes the whole id. */
  function Smooth(me: Process): Choice {
    Choice(false, false, |IdText(me)|, 0, true)
  }

  /** The first three calls of try_dotlock: the temporary file is there, with the id in it. */
  lemma IdWritten(who: seq<Process>, timeout: int, s: State, p: nat)
    requires p < |who| && Files(s) && Temporaries(who, s) && PcOf(s, p).Idle?
    ensures var t := Steps(who, timeout, s, p, Smooth(who[p]), 3);
      && PcOf(t, p).Linking? && Tmp(p) in t.dir && t.dir[Tmp(p)] == PcOf(t, p).ino
      && t.pc == s.pc[p := PcOf(t, p)] && (Lock in t.dir <==> Lock in s.dir)
      && forall q: nat :: Tmp(q) in t.dir && t.dir[Tmp(q)] == t.dir[Tmp(p)] ==> q == p
  {
    var c := Smooth(who[p]);
    var s1 := Step(who, timeout, s, p, c);
    FileOpened(who, timeout, s, p, c);
    var ino := PcOf(s1, p).ino;
    var s2 := Step(who, timeout, s1, p, c);
    assert ino in s1.inodes;
    hide Files, Temporaries, Steps, Step;
    WrittenWhole(who, timeout, s1, p);
    ThreeSteps(who, timeout, s, p, c);
  }

  lemma WrittenWhole(who: seq<Process>, timeout: int, s: State, p: nat)
    requires p < |who| && PcOf(s, p).Writing? && PcOf(s, p).written == 0 && PcOf(s, p).ino in s.inodes
    ensures var ino := PcOf(s, p).ino;
      var t := Step(who, timeout, s, p, Smooth(who[p]));
      && t.dir == s.dir && t.pc == s.pc[p := Writing(ino, |IdText(who[p])|)]
      && Step(who, timeout, t, p, Smooth(who[p])) == Go(t, p, Linking(ino))
  {}

  lemma FileOpened(who: seq<Process>, timeout: int, s: State, p: nat, c: Choice)
    requires p < |who| && Files(s) && Temporaries(who, s) && PcOf(s, p).Idle? && !c.error
    ensures var t := Step(who, timeout, s, p, c);
      && Files(t) && Temporaries(who, t) && (Lock in t.dir <==> Lock in s.dir)
      && PcOf(t, p).Writing? && PcOf(t, p).written == 0 && t.pc == s.pc[p := PcOf(t, p)]
  {
    if Tmp(p) !in s.dir {
      CreateTidy(who, s, p, c.now);
    }
  }

  /** With no lock file there, try_dotlock takes six calls, and touches nobody else. */
  lemma TakenAgain(who: seq<Process>, timeout: int, s: State, p: nat)
    requires p < |who| && Files(s) && Temporaries(who, s) && Lock !in s.dir && PcOf(s, p).Idle?
    ensures Steps(who, timeout, s, p, Smooth(who[p]), 6).pc == s.pc[p := Holding]
  {
    hide Files, Temporaries, Step, Steps;
    var c := Smooth(who[p]);
    IdWritten(who, timeout, s, p);
    var t := Steps(who, timeout, s, p, c, 3);
    LinkTaken(who, timeout, t, p, c);
    ThreeSteps(who, timeout, t, p, c);
    ThenSteps(who, timeout, s, p, c, 3, 3);
  }

  lemma LinkTaken(who: seq<Process>, timeout: int, s: State, p: nat, c: Choice)
    requires p < |who| && PcOf(s, p).Linking? && Lock !in s.dir && !c.error
    requires Tmp(p) in s.dir && s.dir[Tmp(p)] == PcOf(s, p).ino
    requires forall q: nat :: Tmp(q) in s.dir && s.dir[Tmp(q)] == s.dir[Tmp(p)] ==> q == p
    ensures Step(who, timeout, Step(who, timeout, Step(who, timeout, s, p, c), p, c), p, c).pc == s.pc[p := Holding]
  {
    var s1 := Step(who, timeout, s, p, c);
    TwoNames(s1, p);
  }

  /** With a lock file there, six calls end before the one that reads it. */
  lemma ReadsOther(who: seq<Process>, timeout: int, s: State, p: nat)
    requires p < |who| && Files(s) && Temporaries(who, s) && Lock in s.dir && PcOf(s, p).Idle?
    ensures var t := Steps(who, timeout, s, p, Smooth(who[p]), 6);
      PcOf(t, p).Reading? && t.pc == s.pc[p := PcOf(t, p)]
  {
    hide Files, Temporaries, Step, Steps;
    var c := Smooth(who[p]);
    IdWritten(who, timeout, s, p);
    var t := Steps(who, timeout, s, p, c, 3);
    LinkMissed(who, timeout, t, p, c);
    ThreeSteps(who, timeout, t, p, c);
    ThenSteps(who, timeout, s, p, c, 3, 3);
  }

  lemma LinkMissed(who: seq<Process>, timeout: int, s: State, p: nat, c: Choice)
    requires p < |who| && PcOf(s, p).Linking? && Lock in s.dir && !c.error
    ensures Step(who, timeout, Step(who, timeout, Step(who, timeout, s, p, c), p, c), p, c).pc ==
      s.pc[p := Reading(s.dir[Lock])]
  {}

  /** Whenever a process that reads a lock file does not keep to the condition, the next seven of
      its steps can make it hold the lock, whoever else does. */
  lemma TwoOwners(who: seq<Process>, timeout: int, s: State, p: nat, c: Choice)
    requires p < |who| && Distinct(who) && Inv(who, s) && PcOf(s, p).Reading? && !Normal(who, timeout, s, p, c)
    ensures Steps(who, timeout, Step(who, timeout, s, p, c), p, Smooth(who[p]), 7).pc == s.pc[p := Holding]
  {
    hide Inv, Distinct, Normal, Files, Temporaries, Step, Steps;
    NotStale(who, timeout, s, p, c);
    Removal(who, timeout, s, p, c);
    Unlinked(who, s, p);
    var s0, ok := Step(who, timeout, s, p, c), Smooth(who[p]);
    var s1 := Step(who, timeout, s0, p, ok);
    NoSteps(who, timeout, s0, p, ok);
    StepsMore(who, timeout, s0, p, ok, 0);
    TakenAgain(who, timeout, s1, p);
    ThenSteps(who, timeout, s0, p, ok, 1, 6);
  }

  lemma Removal(who: seq<Process>, timeout: int, s: State, p: nat, c: Choice)
    requires p < |who| && PcOf(s, p).Reading? && LooksStale(who, timeout, s, p, PcOf(s, p).ino, c)
    ensures Step(who, timeout, s, p, c) == Go(s, p, Removing)
    ensures Step(who, timeout, Go(s, p, Removing), p, Smooth(who[p])) == Go(Unlink(Go(s, p, Removing), Lock), p, Idle)
  {
    hide LooksStale, IdText;
  }

  lemma NoSteps(who: seq<Process>, timeout: int, s: State, p: nat, c: Choice)
    requires p < |who|
    ensures Steps(who, timeout, s, p, c, 0) == s
  {}

  lemma Unlinked(who: seq<Process>, s: State, p: nat)
    requires p < |who| && Inv(who, s) && PcOf(s, p).Reading?
    ensures var t := Go(Unlink(Go(s, p, Removing), Lock), p, Idle); Files(t) && Temporaries(who, t)
  {}

  // ----- a run with two holders

  ghost predicate AllNew(s: State) {
    forall i :: i in s.inodes ==> s.inodes[i].mtime == 0
  }

  lemma {:induction false} SmoothKeeps(who: seq<Process>, timeout: nat, s: State, p: nat, n: nat)
    requires p < |who| && Distinct(who) && Inv(who, s) && AllNew(s)
    ensures var t := Steps(who, timeout, s, p, Smooth(who[p]), n); Inv(who, t) && AllNew(t)
  {
    hide Inv, Distinct, Step, AllNew;
    if n > 0 {
      SmoothKeeps(who, timeout, s, p, n - 1);
      SmoothStep(who, timeout, Steps(who, timeout, s, p, Smooth(who[p]), n - 1), p);
    }
  }

  lemma SmoothStep(who: seq<Process>, timeout: nat, s: State, p: nat)
    requires p < |who| && Distinct(who) && Inv(who, s) && AllNew(s)
    ensures var t := Step(who, timeout, s, p, Smooth(who[p])); Inv(who, t) && AllNew(t)
  {
    hide Inv, Distinct;
    StepKeeps(who, timeout, s, p, Smooth(who[p]));
  }

  /** The lock file cannot be read, and the timeout is over since it was written. */
  function Unreadable(timeout: nat): Choice {
    Choice(true, false, 0, timeout + 1, true)
  }

  /** Process 0 takes the lock; process 1 finds the lock file, cannot read it, and goes on. */
  function TwoHolders(who: seq<Process>, timeout: nat): seq<Event>
    requires |who| >= 2
  {
    seq(6, _ => Event(0, Smooth(who[0]))) + seq(6, _ => Event(1, Smooth(who[1])))
    + [Event(1, Unreadable(timeout))] + seq(7, _ => Event(1, Smooth(who[1])))
  }

  /** No process dies, all may be of one host, and in the end both hold the lock. */
  lemma LockLost(who: seq<Process>, timeout: nat)
    requires Distinct(who) && |who| >= 2 && timeout > 0
    ensures var events := TwoHolders(who, timeout);
      && |events| == 20 && (forall k :: 0 <= k < 20 ==> events[k].p < 2 && events[k].choice.alive)
      && PcOf(Run(who, timeout, events, 20), 0).Holding? && PcOf(Run(who, timeout, events, 20), 1).Holding?
  {
    hide Step, Steps, Run, Inv, Distinct, Files, Temporaries;
    var events := TwoHolders(who, timeout);
    var ok0, ok1, bad := Smooth(who[0]), Smooth(who[1]), Unreadable(timeout);
    InitialTidy(who);
    TakenAgain(who, timeout, INITIAL, 0);
    SmoothKeeps(who, timeout, INITIAL, 0, 6);
    var s := Steps(who, timeout, INITIAL, 0, ok0, 6);
    HolderKnows(who, s, 0);
    ReadsOther(who, timeout, s, 1);
    SmoothKeeps(who, timeout, s, 1, 6);
    var t := Steps(who, timeout, s, 1, ok1, 6);
    OldUnreadable(who, timeout, t, 1);
    TwoOwners(who, timeout, t, 1, bad);
    RunStart(who, timeout, events);
    RunSteps(who, timeout, events, 0, 0, ok0, 6);
    RunSteps(who, timeout, events, 6, 1, ok1, 6);
    RunStep(who, timeout, events, 12);
    RunSteps(who, timeout, events, 13, 1, ok1, 7);
  }

  lemma InitialTidy(who: seq<Process>)
    ensures Files(INITIAL) && Temporaries(who, INITIAL) && Inv(who, INITIAL) && AllNew(INITIAL)
  {}

  lemma HolderKnows(who: seq<Process>, s: State, p: nat)
    requires p < |who| && Inv(who, s) && PcOf(s, p).Holding?
    ensures Lock in s.dir && Files(s) && Temporaries(who, s)
  {
    KnownOf(who, s, p);
  }

  lemma OldUnreadable(who: seq<Process>, timeout: nat, s: State, p: nat)
    requires p < |who| && Distinct(who) && Inv(who, s) && AllNew(s) && PcOf(s, p).Reading? && timeout > 0
    ensures !Normal(who, timeout, s, p, Unreadable(timeout))
  {
    hide Distinct, Normal;
    NotStale(who, timeout, s, p, Unreadable(timeout));
    assert Local(who, s, p);
  }

  lemma RunStart(who: seq<Process>, timeout: int, events: seq<Event>)
    requires forall k :: 0 <= k < |events| ==> events[k].p < |who|
    ensures Run(who, timeout, events, 0) == INITIAL
  {}

  lemma RunStep(who: seq<Process>, timeout: int, events: seq<Event>, n: nat)
    requires n < |events| && forall k :: 0 <= k < |events| ==> events[k].p < |who|
    ensures Run(who, timeout, events, n + 1) ==
      Step(who, timeout, Run(who, timeout, events, n), events[n].p, events[n].choice)
  {}

  lemma {:induction false} RunSteps(
      who: seq<Process>, timeout: int, events: seq<Event>, m: nat, p: nat, c: Choice, n: nat)
    requires p < |who| && m + n <= |events| && forall k :: 0 <= k < |events| ==> events[k].p < |who|
    requires forall k :: m <= k < m + n ==> events[k] == Event(p, c)
    ensures Run(who, timeout, events, m + n) == Steps(who, timeout, Run(who, timeout, events, m), p, c, n)
  {
    hide Step, Run;
    if n > 0 {
      RunSteps(who, timeout, events, m, p, c, n - 1);
      RunStep(who, timeout, events, m + n - 1);
    }
  }
}
