/** The timers of the calendar daemon, wmail/pcp/pcpdtimer.c: a doubly linked list in the order of
    their alarms.  An alarm of zero means that the timer is not installed. */
module TimerQueue {
  import opened CStrings
  import opened Links

  // ----- what the queue holds

  datatype Entry<T> = Entry(id: T, alarm: int)

  function Remove<T(==)>(q: seq<Entry<T>>, id: T): seq<Entry<T>> {
    if q == [] then []
    else if q[0].id == id then Remove(q[1..], id)
    else [q[0]] + Remove(q[1..], id)
  }

  /** Before the first later alarm. */
  function Insert<T>(q: seq<Entry<T>>, e: Entry<T>): seq<Entry<T>> {
    if q == [] || q[0].alarm > e.alarm then [e] + q else [q[0]] + Insert(q[1..], e)
  }

  ghost predicate Sorted<T>(q: seq<Entry<T>>) {
    forall i, j :: 0 <= i < j < |q| ==> q[i].alarm <= q[j].alarm
  }

  ghost predicate AllFrom<T>(q: seq<Entry<T>>, a: int) {
    forall k :: 0 <= k < |q| ==> q[k].alarm >= a
  }

  lemma SortedStep<T>(q: seq<Entry<T>>)
    requires q != []
    ensures Sorted(q) <==> Sorted(q[1..]) && AllFrom(q[1..], q[0].alarm)
  {
    assert q == [q[0]] + q[1..];
  }

  lemma {:induction false} RemoveSorted<T>(q: seq<Entry<T>>, id: T, a: int)
    requires Sorted(q) && AllFrom(q, a)
    ensures Sorted(Remove(q, id)) && AllFrom(Remove(q, id), a)
  {
    if q != [] {
      SortedStep(q);
      RemoveSorted(q[1..], id, q[0].alarm);
      var r := Remove(q, id);
      if q[0].id != id {
        assert r[1..] == Remove(q[1..], id);
        SortedStep(r);
      }
    }
  }

  lemma {:induction false} InsertSorted<T>(q: seq<Entry<T>>, e: Entry<T>, a: int)
    requires Sorted(q) && AllFrom(q, a) && e.alarm >= a
    ensures Sorted(Insert(q, e)) && AllFrom(Insert(q, e), a)
  {
    var r := Insert(q, e);
    if q == [] || q[0].alarm > e.alarm {
      assert r[1..] == q;
      SortedStep(r);
    } else {
      SortedStep(q);
      InsertSorted(q[1..], e, q[0].alarm);
      assert r[1..] == Insert(q[1..], e);
      SortedStep(r);
    }
  }

  // ----- what it is to hold

  datatype Event<T> = Install(id: T, alarm: int) | Triggered(id: T)

  function Step<T(==)>(q: seq<Entry<T>>, e: Event<T>): seq<Entry<T>> {
    match e
    case Install(id, alarm) => Insert(Remove(q, id), Entry(id, alarm))
    case Triggered(id) => Remove(q, id)
  }

  function Queue<T(==)>(events: seq<Event<T>>): seq<Entry<T>> {
    if events == [] then [] else Step(Queue(events[..|events| - 1]), events[|events| - 1])
  }

  /** The timers that are installed, in the order of their installation. */
  function Log<T(==)>(events: seq<Event<T>>): seq<Entry<T>> {
    if events == [] then []
    else
      var e := events[|events| - 1];
      var log := Remove(Log(events[..|events| - 1]), e.id);
      if e.Install? then log + [Entry(e.id, e.alarm)] else log
  }

  /** Those whose alarm is at a certain time. */
  function At<T>(q: seq<Entry<T>>, a: int): seq<Entry<T>> {
    if q == [] then [] else if q[0].alarm == a then [q[0]] + At(q[1..], a) else At(q[1..], a)
  }

  lemma {:induction false} AtRemove<T>(q: seq<Entry<T>>, id: T, a: int)
    ensures At(Remove(q, id), a) == Remove(At(q, a), id)
  {
    if q != [] {
      AtRemove(q[1..], id, a);
      if q[0].id != id {
        assert Remove(q, id)[1..] == Remove(q[1..], id);
      }
      if q[0].alarm == a {
        assert At(q, a)[1..] == At(q[1..], a);
      }
    }
  }

  lemma {:induction false} AtLater<T>(q: seq<Entry<T>>, a: int, b: int)
    requires AllFrom(q, b) && a < b
    ensures At(q, a) == []
  {
    if q != [] {
      AtLater(q[1..], a, b);
    }
  }

  lemma {:induction false} AtInsert<T>(q: seq<Entry<T>>, e: Entry<T>, a: int)
    requires Sorted(q)
    ensures At(Insert(q, e), a) == if e.alarm == a then At(q, a) + [e] else At(q, a)
  {
    if q == [] {
      assert [e][1..] == [];
      assert [e] + q == [e];
    } else {
      SortedStep(q);
      if q[0].alarm > e.alarm {
        assert ([e] + q)[1..] == q;
        if e.alarm == a {
          AtLater(q, a, q[0].alarm);
        }
      } else {
        AtInsert(q[1..], e, a);
        assert Insert(q, e)[1..] == Insert(q[1..], e);
      }
    }
  }

  lemma {:induction false} AtSnoc<T>(q: seq<Entry<T>>, e: Entry<T>, a: int)
    ensures At(q + [e], a) == if e.alarm == a then At(q, a) + [e] else At(q, a)
  {
    if q == [] {
      assert q + [e] == [e] && [e][1..] == [];
    } else {
      assert (q + [e])[1..] == q[1..] + [e];
      AtSnoc(q[1..], e, a);
    }
  }

  lemma Lowest<T>(q: seq<Entry<T>>) returns (a: int)
    ensures AllFrom(q, a)
    decreases |q|
  {
    a := 0;
    if q != [] {
      a := Lowest(q[1..]);
      a := if q[0].alarm < a then q[0].alarm else a;
    }
  }

  lemma StepSorted<T>(q: seq<Entry<T>>, e: Event<T>)
    requires Sorted(q)
    ensures Sorted(Step(q, e)) && Sorted(Remove(q, e.id))
  {
    hide Remove, Insert, Sorted, AllFrom;
    var a := Lowest(q);
    RemoveSorted(q, e.id, a);
    if e.Install? {
      var r := Remove(q, e.id);
      var b := Lowest(r);
      var low := if e.alarm < b then e.alarm else b;
      LowerBound(r, b, low);
      InsertSorted(r, Entry(e.id, e.alarm), low);
    }
  }

  lemma LowerBound<T>(q: seq<Entry<T>>, b: int, low: int)
    requires AllFrom(q, b) && low <= b
    ensures AllFrom(q, low)
  {}

  /** After any events the queue is in the order of the alarms, and for every time it holds the
      timers for that time in the order in which they were installed. */
  lemma {:induction false} QueueIsLogSorted<T>(events: seq<Event<T>>)
    ensures Sorted(Queue(events)) && forall a :: At(Queue(events), a) == At(Log(events), a)
  {
    hide Sorted, Remove, Insert, At;
    if events == [] {
      NothingSorted<T>();
    } else {
      var before := events[..|events| - 1];
      var e := events[|events| - 1];
      QueueIsLogSorted(before);
      StepSorted(Queue(before), e);
      forall a
        ensures At(Queue(events), a) == At(Log(events), a)
      {
        AtRemove(Queue(before), e.id, a);
        AtRemove(Log(before), e.id, a);
        if e.Install? {
          AtInsert(Remove(Queue(before), e.id), Entry(e.id, e.alarm), a);
          AtSnoc(Remove(Log(before), e.id), Entry(e.id, e.alarm), a);
        }
      }
    }
  }

  lemma NothingSorted<T>()
    ensures Sorted<T>([])
  {}

  /** The alarms that a queue has for a timer. */
  function Alarms<T(==)>(q: seq<Entry<T>>, id: T): seq<int> {
    if q == [] then [] else (if q[0].id == id then [q[0].alarm] else []) + Alarms(q[1..], id)
  }

  /** The alarm of a timer whose last event was its installation. */
  function Armed<T(==)>(events: seq<Event<T>>, id: T): Option<int> {
    if events == [] then None
    else
      var e := events[|events| - 1];
      if e.id != id then Armed(events[..|events| - 1], id)
      else if e.Install? then Some(e.alarm)
      else None
  }

  lemma {:induction false} AlarmsRemove<T>(q: seq<Entry<T>>, gone: T, id: T)
    ensures Alarms(Remove(q, gone), id) == if id == gone then [] else Alarms(q, id)
  {
    if q != [] {
      AlarmsRemove(q[1..], gone, id);
      if q[0].id != gone {
        assert Remove(q, gone)[1..] == Remove(q[1..], gone);
      }
    }
  }

  lemma {:induction false} AlarmsInsert<T>(q: seq<Entry<T>>, e: Entry<T>, id: T)
    requires Alarms(q, e.id) == []
    ensures Alarms(Insert(q, e), id) == if id == e.id then [e.alarm] else Alarms(q, id)
  {
    if q == [] || q[0].alarm > e.alarm {
      assert ([e] + q)[1..] == q;
    } else {
      AlarmsInsert(q[1..], e, id);
      assert Insert(q, e)[1..] == Insert(q[1..], e);
    }
  }

  /** Exactly the timers are in the queue whose last event was their installation, once each and
      with that alarm. */
  lemma {:induction false} QueueIsArmed<T>(events: seq<Event<T>>, id: T)
    ensures Alarms(Queue(events), id) == if Armed(events, id).Some? then [Armed(events, id).value] else []
  {
    if events != [] {
      var before := events[..|events| - 1];
      var e := events[|events| - 1];
      var q := Queue(before);
      QueueIsArmed(before, id);
      AlarmsRemove(q, e.id, id);
      AlarmsRemove(q, e.id, e.id);
      if e.Install? {
        AlarmsInsert(Remove(q, e.id), Entry(e.id, e.alarm), id);
      }
    }
  }

  // ----- the program

  /** struct pcpdtimer, with its alarm; and first_timer and last_timer. */
  type Timer = Node<int>

  type Timers = List<int>

  ghost function EntriesOf(nodes: seq<Timer>): (q: seq<Entry<Timer>>)
    reads nodes
    ensures |q| == |nodes| && forall k :: 0 <= k < |nodes| ==> q[k] == Entry(nodes[k], nodes[k].data)
  {
    if nodes == [] then [] else [Entry(nodes[0], nodes[0].data)] + EntriesOf(nodes[1..])
  }

  ghost function Entries(q: Timers): seq<Entry<Timer>>
    reads q, q.spine
  {
    EntriesOf(q.spine)
  }

  ghost predicate Valid(q: Timers)
    reads q, q.spine
  {
    q.Linked() && Good(Entries(q))
  }

  ghost predicate Good<T>(q: seq<Entry<T>>) {
    Sorted(q) && forall k :: 0 <= k < |q| ==> q[k].alarm != 0
  }

  lemma {:induction false} RemoveGood<T>(q: seq<Entry<T>>, id: T)
    requires Good(q)
    ensures Good(Remove(q, id))
  {
    StepSorted(q, Triggered(id));
    RemoveSome(q, id);
  }

  lemma {:induction false} RemoveSome<T>(q: seq<Entry<T>>, id: T)
    ensures forall k :: 0 <= k < |Remove(q, id)| ==> Remove(q, id)[k] in q
  {
    if q != [] {
      RemoveSome(q[1..], id);
    }
  }

  lemma InsertGood<T>(q: seq<Entry<T>>, e: Entry<T>)
    requires Good(q) && e.alarm != 0
    ensures Good(Insert(q, e))
  {
    InsertKeeps(q, e);
    InsertSome(q, e);
  }

  lemma GoodInsert<T>(q: seq<Entry<T>>, e: Entry<T>)
    requires Good(q)
    ensures Good(Insert(q, e)) <==> e.alarm != 0
  {
    if e.alarm != 0 {
      InsertGood(q, e);
    } else {
      InsertHas(q, e);
    }
  }

  lemma {:induction false} InsertHas<T>(q: seq<Entry<T>>, e: Entry<T>)
    ensures e in Insert(q, e)
  {
    if q != [] && q[0].alarm <= e.alarm {
      InsertHas(q[1..], e);
    }
  }

  lemma {:induction false} InsertSome<T>(q: seq<Entry<T>>, e: Entry<T>)
    ensures forall k :: 0 <= k < |Insert(q, e)| ==> Insert(q, e)[k] == e || Insert(q, e)[k] in q
  {
    if q != [] && q[0].alarm <= e.alarm {
      InsertSome(q[1..], e);
    }
  }

  /** The alarm tells whether the timer is in the queue. */
  ghost predicate Known(q: Timers, p: Timer)
    reads q, p
  {
    p in q.spine <==> p.data != 0
  }

  lemma {:induction false} RemoveAbsent<T>(q: seq<Entry<T>>, id: T)
    requires forall k :: 0 <= k < |q| ==> q[k].id != id
    ensures Remove(q, id) == q
  {
    if q != [] {
      RemoveAbsent(q[1..], id);
    }
  }

  lemma {:induction false} RemoveAt<T>(q: seq<Entry<T>>, k: nat)
    requires k < |q| && forall i :: 0 <= i < |q| && i != k ==> q[i].id != q[k].id
    ensures Remove(q, q[k].id) == Without(q, k)
  {
    if k == 0 {
      RemoveAbsent(q[1..], q[0].id);
      assert Without(q, 0) == q[1..];
    } else {
      assert q[1..][k - 1] == q[k];
      RemoveAt(q[1..], k - 1);
      assert Without(q, k) == [q[0]] + Without(q[1..], k - 1);
    }
  }

  lemma {:induction false} InsertAt<T>(q: seq<Entry<T>>, e: Entry<T>, k: nat)
    requires k <= |q| && (forall i :: 0 <= i < k ==> q[i].alarm <= e.alarm) && (k < |q| ==> q[k].alarm > e.alarm)
    ensures Insert(q, e) == With(q, k, e)
  {
    if k == 0 {
      assert With(q, 0, e) == [e] + q;
    } else {
      InsertAt(q[1..], e, k - 1);
      assert With(q, k, e) == [q[0]] + With(q[1..], k - 1, e);
    }
  }

  method Detach(q: Timers, p: Timer, ghost k: nat)
    requires q.Linked() && k < |q.spine| && q.spine[k] == p
    modifies q, q.spine`next, q.spine`prev
    ensures q.Linked() && q.spine == Without(old(q.spine), k)
    ensures Entries(q) == Without(old(Entries(q)), k)
  {
    hide Distinct, Wired, EntriesOf, Without;
    q.Unlink(p, k);
  }

  method SetAlarm(q: Timers, p: Timer, alarm: int)
    requires q.Linked() && p !in q.spine
    modifies p`data
    ensures q.Linked() && Entries(q) == old(Entries(q)) && p.data == alarm
  {
    hide Distinct;
    ghost var before := Entries(q);
    p.data := alarm;
    assert Entries(q) == before;
  }

  lemma OnlyAt(nodes: seq<Timer>, k: nat)
    requires Distinct(nodes) && k < |nodes|
    ensures Remove(EntriesOf(nodes), nodes[k]) == Without(EntriesOf(nodes), k)
    ensures nodes[k] !in Without(nodes, k)
  {
    hide Remove, EntriesOf;
    Apart(nodes, k);
    RemoveAt(EntriesOf(nodes), k);
    MovedAway(nodes, k);
  }

  lemma DistinctSpine(q: Timers)
    requires q.Linked()
    ensures Distinct(q.spine)
  {}

  lemma WithoutIn<T>(s: seq<T>, k: nat)
    requires k < |s|
    ensures forall i :: 0 <= i < |Without(s, k)| ==> Without(s, k)[i] in s
  {}

  method TakeOutAt(q: Timers, p: Timer, alarm: int, ghost k: nat)
    requires q.Linked() && k < |q.spine| && q.spine[k] == p
    modifies q, q.spine`next, q.spine`prev, p`data
    ensures q.Linked() && p !in q.spine && Entries(q) == Remove(old(Entries(q)), p) && p.data == alarm
    ensures forall i :: 0 <= i < |q.spine| ==> q.spine[i] in old(q.spine)
  {
    DistinctSpine(q);
    hide Distinct, Wired, Remove, EntriesOf, List.Linked, Without;
    ghost var was, before := q.spine, Entries(q);
    OnlyAt(was, k);
    WithoutIn(was, k);
    Detach(q, p, k);
    assert q.spine == Without(was, k) && Entries(q) == Without(before, k);
    SetAlarm(q, p, alarm);
  }

  /** Takes a timer out of the queue, and gives its alarm another value. */
  method TakeOut(q: Timers, p: Timer, alarm: int)
    requires Valid(q) && p in q.spine
    modifies q, q.spine`next, q.spine`prev, p`data
    ensures Valid(q) && p !in q.spine && Entries(q) == Remove(old(Entries(q)), p) && p.data == alarm
    ensures forall k :: 0 <= k < |q.spine| ==> q.spine[k] in old(q.spine)
  {
    hide Good, Remove, EntriesOf, List.Linked;
    ghost var k :| 0 <= k < |q.spine| && q.spine[k] == p;
    RemoveGood(Entries(q), p);
    TakeOutAt(q, p, alarm, k);
  }

  /** The first timer with a later alarm. */
  method FindLater(q: Timers, alarm: int) returns (t: Node?<int>, ghost i: nat)
    requires Valid(q)
    ensures i <= |q.spine| && t == NodeAt(q.spine, i)
    ensures (forall k :: 0 <= k < i ==> q.spine[k].data <= alarm) && (t != null ==> t.data > alarm)
  {
    hide Good, Distinct, EntriesOf;
    t, i := q.first, 0;
    while t != null
      invariant i <= |q.spine| && t == NodeAt(q.spine, i)
      invariant forall k :: 0 <= k < i ==> q.spine[k].data <= alarm
      decreases |q.spine| - i
    {
      if t.data > alarm {
        return;
      }
      NextOf(q.spine, i);
      t := t.next;
      i := i + 1;
    }
  }

  method Attach(q: Timers, p: Timer, t: Node?<int>, ghost i: nat)
    requires q.Linked() && p !in q.spine && i <= |q.spine| && t == NodeAt(q.spine, i)
    requires t == null ==> i == |q.spine|
    modifies q, q.spine`next, q.spine`prev, p`next, p`prev
    ensures q.Linked() && q.spine == With(old(q.spine), i, p)
    ensures Entries(q) == With(old(Entries(q)), i, Entry(p, p.data))
  {
    hide Distinct, Wired, EntriesOf, List.Linked;
    if t == null {
      q.Append(p);
      assert q.spine == With(old(q.spine), i, p);
    } else {
      q.InsertBefore(p, t, i);
    }
  }

  method PutIn(q: Timers, p: Timer)
    requires Valid(q) && p !in q.spine
    modifies q, q.spine`next, q.spine`prev, p`next, p`prev
    ensures q.Linked() && p in q.spine && Entries(q) == Insert(old(Entries(q)), Entry(p, p.data))
  {
    ghost var before, e := Entries(q), Entry(p, p.data);
    var t;
    ghost var i;
    t, i := FindLater(q, p.data);
    InsertAt(before, e, i);
    hide Good, Insert, EntriesOf, List.Linked, With;
    Attach(q, p, t, i);
    assert q.spine[i] == p;
  }

  lemma InsertKeeps<T>(q: seq<Entry<T>>, e: Entry<T>)
    requires Sorted(q)
    ensures Sorted(Insert(q, e))
  {
    var a := Lowest(q);
    LowerBound(q, a, if e.alarm < a then e.alarm else a);
    InsertSorted(q, e, if e.alarm < a then e.alarm else a);
  }

  /** pcpdtimer_install, at the time now.  An alarm time of 0 would leave the timer in the queue
      but marked as not installed. */
  method PcpdTimerInstall(q: Timers, p: Timer, nseconds: int, now: int)
    requires Valid(q) && Known(q, p)
    modifies q, q.spine`next, q.spine`prev, p
    ensures q.Linked() && p in q.spine && p.data == now + nseconds
    ensures Entries(q) == Step(old(Entries(q)), Install(p, now + nseconds))
    ensures (Valid(q) <==> now + nseconds != 0) && (Known(q, p) <==> now + nseconds != 0)
  {
    hide Good, Insert, Remove, List.Linked;
    if p.data != 0 {
      TakeOut(q, p, now + nseconds);
    } else {
      RemoveAbsent(Entries(q), p);
      ghost var before := Entries(q);
      p.data := now + nseconds;
      assert Entries(q) == before;
    }
    GoodInsert(Entries(q), Entry(p, p.data));
    PutIn(q, p);
  }

  /** pcpdtimer_triggered. */
  method PcpdTimerTriggered(q: Timers, p: Timer)
    requires Valid(q) && Known(q, p)
    modifies q, q.spine`next, q.spine`prev, p
    ensures Valid(q) && Known(q, p) && p.data == 0
    ensures Entries(q) == Step(old(Entries(q)), Triggered(p))
  {
    hide Good, Insert, Remove, List.Linked;
    if p.data == 0 {
      RemoveAbsent(Entries(q), p);
      return;
    }
    TakeOut(q, p, 0);
  }

  // ----- a run of the daemon

  datatype Call = InstallCall(timer: Timer, nseconds: int, now: int) | TriggeredCall(timer: Timer)

  function EventOf(c: Call): Event<Timer> {
    match c
    case InstallCall(p, nseconds, now) => Install(p, now + nseconds)
    case TriggeredCall(p) => Triggered(p)
  }

  ghost function EventsOf(calls: seq<Call>): (events: seq<Event<Timer>>)
    ensures |events| == |calls| && forall k :: 0 <= k < |calls| ==> events[k] == EventOf(calls[k])
  {
    if calls == [] then [] else EventsOf(calls[..|calls| - 1]) + [EventOf(calls[|calls| - 1])]
  }

  /** The call is about a timer of the daemon, and sets no alarm to the time 0. */
  ghost predicate Proper(c: Call, pool: set<Timer>) {
    c.timer in pool && (c.InstallCall? ==> c.now + c.nseconds != 0)
  }

  /** The queue holds timers of the daemon, and of every one the alarm tells whether it is there. */
  ghost predicate AllKnown(q: Timers, pool: set<Timer>)
    reads q, pool
  {
    && (forall k :: 0 <= k < |q.spine| ==> q.spine[k] in pool)
    && forall p :: p in pool ==> Known(q, p)
  }

  lemma {:induction false} AlarmsOfHeld<T>(q: seq<Entry<T>>, id: T)
    ensures Alarms(q, id) != [] <==> exists k :: 0 <= k < |q| && q[k].id == id
  {
    if q != [] {
      AlarmsOfHeld(q[1..], id);
      if exists k :: 0 <= k < |q[1..]| && q[1..][k].id == id {
        var k :| 0 <= k < |q[1..]| && q[1..][k].id == id;
        assert q[k + 1].id == id;
      }
      if exists k :: 0 < k < |q| && q[k].id == id {
        var k :| 0 < k < |q| && q[k].id == id;
        assert q[1..][k - 1].id == id;
      }
    }
  }

  ghost predicate Of(q: seq<Entry<Timer>>, nodes: seq<Timer>) {
    |q| == |nodes| && forall k :: 0 <= k < |nodes| ==> q[k].id == nodes[k]
  }

  lemma HeldAlarms(nodes: seq<Timer>, q: seq<Entry<Timer>>, n: Timer)
    requires Of(q, nodes)
    ensures n in nodes <==> Alarms(q, n) != []
  {
    hide Alarms;
    AlarmsOfHeld(q, n);
    if n in nodes {
      var k :| 0 <= k < |nodes| && nodes[k] == n;
      assert q[k].id == n;
    }
  }

  /** An event changes nothing for other timers. */
  lemma StepAlarms<T>(q: seq<Entry<T>>, e: Event<T>, id: T)
    requires id != e.id
    ensures Alarms(Step(q, e), id) == Alarms(q, id)
  {
    AlarmsRemove(q, e.id, id);
    AlarmsRemove(q, e.id, e.id);
    if e.Install? {
      AlarmsInsert(Remove(q, e.id), Entry(e.id, e.alarm), id);
    }
  }

  lemma OthersStay(was: seq<Timer>, before: seq<Entry<Timer>>, nodes: seq<Timer>, e: Event<Timer>)
    requires Of(before, was) && Of(Step(before, e), nodes)
    ensures SameBut(was, nodes, e.id)
  {
    hide Step, Alarms, Of;
    forall n | n in nodes || n in was
      ensures n == e.id || (n in nodes && n in was)
    {
      HeldAlarms(was, before, n);
      HeldAlarms(nodes, Step(before, e), n);
      if n != e.id {
        StepAlarms(before, e, n);
      }
    }
  }

  /** The timers but p, when these are in the queue. */
  ghost predicate Matches(was: seq<Timer>, pool: set<Timer>, p: Timer)
    reads pool
  {
    (forall n :: n in was ==> n in pool) && forall n :: n in pool && n != p ==> (n in was <==> n.data != 0)
  }

  ghost predicate SameBut(was: seq<Timer>, nodes: seq<Timer>, p: Timer) {
    (forall n :: n in nodes ==> n == p || n in was) && forall n :: n in was ==> n == p || n in nodes
  }

  lemma KnownBefore(q: Timers, pool: set<Timer>, p: Timer)
    requires AllKnown(q, pool) && p in pool
    ensures Matches(q.spine, pool, p) && Known(q, p)
  {}

  lemma StillKnown(q: Timers, pool: set<Timer>, was: seq<Timer>, p: Timer)
    requires p in pool && Known(q, p) && Matches(was, pool, p) && SameBut(was, q.spine, p)
    ensures AllKnown(q, pool)
  {}

  method Dispatch(q: Timers, c: Call)
    requires Valid(q) && Known(q, c.timer) && (c.InstallCall? ==> c.now + c.nseconds != 0)
    modifies q, q.spine`next, q.spine`prev, c.timer
    ensures Valid(q) && Known(q, c.timer)
    ensures Entries(q) == Step(old(Entries(q)), EventOf(c))
  {
    hide Step, List.Linked, EntriesOf, Good;
    match c {
      case InstallCall(p, nseconds, now) =>
        PcpdTimerInstall(q, p, nseconds, now);
      case TriggeredCall(p) =>
        PcpdTimerTriggered(q, p);
    }
  }

  method DispatchIn(q: Timers, c: Call, pool: set<Timer>)
    requires Valid(q) && Known(q, c.timer) && Proper(c, pool) && Matches(q.spine, pool, c.timer)
    modifies q, pool
    ensures Valid(q) && Known(q, c.timer) && Matches(old(q.spine), pool, c.timer)
    ensures Entries(q) == Step(old(Entries(q)), EventOf(c))
  {
    hide Step, Valid, EntriesOf, EventOf, Known;
    Dispatch(q, c);
  }

  method MakeCall(q: Timers, c: Call, pool: set<Timer>)
    requires Valid(q) && AllKnown(q, pool) && Proper(c, pool)
    modifies q, pool
    ensures Valid(q) && AllKnown(q, pool)
    ensures Entries(q) == Step(old(Entries(q)), EventOf(c))
  {
    hide Step, Valid, EntriesOf, AllKnown, EventOf, Known, Matches, SameBut, Of;
    ghost var was, before := q.spine, Entries(q);
    KnownBefore(q, pool, c.timer);
    EntriesMatch(was);
    DispatchIn(q, c, pool);
    EntriesMatch(q.spine);
    EventTimer(c);
    OthersStay(was, before, q.spine, EventOf(c));
    StillKnown(q, pool, was, c.timer);
  }

  lemma EntriesMatch(nodes: seq<Timer>)
    ensures Of(EntriesOf(nodes), nodes)
  {}

  lemma EventTimer(c: Call)
    ensures EventOf(c).id == c.timer
  {}

  /** Any sequence of calls on an empty queue leaves a well-formed doubly linked list that is the
      queue of those events. */
  method RunAll(q: Timers, calls: seq<Call>, pool: set<Timer>)
    requires q.Linked() && q.spine == [] && forall p :: p in pool ==> p.data == 0
    requires forall k :: 0 <= k < |calls| ==> Proper(calls[k], pool)
    modifies q, pool
    ensures Valid(q) && AllKnown(q, pool)
    ensures Entries(q) == Queue(EventsOf(calls))
  {
    hide Queue, List.Linked, Good;
    GoodNothing();
    for k := 0 to |calls|
      invariant Valid(q) && AllKnown(q, pool)
      invariant Entries(q) == Queue(EventsOf(calls[..k]))
    {
      EventsSnoc(calls, k);
      MakeCall(q, calls[k], pool);
    }
    assert calls[..|calls|] == calls;
  }

  lemma GoodNothing()
    ensures Good<Timer>([]) && Queue<Timer>([]) == []
  {}

  lemma EventsSnoc(calls: seq<Call>, k: nat)
    requires k < |calls|
    ensures Queue(EventsOf(calls[..k + 1])) == Step(Queue(EventsOf(calls[..k])), EventOf(calls[k]))
  {
    hide Step;
    var events := EventsOf(calls[..k + 1]);
    assert calls[..k + 1][..k] == calls[..k];
    assert events[..k] == EventsOf(calls[..k]);
  }
}
