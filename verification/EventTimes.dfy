/** The times of an event, wmail/pcp/pcpaddcommon.c: sorted through pointers, here indices, and
    accepted if no two of them overlap. */
module EventTimes {
  import opened CStrings

  datatype Time = Time(start: int, end: int)

  /** compar_times. */
  function ComparTimes(a: Time, b: Time): (n: int)
    ensures -1 <= n <= 1
  {
    if a.start < b.start then -1
    else if a.start > b.start then 1
    else if a.end < b.end then -1
    else if a.end > b.end then 1
    else 0
  }

  lemma ComparOrder(a: Time, b: Time, c: Time)
    ensures ComparTimes(a, b) == -ComparTimes(b, a)
    ensures ComparTimes(a, b) <= 0 && ComparTimes(b, c) <= 0 ==> ComparTimes(a, c) <= 0
    ensures ComparTimes(a, b) == 0 <==> a == b
  {}

  /** Neither begins before the other has ended, or the other way round; they may touch. */
  predicate Disjoint(a: Time, b: Time) {
    a.end <= b.start || b.end <= a.start
  }

  ghost predicate Acceptable(t: seq<Time>) {
    && (forall i :: 0 <= i < |t| ==> t[i].start <= t[i].end)
    && forall i, j :: 0 <= i < j < |t| ==> Disjoint(t[i], t[j])
  }

  lemma AcceptableIs(t: seq<Time>)
    ensures Acceptable(t) <==>
      && (forall i :: 0 <= i < |t| ==> t[i].start <= t[i].end)
      && forall i, j :: 0 <= i < j < |t| ==> t[i].end <= t[j].start || t[j].end <= t[i].start
  {}

  ghost predicate InOrder(s: seq<Time>) {
    forall i, j :: 0 <= i < j < |s| ==> ComparTimes(s[i], s[j]) <= 0
  }

  /** What the last loop checks. */
  ghost predicate Chained(s: seq<Time>, n: nat)
    requires n <= |s|
  {
    forall i :: 0 <= i < n ==> s[i].start <= s[i].end && (i > 0 ==> s[i - 1].end <= s[i].start)
  }

  lemma {:induction false} ChainedApart(s: seq<Time>, i: nat, j: nat)
    requires Chained(s, |s|) && i < j < |s|
    ensures s[i].end <= s[j].start
    decreases j
  {
    if i < j - 1 {
      ChainedApart(s, i, j - 1);
    }
  }

  lemma Neighbours(a: Time, b: Time)
    requires ComparTimes(a, b) <= 0 && a.start <= a.end && b.start <= b.end && Disjoint(a, b)
    ensures a.end <= b.start
  {}

  /** In the order of compar_times it is enough to look at neighbours. */
  lemma NeighboursEnough(s: seq<Time>)
    requires InOrder(s)
    ensures Chained(s, |s|) <==> Acceptable(s)
  {
    if Chained(s, |s|) {
      forall i, j | 0 <= i < j < |s|
        ensures Disjoint(s[i], s[j])
      {
        ChainedApart(s, i, j);
      }
    }
    if Acceptable(s) {
      forall i | 0 < i < |s|
        ensures s[i - 1].end <= s[i].start
      {
        Neighbours(s[i - 1], s[i]);
      }
    }
  }

  /** Without the comparison of the ends it would not be: a time of no length and one that begins
      with it, in the wrong order. */
  lemma EndsMatter()
    ensures var s := [Time(3, 8), Time(3, 3)];
      s[0].start <= s[1].start && Acceptable(s) && !Chained(s, |s|) && !InOrder(s)
  {
    var s := [Time(3, 8), Time(3, 3)];
    assert s[0].end > s[1].start && ComparTimes(s[0], s[1]) == 1;
  }

  // ----- a permutation

  function Range(n: nat): (r: seq<nat>)
    ensures |r| == n && forall k :: 0 <= k < n ==> r[k] == k
  {
    seq(n, i => i)
  }

  ghost predicate Permutes(p: seq<nat>, n: nat) {
    multiset(p) == multiset(Range(n))
  }

  lemma {:induction false} RangeOnce(n: nat, k: nat)
    ensures multiset(Range(n))[k] == if k < n then 1 else 0
  {
    if n > 0 {
      RangeOnce(n - 1, k);
      assert Range(n) == Range(n - 1) + [n - 1];
    } else {
      assert Range(0) == [];
    }
  }

  lemma TwiceIn(p: seq<nat>, a: nat, b: nat)
    requires a < b < |p| && p[a] == p[b]
    ensures multiset(p)[p[a]] >= 2
  {
    var left, right := p[..b], p[b..];
    assert p == left + right;
    assert left[a] == p[a] && right[0] == p[a];
    assert p[a] in multiset(left) && p[a] in multiset(right);
  }

  lemma PermutesAll(p: seq<nat>, n: nat)
    requires Permutes(p, n)
    ensures |p| == n && (forall a :: 0 <= a < n ==> p[a] < n)
    ensures forall a, b :: 0 <= a < b < n ==> p[a] != p[b]
    ensures forall k :: 0 <= k < n ==> k in p
  {
    assert |multiset(p)| == |multiset(Range(n))|;
    forall a | 0 <= a < |p|
      ensures p[a] < n
    {
      assert p[a] in multiset(p);
      RangeOnce(n, p[a]);
    }
    forall a, b | 0 <= a < b < |p|
      ensures p[a] != p[b]
    {
      if p[a] == p[b] {
        TwiceIn(p, a, b);
        RangeOnce(n, p[a]);
      }
    }
    forall k | 0 <= k < n
      ensures k in p
    {
      RangeOnce(n, k);
      assert k in multiset(p);
    }
  }

  /** The times that the pointers show. */
  function Shown(t: seq<Time>, p: seq<nat>): (s: seq<Time>)
    requires forall a :: 0 <= a < |p| ==> p[a] < |t|
    ensures |s| == |p| && forall a :: 0 <= a < |p| ==> s[a] == t[p[a]]
  {
    seq(|p|, a requires 0 <= a < |p| => t[p[a]])
  }

  lemma AcceptableShown(t: seq<Time>, p: seq<nat>)
    requires Permutes(p, |t|) && forall a :: 0 <= a < |p| ==> p[a] < |t|
    ensures Acceptable(Shown(t, p)) <==> Acceptable(t)
  {
    PermutesAll(p, |t|);
    var s := Shown(t, p);
    hide Permutes, Shown;
    if Acceptable(s) {
      BackFrom(t, p, s);
    }
    if Acceptable(t) {
      forall a, b | 0 <= a < b < |s|
        ensures Disjoint(s[a], s[b])
      {
        assert p[a] != p[b];
        if p[a] < p[b] {
          assert Disjoint(t[p[a]], t[p[b]]);
        } else {
          assert Disjoint(t[p[b]], t[p[a]]);
        }
      }
    }
  }

  lemma BackFrom(t: seq<Time>, p: seq<nat>, s: seq<Time>)
    requires |s| == |p| == |t| && forall a :: 0 <= a < |p| ==> p[a] < |t| && s[a] == t[p[a]]
    requires (forall k :: 0 <= k < |t| ==> k in p) && Acceptable(s)
    ensures Acceptable(t)
  {
    forall i | 0 <= i < |t|
      ensures t[i].start <= t[i].end
    {
      assert i in p;
      var a :| 0 <= a < |p| && p[a] == i;
      assert s[a] == t[i];
    }
    forall i, j | 0 <= i < j < |t|
      ensures Disjoint(t[i], t[j])
    {
      assert i in p;
      var a :| 0 <= a < |p| && p[a] == i;
      assert j in p;
      var b :| 0 <= b < |p| && p[b] == j;
      if a < b {
        assert Disjoint(s[a], s[b]);
      } else {
        assert Disjoint(s[b], s[a]);
      }
    }
  }

  // ----- sorting

  ghost predicate SortedUpTo(t: seq<Time>, p: seq<nat>, n: nat)
    requires n <= |p| && forall a :: 0 <= a < |p| ==> p[a] < |t|
  {
    forall a, b :: 0 <= a < b < n ==> ComparTimes(t[p[a]], t[p[b]]) <= 0
  }

  lemma SwapSame(p: seq<nat>, j: nat)
    requires 0 < j < |p|
    ensures multiset(p[j - 1 := p[j]][j := p[j - 1]]) == multiset(p)
  {}

  ghost predicate Indices(p: seq<nat>, n: nat) {
    forall a :: 0 <= a < |p| ==> p[a] < n
  }

  /** Sorted up to i but for the element at j, which is not larger than those from j on. */
  ghost predicate Sinking(t: seq<Time>, p: seq<nat>, j: nat, i: nat) {
    && j <= i < |p| && Indices(p, |t|)
    && (forall a, b :: 0 <= a < b <= i && a != j && b != j ==> ComparTimes(t[p[a]], t[p[b]]) <= 0)
    && (forall b :: j < b <= i ==> ComparTimes(t[p[j]], t[p[b]]) <= 0)
  }

  lemma SinkStep(t: seq<Time>, p: seq<nat>, j: nat, i: nat)
    requires Sinking(t, p, j, i) && j > 0 && ComparTimes(t[p[j - 1]], t[p[j]]) > 0
    ensures Sinking(t, p[j - 1 := p[j]][j := p[j - 1]], j - 1, i)
  {
    var q := p[j - 1 := p[j]][j := p[j - 1]];
    hide ComparTimes;
    ComparOrder(t[p[j - 1]], t[p[j]], t[p[j]]);
    forall a, b | 0 <= a < b <= i && a != j - 1 && b != j - 1
      ensures ComparTimes(t[q[a]], t[q[b]]) <= 0
    {
      var a' := if a == j then j - 1 else a;
      var b' := if b == j then j - 1 else b;
      assert q[a] == p[a'] && q[b] == p[b'];
    }
  }

  lemma SinkDone(t: seq<Time>, p: seq<nat>, j: nat, i: nat)
    requires Sinking(t, p, j, i) && (j == 0 || ComparTimes(t[p[j - 1]], t[p[j]]) <= 0)
    ensures SortedUpTo(t, p, i + 1)
  {
    hide ComparTimes;
    forall a, b | 0 <= a < b < i + 1
      ensures ComparTimes(t[p[a]], t[p[b]]) <= 0
    {
      if b == j && a < j - 1 {
        ComparOrder(t[p[a]], t[p[j - 1]], t[p[j]]);
      }
    }
  }

  lemma SinkStart(t: seq<Time>, p: seq<nat>, i: nat)
    requires i < |p| && Indices(p, |t|) && SortedUpTo(t, p, i)
    ensures Sinking(t, p, i, i)
  {}

  method SwapAt(a: array<nat>, j: nat)
    requires 0 < j < a.Length
    modifies a
    ensures a[..] == old(a[..])[j - 1 := old(a[j])][j := old(a[j - 1])]
  {
    a[j - 1], a[j] := a[j], a[j - 1];
  }

  method Sink(a: array<nat>, t: seq<Time>, i: nat)
    requires i < a.Length && Indices(a[..], |t|) && SortedUpTo(t, a[..], i)
    modifies a
    ensures multiset(a[..]) == multiset(old(a[..])) && Indices(a[..], |t|) && SortedUpTo(t, a[..], i + 1)
  {
    hide ComparTimes, SortedUpTo, Sinking;
    var j: nat := i;
    SinkStart(t, a[..], i);
    SinkingAt(t, a[..], j, i);
    while j > 0 && ComparTimes(t[a[j - 1]], t[a[j]]) > 0
      invariant j <= i && Sinking(t, a[..], j, i) && Indices(a[..], |t|)
      invariant multiset(a[..]) == multiset(old(a[..]))
    {
      SinkStep(t, a[..], j, i);
      SwapSame(a[..], j);
      SwapAt(a, j);
      j := j - 1;
      SinkingAt(t, a[..], j, i);
    }
    SinkDone(t, a[..], j, i);
  }

  lemma SinkingAt(t: seq<Time>, p: seq<nat>, j: nat, i: nat)
    requires Sinking(t, p, j, i)
    ensures Indices(p, |t|)
  {}

  /** What qsort promises, by insertion. */
  method QSort(a: array<nat>, t: seq<Time>)
    requires Indices(a[..], |t|)
    modifies a
    ensures multiset(a[..]) == multiset(old(a[..])) && Indices(a[..], |t|) && SortedUpTo(t, a[..], a.Length)
  {
    hide ComparTimes;
    var i: nat := 0;
    while i < a.Length
      invariant i <= a.Length && multiset(a[..]) == multiset(old(a[..]))
      invariant Indices(a[..], |t|) && SortedUpTo(t, a[..], i)
    {
      Sink(a, t, i);
      i := i + 1;
    }
  }

  method CheckTimes(ptr: array<nat>, t: seq<Time>) returns (ok: bool)
    requires Indices(ptr[..], |t|)
    ensures ok <==> Chained(Shown(t, ptr[..]), ptr.Length)
  {
    ghost var s := Shown(t, ptr[..]);
    var i: nat := 0;
    while i < ptr.Length
      invariant i <= ptr.Length && Chained(s, i)
    {
      assert s[i] == t[ptr[i]];
      if t[ptr[i]].start > t[ptr[i]].end {
        return false;
      }
      if i > 0 {
        assert s[i - 1] == t[ptr[i - 1]];
        if t[ptr[i - 1]].end > t[ptr[i]].start {
          return false;
        }
      }
      i := i + 1;
    }
    return true;
  }

  lemma SortedShown(t: seq<Time>, p: seq<nat>)
    requires Indices(p, |t|) && SortedUpTo(t, p, |p|)
    ensures InOrder(Shown(t, p))
  {}

  /** pcp_add_sort_times: it succeeds exactly if there are times, none ends before it starts and no
      two overlap, and then shows them all, in order. */
  method SortTimes(t: seq<Time>) returns (ptr: Option<array<nat>>)
    ensures ptr.Some? <==> t != [] && Acceptable(t)
    ensures ptr.Some? <==>
      && t != [] && (forall i :: 0 <= i < |t| ==> t[i].start <= t[i].end)
      && forall i, j :: 0 <= i < j < |t| ==> t[i].end <= t[j].start || t[j].end <= t[i].start
    ensures ptr.Some? ==> fresh(ptr.value) && Permutes(ptr.value[..], |t|) && Indices(ptr.value[..], |t|)
    ensures ptr.Some? ==> InOrder(Shown(t, ptr.value[..]))
  {
    if t == [] {
      return None;
    }
    AcceptableIs(t);
    hide Acceptable, Chained, InOrder, SortedUpTo, Shown;
    var a := new nat[|t|];
    for i := 0 to |t|
      invariant forall k :: 0 <= k < i ==> a[k] == k
    {
      a[i] := i;
    }
    assert a[..] == Range(|t|);
    QSort(a, t);
    var ok := CheckTimes(a, t);
    PermutesAll(a[..], |t|);
    SortedShown(t, a[..]);
    AcceptableShown(t, a[..]);
    NeighboursEnough(Shown(t, a[..]));
    return if ok then Some(a) else None;
  }
}
