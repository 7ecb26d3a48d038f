/** Doubly linked lists whose nodes the program links and unlinks itself, as wmail/maildir and
    wmail/pcp both do. */
module Links {

  class Node<T> {
    var data: T
    var next: Node?<T>
    var prev: Node?<T>

    constructor (data: T)
      ensures this.data == data && next == null && prev == null
    {
      this.data := data;
      next := null;
      prev := null;
    }
  }

  ghost function NodeAt<T>(nodes: seq<Node<T>>, k: int): Node?<T> {
    if 0 <= k < |nodes| then nodes[k] else null
  }

  ghost predicate Distinct<T>(nodes: seq<Node<T>>) {
    forall i, j :: 0 <= i < j < |nodes| ==> nodes[i] != nodes[j]
  }

  ghost predicate Wired<T>(nodes: seq<Node<T>>)
    reads nodes
  {
    && (forall k {:trigger nodes[k].prev} :: 0 <= k < |nodes| ==> nodes[k].prev == NodeAt(nodes, k - 1))
    && (forall k {:trigger nodes[k].next} :: 0 <= k < |nodes| ==> nodes[k].next == NodeAt(nodes, k + 1))
  }

  lemma Apart<T>(nodes: seq<Node<T>>, k: int)
    requires Distinct(nodes)
    ensures 0 <= k < |nodes| ==> forall i :: 0 <= i < |nodes| && i != k ==> nodes[i] != nodes[k]
  {}

  lemma DistinctSnoc<T>(nodes: seq<Node<T>>, p: Node<T>)
    requires Distinct(nodes) && p !in nodes
    ensures Distinct(nodes + [p])
  {}

  class List<T> {
    var first: Node?<T>
    var last: Node?<T>
    ghost var spine: seq<Node<T>>

    ghost predicate Linked()
      reads this, spine
    {
      && Distinct(spine) && Wired(spine)
      && first == NodeAt(spine, 0) && last == NodeAt(spine, |spine| - 1)
    }

    constructor ()
      ensures Linked() && spine == []
    {
      first, last, spine := null, null, [];
    }

    /** Links a new node behind the others. */
    method Append(p: Node<T>)
      requires Linked() && p !in spine
      modifies this, p`next, p`prev, spine`next
      ensures Linked() && spine == old(spine) + [p]
    {
      Apart(spine, |spine| - 1);
      DistinctSnoc(spine, p);
      hide Distinct;
      p.next := null;
      p.prev := last;
      if last != null {
        last.next := p;
      } else {
        first := p;
      }
      last := p;
      spine := spine + [p];
    }

    /** Takes a node out. */
    method Unlink(p: Node<T>, ghost k: nat)
      requires Linked() && k < |spine| && p == spine[k]
      modifies this, spine`next, spine`prev
      ensures Linked() && spine == Without(old(spine), k)
    {
      Apart(spine, k - 1);
      Apart(spine, k + 1);
      DistinctWithout(spine, k);
      hide Distinct, Without;
      if p.prev != null {
        p.prev.next := p.next;
      } else {
        first := p.next;
      }
      if p.next != null {
        p.next.prev := p.prev;
      } else {
        last := p.prev;
      }
      Unlinked(spine, k);
      spine := Without(spine, k);
    }

    method InsertBefore(p: Node<T>, q: Node<T>, ghost k: nat)
      requires Linked() && k < |spine| && q == spine[k] && p !in spine
      modifies this, spine`next, spine`prev, p`next, p`prev
      ensures Linked() && spine == With(old(spine), k, p)
    {
      Apart(spine, k - 1);
      Apart(spine, k);
      DistinctWith(spine, k, p);
      hide Distinct, With;
      p.prev := q.prev;
      if p.prev != null {
        p.prev.next := p;
      } else {
        first := p;
      }
      p.next := q;
      q.prev := p;
      Inserted(spine, k, p);
      spine := With(spine, k, p);
    }

    method InsertAfter(p: Node<T>, q: Node<T>, ghost k: nat)
      requires Linked() && k < |spine| && q == spine[k] && p !in spine
      modifies this, spine`next, spine`prev, p`next, p`prev
      ensures Linked() && spine == With(old(spine), k + 1, p)
    {
      Apart(spine, k);
      Apart(spine, k + 1);
      DistinctWith(spine, k + 1, p);
      hide Distinct, With;
      p.next := q.next;
      if p.next != null {
        p.next.prev := p;
      } else {
        last := p;
      }
      p.prev := q;
      q.next := p;
      Inserted(spine, k + 1, p);
      spine := With(spine, k + 1, p);
    }
  }

  ghost function Without<T>(s: seq<T>, k: nat): (r: seq<T>)
    requires k < |s|
    ensures |r| == |s| - 1 && (forall i :: 0 <= i < k ==> r[i] == s[i]) && forall i :: k <= i < |r| ==> r[i] == s[i + 1]
  {
    s[..k] + s[k + 1..]
  }

  lemma DistinctWithout<T>(nodes: seq<Node<T>>, k: nat)
    requires Distinct(nodes) && k < |nodes|
    ensures Distinct(Without(nodes, k))
  {}

  lemma Unlinked<T>(nodes: seq<Node<T>>, k: nat)
    requires k < |nodes|
    requires forall i {:trigger nodes[i].next} :: 0 <= i < |nodes| ==>
               nodes[i].next == NodeAt(nodes, if i == k - 1 then k + 1 else i + 1)
    requires forall i {:trigger nodes[i].prev} :: 0 <= i < |nodes| ==>
               nodes[i].prev == NodeAt(nodes, if i == k + 1 then k - 1 else i - 1)
    ensures Wired(Without(nodes, k))
  {
    hide Without;
    var left := Without(nodes, k);
    forall j | 0 <= j < |left|
      ensures left[j].prev == NodeAt(left, j - 1) && left[j].next == NodeAt(left, j + 1)
    {
      var i := if j < k then j else j + 1;
      assert left[j] == nodes[i];
    }
  }

  ghost function With<T>(s: seq<T>, k: nat, x: T): (r: seq<T>)
    requires k <= |s|
    ensures |r| == |s| + 1 && r[k] == x
    ensures (forall i :: 0 <= i < k ==> r[i] == s[i]) && forall i :: k < i < |r| ==> r[i] == s[i - 1]
  {
    s[..k] + [x] + s[k..]
  }

  lemma DistinctWith<T>(nodes: seq<Node<T>>, k: nat, p: Node<T>)
    requires Distinct(nodes) && p !in nodes
    ensures k <= |nodes| ==> Distinct(With(nodes, k, p))
  {}

  lemma Inserted<T>(nodes: seq<Node<T>>, k: nat, p: Node<T>)
    requires k <= |nodes| && p.prev == NodeAt(nodes, k - 1) && p.next == NodeAt(nodes, k)
    requires forall i {:trigger nodes[i].next} :: 0 <= i < |nodes| ==>
               nodes[i].next == if i == k - 1 then p else NodeAt(nodes, i + 1)
    requires forall i {:trigger nodes[i].prev} :: 0 <= i < |nodes| ==>
               nodes[i].prev == if i == k then p else NodeAt(nodes, i - 1)
    ensures Wired(With(nodes, k, p))
  {
    hide With;
    var after := With(nodes, k, p);
    forall j | 0 <= j < |after|
      ensures after[j].prev == NodeAt(after, j - 1) && after[j].next == NodeAt(after, j + 1)
    {
      if j != k {
        assert after[j] == nodes[if j < k then j else j - 1];
      }
    }
  }

  lemma MovedAway<T>(nodes: seq<Node<T>>, k: nat)
    requires Distinct(nodes) && k < |nodes|
    ensures nodes[k] !in Without(nodes, k)
  {}

  lemma NextOf<T>(nodes: seq<Node<T>>, i: nat)
    requires Wired(nodes) && i < |nodes|
    ensures nodes[i].next == NodeAt(nodes, i + 1)
  {}
}
