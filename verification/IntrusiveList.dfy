/** The circular intrusive lists of wayland-util.c.  A ring is given by the sequence of its
    nodes starting anywhere; a list is a ring that starts at its head. */
module IntrusiveList {
  import opened Basics

  class Node {
    var prev: Node?
    var next: Node?

    /** `wl_list_init` */
    constructor ()
      ensures prev == this && next == this && Ring([this])
    {
      prev, next := this, this;
    }
  }

  predicate Linked(a: Node, b: Node)
    reads a, b
  {
    a.next == b && b.prev == a
  }

  predicate Ring(nodes: seq<Node>)
    reads nodes
  {
    && nodes != [] && NoDuplicates(nodes)
    && (forall i {:trigger nodes[i]} :: 0 <= i < |nodes| - 1 ==> Linked(nodes[i], nodes[i + 1]))
    && Linked(nodes[|nodes| - 1], nodes[0])
  }

  lemma DistinctJoin(a: seq<Node>, b: seq<Node>)
    requires NoDuplicates(a) && NoDuplicates(b) && a != [] && b != [] && forall n :: n in a ==> n !in b
    ensures NoDuplicates([a[0]] + b[1..] + a[1..])
  {
    var r := [a[0]] + b[1..] + a[1..];
    forall i, j | 0 <= i < j < |r|
      ensures r[i] != r[j]
    {
      assert forall k :: 0 <= k < |r| ==> r[k] == if k == 0 then a[0] else if k < |b| then b[k] else a[k - |b| + 1];
      assert forall k :: 0 <= k < |b| ==> b[k] in b;
      assert forall k :: 0 <= k < |a| ==> a[k] in a;
    }
  }

  /** Where a ring starts is a matter of view. */
  lemma Rotate(nodes: seq<Node>, k: nat)
    requires Ring(nodes) && k < |nodes|
    ensures Ring(nodes[k..] + nodes[..k])
  {
    var r := nodes[k..] + nodes[..k];
    forall i | 0 <= i < |r| - 1
      ensures Linked(r[i], r[i + 1])
    {
      if i < |nodes| - k - 1 {
        assert r[i] == nodes[k + i] && r[i + 1] == nodes[k + i + 1];
      } else if i == |nodes| - k - 1 {
        assert r[i] == nodes[|nodes| - 1] && r[i + 1] == nodes[0];
      } else {
        assert r[i] == nodes[i - (|nodes| - k)] && r[i + 1] == nodes[i - (|nodes| - k) + 1];
      }
    }
    if k > 0 { assert nodes[k - 1] == r[|r| - 1] && nodes[k] == r[0]; }
  }

  /** `wl_list_insert`: the element comes right after `list`, which may be any node of a ring. */
  method Insert(list: Node, elm: Node, ghost nodes: seq<Node>)
    requires Ring(nodes) && nodes[0] == list && elm !in nodes
    modifies elm, nodes
    ensures Ring([list, elm] + nodes[1..])
  {
    elm.prev := list;
    elm.next := list.next;
    list.next := elm;
    elm.next.prev := elm;
    ghost var r := [list, elm] + nodes[1..];
    assert forall i :: 2 <= i < |r| ==> r[i] == nodes[i - 1];
    forall i | 0 <= i < |r| - 1
      ensures Linked(r[i], r[i + 1])
    {
      if i >= 2 { assert Linked(nodes[i - 1], nodes[i]); }
    }
  }

  /** `wl_list_remove`, with the ring viewed from the element that goes */
  method Remove(elm: Node, ghost nodes: seq<Node>)
    requires Ring(nodes) && nodes[0] == elm
    modifies nodes
    ensures |nodes| > 1 ==> Ring(nodes[1..])
    ensures elm.prev == null && elm.next == null
  {
    ghost var n := |nodes|;
    if n > 1 { assert Linked(nodes[0], nodes[1]); }
    elm.prev.next := elm.next;
    elm.next.prev := elm.prev;
    elm.next := null;
    elm.prev := null;
    forall i | 1 <= i < n - 1
      ensures Linked(nodes[i], nodes[i + 1])
    {
      assert old(Linked(nodes[i], nodes[i + 1]));
    }
    if n > 1 {
      forall i | 0 <= i < n - 2 ensures Linked(nodes[1..][i], nodes[1..][i + 1]) {}
    }
  }

  /** `wl_list_length` */
  method Length(list: Node, ghost nodes: seq<Node>) returns (count: nat)
    requires Ring(nodes) && nodes[0] == list
    ensures count == |nodes| - 1
  {
    count := 0;
    var e := list.next;
    if |nodes| > 1 { assert Linked(nodes[0], nodes[1]); }
    while e != list
      invariant 0 <= count < |nodes|
      invariant e == if count + 1 < |nodes| then nodes[count + 1] else list
      decreases |nodes| - count
    {
      if count + 2 < |nodes| { assert Linked(nodes[count + 1], nodes[count + 2]); }
      e := e.next;
      count := count + 1;
    }
  }

  /** `wl_list_empty` */
  method Empty(list: Node, ghost nodes: seq<Node>) returns (empty: bool)
    requires Ring(nodes) && nodes[0] == list
    ensures empty <==> nodes == [list]
  {
    if |nodes| > 1 { assert Linked(nodes[0], nodes[1]); }
    empty := list.next == list;
  }

  lemma RingJoined(nodes: seq<Node>, others: seq<Node>)
    requires NoDuplicates(nodes) && NoDuplicates(others) && nodes != [] && |others| > 1 && forall n :: n in nodes ==> n !in others
    requires Linked(nodes[0], others[1])
    requires forall i {:trigger others[i]} :: 1 <= i < |others| - 1 ==> Linked(others[i], others[i + 1])
    requires Linked(others[|others| - 1], if |nodes| > 1 then nodes[1] else nodes[0])
    requires forall i {:trigger nodes[i]} :: 1 <= i < |nodes| - 1 ==> Linked(nodes[i], nodes[i + 1])
    requires |nodes| > 1 ==> Linked(nodes[|nodes| - 1], nodes[0])
    ensures Ring([nodes[0]] + others[1..] + nodes[1..])
  {
    var r, m := [nodes[0]] + others[1..] + nodes[1..], |others|;
    DistinctJoin(nodes, others);
    forall i | 0 <= i < |r| - 1
      ensures Linked(r[i], r[i + 1])
    {
      if i == 0 { assert r[1] == others[1]; }
      else if i < m - 1 { assert r[i] == others[i] && r[i + 1] == others[i + 1]; }
      else if i == m - 1 { assert r[i] == others[i] && r[i + 1] == nodes[1]; }
      else { assert r[i] == nodes[i - m + 1] && r[i + 1] == nodes[i - m + 2]; }
    }
  }

  /** The node after the head, which is the head again in a ring of one. */
  function Second(nodes: seq<Node>): Node
    requires nodes != []
  { if |nodes| > 1 then nodes[1] else nodes[0] }

  /** The four links `wl_list_insert_list` writes; no other changes. */
  method JoinEnds(list: Node, other: Node, ghost nodes: seq<Node>, ghost others: seq<Node>)
    requires Ring(nodes) && nodes[0] == list
    requires Ring(others) && others[0] == other && |others| > 1
    requires forall n :: n in nodes ==> n !in others
    modifies nodes, others
    ensures Linked(list, others[1]) && Linked(others[|others| - 1], Second(nodes))
    ensures forall x :: x in nodes && x != list ==> x.next == old(x.next)
    ensures forall x :: x in nodes && x != Second(nodes) ==> x.prev == old(x.prev)
    ensures forall x :: x in others && x != others[|others| - 1] ==> x.next == old(x.next)
    ensures forall x :: x in others && x != others[1] ==> x.prev == old(x.prev)
  {
    ghost var m, n := |others|, |nodes|;
    assert Linked(others[0], others[1]) && Linked(others[m - 1], others[0]) && Linked(nodes[n - 1], nodes[0]);
    if n > 1 { assert Linked(nodes[0], nodes[1]); }
    assert list in nodes && Second(nodes) in nodes && others[1] in others && others[m - 1] in others;
    hide Ring, NoDuplicates;
    other.next.prev := list;
    other.prev.next := list.next;
    list.next.prev := other.prev;
    list.next := other.next;
  }

  /** `wl_list_insert_list`: the elements of `other` come first; its head is left pointing at them. */
  method InsertList(list: Node, other: Node, ghost nodes: seq<Node>, ghost others: seq<Node>)
    requires Ring(nodes) && nodes[0] == list
    requires Ring(others) && others[0] == other
    requires forall n :: n in nodes ==> n !in others
    modifies nodes, others
    ensures Ring([list] + others[1..] + nodes[1..])
    ensures other.next == old(other.next) && other.prev == old(other.prev)
  {
    var empty := Empty(other, others);
    if empty {
      assert [list] + others[1..] + nodes[1..] == nodes;
      return;
    }
    ghost var m, n := |others|, |nodes|;
    assert forall i :: 0 <= i < m ==> others[i] in others;
    assert forall i :: 0 <= i < n ==> nodes[i] in nodes;
    JoinEnds(list, other, nodes, others);
    forall i | 1 <= i < m - 1
      ensures Linked(others[i], others[i + 1])
    {
      assert old(Linked(others[i], others[i + 1]));
    }
    forall i | 1 <= i < n - 1
      ensures Linked(nodes[i], nodes[i + 1])
    {
      assert old(Linked(nodes[i], nodes[i + 1]));
    }
    RingJoined(nodes, others);
  }

  function Kept(nodes: seq<Node>, drop: set<Node>): (r: seq<Node>)
    ensures |r| <= |nodes|
    ensures forall i :: 0 <= i < |r| ==> r[i] in nodes && r[i] !in drop
  {
    if nodes == [] then []
    else if nodes[0] in drop then Kept(nodes[1..], drop)
    else [nodes[0]] + Kept(nodes[1..], drop)
  }

  /** What is kept is all that is not dropped, in the same order. */
  lemma {:induction false} KeptMeaning(a: seq<Node>, b: seq<Node>, drop: set<Node>)
    ensures Kept(a + b, drop) == Kept(a, drop) + Kept(b, drop)
    ensures forall x :: x in Kept(a, drop) <==> x in a && x !in drop
    ensures forall x: Node :: Kept([x], drop) == if x in drop then [] else [x]
  {
    forall x: Node ensures |[x][1..]| == 0 {}
    if a == [] {
      assert a + b == b;
    } else {
      assert (a + b)[1..] == a[1..] + b;
      KeptMeaning(a[1..], b, drop);
      Regroup([a[0]], Kept(a[1..], drop), Kept(b, drop));
    }
  }

  /** `wl_list_for_each_safe` with a body that removes the current element, if it is to go:
      every element there at the start is visited once, in order. */
  method ForEachSafe(head: Node, drop: set<Node>, ghost nodes: seq<Node>) returns (visited: seq<Node>)
    requires Ring(nodes) && nodes[0] == head && head !in drop
    modifies nodes
    ensures visited == nodes[1..]
    ensures Ring([head] + Kept(nodes[1..], drop))
  {
    visited := [];
    ghost var t := Tour([], nodes[1..], head);
    Turn(nodes);
    TourStarts(nodes, head, drop);
    NextInRing(nodes);
    var pos: Node := head.next;
    hide Ring, OnTour;
    while pos != head
      invariant Ring(t.Ring()) && OnTour(nodes, visited, t, drop)
      invariant t.head == head && t.Ring() != [] && t.Ring()[0] == pos
      decreases |t.left|
    {
      HeadOnce(t);
      TourStep(nodes, visited, t, drop);
      var tmp: Node := pos.next;
      visited := visited + [pos];
      t := Pass(pos, t, drop, nodes);
      pos := tmp;
    }
    HeadOnce(t);
    TourEnds(nodes, visited, t, drop);
  }

  /** The body: the current element is removed if it is to go. */
  method Pass(pos: Node, ghost t: Tour, drop: set<Node>, ghost nodes: seq<Node>) returns (ghost t': Tour)
    requires Ring(t.Ring()) && t.left != [] && t.left[0] == pos
    requires forall i :: 0 <= i < |t.Ring()| ==> t.Ring()[i] in nodes
    modifies nodes
    ensures t' == if pos in drop then t.Drop() else t.Keep()
    ensures Ring(t'.Ring())
  {
    TourTurns(t);
    hide Ring;
    t' := if pos in drop then t.Drop() else t.Keep();
    if pos in drop {
      Remove(pos, t.Ring());
    } else {
      Turn(t.Ring());
    }
  }

  /** All that one turn of the iteration needs to know. */
  lemma TourStep(nodes: seq<Node>, visited: seq<Node>, t: Tour, drop: set<Node>)
    requires Ring(t.Ring()) && OnTour(nodes, visited, t, drop) && t.left != []
    ensures |t.Ring()| > 1 && t.Ring()[0] == t.left[0] && t.left[0].next == t.Ring()[1]
    ensures forall i :: 0 <= i < |t.Ring()| ==> t.Ring()[i] in nodes
    ensures t.Drop().Ring() == t.Ring()[1..] && t.Keep().Ring() == t.Ring()[1..] + [t.left[0]]
    ensures t.Drop().head == t.Keep().head == t.head && |t.Drop().left| < |t.left| && |t.Keep().left| < |t.left|
    ensures OnTour(nodes, visited + [t.left[0]], if t.left[0] in drop then t.Drop() else t.Keep(), drop)
  {
    TourTurns(t);
    TourInside(nodes, visited, t, drop);
    TourGoesOn(nodes, visited, t, drop);
    NextInRing(t.Ring());
    hide Ring, OnTour;
  }

  /** The state of an iteration: the elements passed and kept, and those to come. */
  datatype Tour = Tour(done: seq<Node>, left: seq<Node>, head: Node) {
    ghost function Ring(): seq<Node> { left + [head] + done }

    ghost function Drop(): Tour
      requires left != []
    { Tour(done, left[1..], head) }

    ghost function Keep(): Tour
      requires left != []
    { Tour(done + [left[0]], left[1..], head) }
  }

  ghost predicate OnTour(nodes: seq<Node>, visited: seq<Node>, t: Tour, drop: set<Node>) {
    && nodes != [] && t.head == nodes[0]
    && nodes[1..] == visited + t.left
    && Kept(nodes[1..], drop) == t.done + Kept(t.left, drop)
    && forall i :: 0 <= i < |t.Ring()| ==> t.Ring()[i] in nodes
  }

  lemma TourStarts(nodes: seq<Node>, head: Node, drop: set<Node>)
    requires nodes != [] && nodes[0] == head
    ensures Tour([], nodes[1..], head).Ring() == nodes[1..] + [nodes[0]]
    ensures OnTour(nodes, [], Tour([], nodes[1..], head), drop)
  {
  }

  lemma TourTurns(t: Tour)
    requires t.left != []
    ensures t.Ring()[0] == t.left[0]
    ensures t.Drop().Ring() == t.Ring()[1..]
    ensures t.Keep().Ring() == t.Ring()[1..] + [t.left[0]]
  {
  }

  lemma KeptFirst(left: seq<Node>, done: seq<Node>, drop: set<Node>)
    requires left != []
    ensures done + Kept(left, drop) ==
      if left[0] in drop then done + Kept(left[1..], drop) else done + [left[0]] + Kept(left[1..], drop)
  {
    if left[0] !in drop {
      assert done + [left[0]] + Kept(left[1..], drop) == done + ([left[0]] + Kept(left[1..], drop));
    }
  }

  lemma StillInside(r: seq<Node>, r': seq<Node>, nodes: seq<Node>)
    requires r != [] && (r' == r[1..] || r' == r[1..] + [r[0]])
    requires forall i :: 0 <= i < |r| ==> r[i] in nodes
    ensures forall i :: 0 <= i < |r'| ==> r'[i] in nodes
  {
    forall i | 0 <= i < |r'|
      ensures r'[i] in nodes
    {
      assert r'[i] == r[if i + 1 < |r| then i + 1 else 0];
    }
  }

  lemma OneMoreVisited(all: seq<Node>, visited: seq<Node>, left: seq<Node>)
    requires all == visited + left && left != []
    ensures all == visited + [left[0]] + left[1..]
  {
  }

  lemma TourGoesOn(nodes: seq<Node>, visited: seq<Node>, t: Tour, drop: set<Node>)
    requires OnTour(nodes, visited, t, drop) && t.left != []
    ensures OnTour(nodes, visited + [t.left[0]], if t.left[0] in drop then t.Drop() else t.Keep(), drop)
  {
    var t' := if t.left[0] in drop then t.Drop() else t.Keep();
    TourTurns(t);
    hide Kept, Tour.Ring;
    KeptFirst(t.left, t.done, drop);
    OneMoreVisited(nodes[1..], visited, t.left);
    StillInside(t.Ring(), t'.Ring(), nodes);
  }

  lemma TourInside(nodes: seq<Node>, visited: seq<Node>, t: Tour, drop: set<Node>)
    requires OnTour(nodes, visited, t, drop)
    ensures forall i :: 0 <= i < |t.Ring()| ==> t.Ring()[i] in nodes
  {
  }

  lemma TourEnds(nodes: seq<Node>, visited: seq<Node>, t: Tour, drop: set<Node>)
    requires OnTour(nodes, visited, t, drop) && t.left == []
    ensures visited == nodes[1..] && t.Ring() == [nodes[0]] + Kept(nodes[1..], drop)
  {
  }

  lemma HeadOnce(t: Tour)
    requires Ring(t.Ring())
    ensures t.Ring()[0] == t.head <==> t.left == []
    ensures t.left != [] ==> |t.Ring()| > 1
  {
    assert t.Ring()[|t.left|] == t.head;
  }

  /** Seen from its first node, a ring goes on at the second. */
  lemma Turn(nodes: seq<Node>)
    requires Ring(nodes)
    ensures Ring(nodes[1..] + [nodes[0]])
  {
    if |nodes| > 1 {
      Rotate(nodes, 1);
      assert nodes[..1] == [nodes[0]];
    } else {
      assert nodes[1..] + [nodes[0]] == nodes;
    }
  }

  lemma NextInRing(nodes: seq<Node>)
    requires Ring(nodes)
    ensures nodes[0].next == if |nodes| > 1 then nodes[1] else nodes[0]
  {
    if |nodes| > 1 { assert Linked(nodes[0], nodes[1]); }
  }
}
