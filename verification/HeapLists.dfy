/** The doubly linked lists of heap descriptors in kernel/process.c: well-formedness, unlinking and pushing. */
module HeapLists {
  import opened Sequences

  /** malloc_t; a null pointer is 0. */
  datatype Node = Node(va: nat, size: nat, next: nat, prev: nat)

  type Nodes = map<nat, Node>

  function Nth(q: seq<nat>, i: int): nat {
    if 0 <= i < |q| then q[i] else 0
  }

  /** next and prev of the i-th node of q lead to its neighbours in q, and to null at the ends. */
  predicate LinkedAt(nodes: Nodes, q: seq<nat>, i: nat)
    requires i < |q|
  {
    q[i] != 0 && q[i] in nodes && nodes[q[i]].next == Nth(q, i + 1) && nodes[q[i]].prev == Nth(q, i - 1)
  }

  ghost predicate DList(nodes: Nodes, head: nat, q: seq<nat>) {
    && head == Nth(q, 0) && Distinct(q)
    && forall i: nat {:trigger LinkedAt(nodes, q, i)} :: i < |q| ==> LinkedAt(nodes, q, i)
  }

  /** Two heaps of nodes that differ in links only. */
  predicate SameRanges(a: Nodes, b: Nodes) {
    a.Keys == b.Keys && forall n :: n in a ==> n in b && a[n].va == b[n].va && a[n].size == b[n].size
  }

  function SetNext(nodes: Nodes, n: nat, x: nat): Nodes {
    if n in nodes then nodes[n := nodes[n].(next := x)] else nodes
  }

  function SetPrev(nodes: Nodes, n: nat, x: nat): Nodes {
    if n in nodes then nodes[n := nodes[n].(prev := x)] else nodes
  }

  /** n->prev = NULL; n->next = head; if (head) head->prev = n; */
  function Pushed(nodes: Nodes, head: nat, n: nat): Nodes {
    var a := SetNext(SetPrev(nodes, n, 0), n, head);
    if head != 0 then SetPrev(a, head, n) else a
  }

  /** The neighbours of n are joined and n's own links cleared. */
  function Unlinked(nodes: Nodes, n: nat): Nodes
    requires n in nodes
  {
    var a := if nodes[n].prev != 0 then SetNext(nodes, nodes[n].prev, nodes[n].next) else nodes;
    var b := if nodes[n].next != 0 then SetPrev(a, nodes[n].next, nodes[n].prev) else a;
    SetNext(SetPrev(b, n, 0), n, 0)
  }

  lemma DListPush(nodes: Nodes, head: nat, q: seq<nat>, n: nat)
    requires DList(nodes, head, q) && n in nodes && n != 0 && n !in q
    ensures DList(Pushed(nodes, head, n), n, [n] + q)
    ensures SameRanges(nodes, Pushed(nodes, head, n))
    ensures forall m :: m in nodes && m != n && m !in q ==> Pushed(nodes, head, n)[m] == nodes[m]
  {
    var nodes', q' := Pushed(nodes, head, n), [n] + q;
    forall i: nat | i < |q'|
      ensures LinkedAt(nodes', q', i)
    {
      if i > 0 {
        assert q'[i] == q[i - 1] && LinkedAt(nodes, q, i - 1);
        assert i > 1 ==> q[i - 1] != q[0];
      }
    }
  }

  lemma UnlinkedAt(nodes: Nodes, head: nat, q: seq<nat>, i: nat, j: nat)
    requires DList(nodes, head, q) && i < |q| && j < |q| && j != i
    ensures LinkedAt(nodes, q, i)
    ensures var nodes' := Unlinked(nodes, q[i]);
      && q[j] in nodes'
      && nodes'[q[j]].next == (if j + 1 == i then Nth(q, i + 1) else Nth(q, j + 1))
      && nodes'[q[j]].prev == (if j == i + 1 then Nth(q, i - 1) else Nth(q, j - 1))
  {
    assert LinkedAt(nodes, q, i) && LinkedAt(nodes, q, j);
    assert q[j] != q[i];
    assert i > 0 ==> nodes[q[i]].prev == q[i - 1] && (j != i - 1 ==> q[j] != q[i - 1]);
    assert i + 1 < |q| ==> nodes[q[i]].next == q[i + 1] && (j != i + 1 ==> q[j] != q[i + 1]);
  }

  lemma UnlinkFrame(nodes: Nodes, head: nat, q: seq<nat>, i: nat)
    requires DList(nodes, head, q) && i < |q|
    ensures LinkedAt(nodes, q, i) && SameRanges(nodes, Unlinked(nodes, q[i]))
    ensures forall m :: m in nodes && m !in q ==> Unlinked(nodes, q[i])[m] == nodes[m]
  {
    assert LinkedAt(nodes, q, i);
    assert i > 0 ==> nodes[q[i]].prev == q[i - 1];
    assert i + 1 < |q| ==> nodes[q[i]].next == q[i + 1];
  }

  lemma DListUnlink(nodes: Nodes, head: nat, q: seq<nat>, i: nat)
    requires DList(nodes, head, q) && i < |q|
    ensures LinkedAt(nodes, q, i)
    ensures DList(Unlinked(nodes, q[i]), if nodes[q[i]].prev != 0 then head else nodes[q[i]].next, Without(q, i))
  {
    assert LinkedAt(nodes, q, i) && (i > 0 ==> LinkedAt(nodes, q, i - 1));
    var nodes', q' := Unlinked(nodes, q[i]), Without(q, i);
    WithoutMembers(q, i);
    forall k: nat | k < |q'|
      ensures LinkedAt(nodes', q', k)
    {
      var j := if k < i then k else k + 1;
      assert LinkedAt(nodes, q, j);
      UnlinkedAt(nodes, head, q, i, j);
    }
  }

  /** A null pointer marks the end of the list. */
  lemma NullEnds(nodes: Nodes, head: nat, q: seq<nat>, i: nat)
    requires DList(nodes, head, q) && i <= |q| && Nth(q, i) == 0
    ensures i == |q|
  {
    assert i < |q| ==> LinkedAt(nodes, q, i);
  }

  /** A list whose nodes keep their links stays the list it was. */
  lemma DListFrame(nodes: Nodes, nodes': Nodes, head: nat, q: seq<nat>)
    requires DList(nodes, head, q)
    requires forall n ::
      n in q && n in nodes ==> n in nodes' && nodes'[n].next == nodes[n].next && nodes'[n].prev == nodes[n].prev
    ensures DList(nodes', head, q)
  {
    forall i: nat | i < |q|
      ensures LinkedAt(nodes', q, i)
    {
      assert LinkedAt(nodes, q, i);
    }
  }
}
