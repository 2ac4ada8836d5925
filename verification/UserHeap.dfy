/**
 The byte-granular user heap of kernel/process.c: user_better_malloc and user_better_free.

 Descriptors live in pages of their own and sit in one of two doubly linked lists, malloc_list for
 live blocks and malloc_free_list for released ones.  Heap pages are mapped when a block needs them
 and unmapped when no live block touches them any more.
 */
module UserHeap {
  import opened Sequences
  import opened HeapLists

  const PGSIZE := 4096
  const WORD := 0x1_0000_0000_0000_0000
  const VPNS := 0x400_0000  // MAXVA / PGSIZE

  /** `Killed` is kill_current_process, which never returns. */
  datatype Outcome = Ret(va: nat) | Killed

  predicate Touches(n: Node, v: nat) {
    n.va < (v + 1) * PGSIZE && v * PGSIZE < n.va + n.size
  }

  predicate Apart(a: Node, b: Node) {
    a.va + a.size <= b.va || b.va + b.size <= a.va
  }

  ghost predicate Inside(n: Node, bottom: nat, top: nat) {
    0 < n.size && bottom <= n.va && n.va + n.size <= top
  }

  /** All listed blocks, live and free, are non-empty, inside the heap and pairwise disjoint. */
  ghost predicate Blocks(nodes: Nodes, ids: set<nat>, bottom: nat, top: nat) {
    && (forall n :: n in ids ==> n in nodes && Inside(nodes[n], bottom, top))
    && (forall m, n :: m in ids && n in ids && m != n && m in nodes && n in nodes ==> Apart(nodes[m], nodes[n]))
  }

  /** A block that could be listed beside those of ids. */
  ghost predicate Fits(nodes: Nodes, ids: set<nat>, bottom: nat, top: nat, b: Node) {
    Inside(b, bottom, top) && forall n :: n in ids && n in nodes ==> Apart(nodes[n], b)
  }

  /** Free pages, mapped pages and descriptor pages are all different. */
  ghost predicate Pages(supply: set<nat>, pt: map<nat, nat>, ids: set<nat>) {
    && 0 !in supply && 0 !in ids && supply !! ids
    && (forall v :: v in pt ==> pt[v] != 0 && pt[v] !in supply && pt[v] !in ids)
    && (forall v, w :: v in pt && w in pt && v != w ==> pt[v] != pt[w])
  }

  /** Every page that a live block touches is mapped. */
  ghost predicate Backed(nodes: Nodes, live: seq<nat>, pt: map<nat, nat>) {
    forall n, v: nat :: n in live && n in nodes && Touches(nodes[n], v) ==> v in pt
  }

  ghost predicate PagesInside(pt: map<nat, nat>, foreign: set<nat>, bottom: nat, top: nat) {
    && (forall v :: v in pt ==> bottom <= v * PGSIZE < top && v !in foreign && v < VPNS)
    && (forall v :: v in foreign ==> top <= v * PGSIZE || (v + 1) * PGSIZE <= bottom)
  }

  ghost function Ids(q: seq<nat>): set<nat> {
    set n | n in q
  }

  ghost function Ranges(nodes: Nodes, q: seq<nat>): set<(nat, nat)> {
    set n | n in q && n in nodes :: (nodes[n].va, nodes[n].size)
  }

  function PageOf(a: nat): nat {
    a / PGSIZE
  }

  /** Bytes between heap_top and the end of its page. */
  function Remaining(top: nat): nat {
    (PageOf(top) + 1) * PGSIZE - top
  }

  /** size - remaining + PGSIZE - 1 does not fit in 64 bits. */
  predicate Wraps(top: nat, size: nat) {
    size > Remaining(top) && size - Remaining(top) + PGSIZE - 1 >= WORD
  }

  /** Both lists are well formed and together with the nodes in `hand` make up all descriptors. */
  ghost predicate Lists(nodes: Nodes, mallocList: nat, freeList: nat, live: seq<nat>, free: seq<nat>, hand: set<nat>) {
    && DList(nodes, mallocList, live) && DList(nodes, freeList, free)
    && (forall n :: n in live ==> n !in free && n !in hand) && (forall n :: n in free ==> n !in hand)
    && nodes.Keys == Ids(live) + Ids(free) + hand
  }

  ghost predicate Layout(nodes: Nodes, live: seq<nat>, free: seq<nat>, pt: map<nat, nat>, bottom: nat, top: nat) {
    Blocks(nodes, Ids(live) + Ids(free), bottom, top) && Backed(nodes, live, pt)
  }

  // ---------------------------------------------------------------- list surgery

  lemma ListsUnlinkFree(nodes: Nodes, mh: nat, fh: nat, live: seq<nat>, free: seq<nat>, hand: set<nat>, i: nat)
    requires Lists(nodes, mh, fh, live, free, hand) && i < |free|
    ensures LinkedAt(nodes, free, i)
    ensures var n := free[i];
      && Lists(Unlinked(nodes, n), mh, if nodes[n].prev != 0 then fh
               else nodes[n].next, live, Without(free, i), hand + {n})
      && SameRanges(nodes, Unlinked(nodes, n))
  {
    DListUnlink(nodes, fh, free, i);
    UnlinkFrame(nodes, fh, free, i);
    WithoutMembers(free, i);
    DListFrame(nodes, Unlinked(nodes, free[i]), mh, live);
  }

  lemma ListsUnlinkLive(nodes: Nodes, mh: nat, fh: nat, live: seq<nat>, free: seq<nat>, hand: set<nat>, i: nat)
    requires Lists(nodes, mh, fh, live, free, hand) && i < |live|
    ensures LinkedAt(nodes, live, i)
    ensures var n := live[i];
      && Lists(Unlinked(nodes, n), if nodes[n].prev != 0 then mh
               else nodes[n].next, fh, Without(live, i), free, hand + {n})
      && SameRanges(nodes, Unlinked(nodes, n))
  {
    DListUnlink(nodes, mh, live, i);
    UnlinkFrame(nodes, mh, live, i);
    WithoutMembers(live, i);
    DListFrame(nodes, Unlinked(nodes, live[i]), fh, free);
  }

  lemma ListsPushLive(nodes: Nodes, mh: nat, fh: nat, live: seq<nat>, free: seq<nat>, hand: set<nat>, n: nat)
    requires Lists(nodes, mh, fh, live, free, hand) && n in hand && n != 0
    ensures Lists(Pushed(nodes, mh, n), n, fh, [n] + live, free, hand - {n})
    ensures SameRanges(nodes, Pushed(nodes, mh, n))
  {
    DListPush(nodes, mh, live, n);
    DListFrame(nodes, Pushed(nodes, mh, n), fh, free);
    assert Ids([n] + live) == Ids(live) + {n};
  }

  lemma ListsPushFree(nodes: Nodes, mh: nat, fh: nat, live: seq<nat>, free: seq<nat>, hand: set<nat>, n: nat)
    requires Lists(nodes, mh, fh, live, free, hand) && n in hand && n != 0
    ensures Lists(Pushed(nodes, fh, n), mh, n, live, [n] + free, hand - {n})
    ensures SameRanges(nodes, Pushed(nodes, fh, n))
  {
    DListPush(nodes, fh, free, n);
    DListFrame(nodes, Pushed(nodes, fh, n), mh, live);
    assert Ids([n] + free) == Ids(free) + {n};
  }

  /** Changing the range of a node in hand, or adding one, leaves both lists as they are. */
  lemma ListsSet(nodes: Nodes, mh: nat, fh: nat, live: seq<nat>, free: seq<nat>, hand: set<nat>, n: nat, b: Node)
    requires Lists(nodes, mh, fh, live, free, hand) && n !in live && n !in free
    ensures Lists(nodes[n := b], mh, fh, live, free, hand + {n})
  {
    DListFrame(nodes, nodes[n := b], mh, live);
    DListFrame(nodes, nodes[n := b], fh, free);
  }

  // ---------------------------------------------------------------- what the surgery does to the blocks

  /** Taking a block out of a group leaves a group it fits beside; links do not matter. */
  lemma TakeOut(a: Nodes, b: Nodes, ids: set<nat>, rest: set<nat>, n: nat, bottom: nat, top: nat)
    requires SameRanges(a, b) && Blocks(a, ids, bottom, top) && n in ids && rest <= ids - {n}
    ensures Blocks(b, rest, bottom, top) && Fits(b, rest, bottom, top, b[n])
  {
  }

  lemma PutIn(a: Nodes, b: Nodes, ids: set<nat>, n: nat, bottom: nat, top: nat)
    requires SameRanges(a, b) && Blocks(a, ids, bottom, top) && n in a && Fits(a, ids, bottom, top, a[n])
    ensures Blocks(b, ids + {n}, bottom, top)
  {
  }

  lemma BackedMoves(a: Nodes, b: Nodes, live: seq<nat>, live': seq<nat>, pt: map<nat, nat>)
    requires SameRanges(a, b) && Backed(a, live, pt)
    requires forall n :: n in live' && n !in live && n in a ==> forall v: nat :: Touches(a[n], v) ==> v in pt
    ensures Backed(b, live', pt)
  {
    forall n, v: nat | n in live' && n in b && Touches(b[n], v)
      ensures v in pt
    {
      assert Touches(a[n], v);
    }
  }

  lemma LayoutPushFree(a: Nodes, b: Nodes, live: seq<nat>, free: seq<nat>, n: nat, pt: map<nat, nat>, bottom: nat,
                       top: nat)
    requires SameRanges(a, b) && Layout(a, live, free, pt, bottom, top)
    requires n in a && Fits(a, Ids(live) + Ids(free), bottom, top, a[n])
    ensures Layout(b, live, [n] + free, pt, bottom, top)
  {
    PutIn(a, b, Ids(live) + Ids(free), n, bottom, top);
    assert Ids(live) + Ids([n] + free) == Ids(live) + Ids(free) + {n};
    BackedMoves(a, b, live, live, pt);
  }

  lemma LayoutPushLive(a: Nodes, b: Nodes, live: seq<nat>, free: seq<nat>, n: nat, pt: map<nat, nat>, bottom: nat,
                       top: nat)
    requires SameRanges(a, b) && Layout(a, live, free, pt, bottom, top)
    requires n in a && Fits(a, Ids(live) + Ids(free), bottom, top, a[n])
    requires forall v: nat :: Touches(a[n], v) ==> v in pt
    ensures Layout(b, [n] + live, free, pt, bottom, top)
  {
    PutIn(a, b, Ids(live) + Ids(free), n, bottom, top);
    assert Ids([n] + live) + Ids(free) == Ids(live) + Ids(free) + {n};
    BackedMoves(a, b, live, [n] + live, pt);
  }

  lemma LayoutTakeFree(a: Nodes, b: Nodes, live: seq<nat>, free: seq<nat>, i: nat, pt: map<nat, nat>, bottom: nat,
                       top: nat)
    requires SameRanges(a, b) && Layout(a, live, free, pt, bottom, top) && Distinct(free) && i < |free|
    requires forall m :: m in live ==> m !in free
    ensures Layout(b, live, Without(free, i), pt, bottom, top) && free[i] in b
    ensures Fits(b, Ids(live) + Ids(Without(free, i)), bottom, top, b[free[i]])
  {
    WithoutMembers(free, i);
    TakeOut(a, b, Ids(live) + Ids(free), Ids(live) + Ids(Without(free, i)), free[i], bottom, top);
    BackedMoves(a, b, live, live, pt);
  }

  lemma LayoutTakeLive(a: Nodes, b: Nodes, live: seq<nat>, free: seq<nat>, i: nat, pt: map<nat, nat>, bottom: nat,
                       top: nat)
    requires SameRanges(a, b) && Layout(a, live, free, pt, bottom, top) && Distinct(live) && i < |live|
    requires forall m :: m in live ==> m !in free
    ensures Layout(b, Without(live, i), free, pt, bottom, top) && live[i] in b
    ensures Fits(b, Ids(Without(live, i)) + Ids(free), bottom, top, b[live[i]])
  {
    WithoutMembers(live, i);
    TakeOut(a, b, Ids(live) + Ids(free), Ids(Without(live, i)) + Ids(free), live[i], bottom, top);
    BackedMoves(a, b, live, Without(live, i), pt);
  }

  class Heap {
    const bottom: nat
    const foreign: set<nat>  // virtual pages mapped for other purposes: code, data, stack
    var top: nat
    var nodes: Nodes
    var mallocList: nat
    var mallocFreeList: nat
    var pt: map<nat, nat>    // mapped heap pages
    var supply: set<nat>     // the free pages; which of them alloc_page hands out does not matter here
    ghost var live: seq<nat>
    ghost var free: seq<nat>

    /** Valid but for the nodes in `hand`, which are in neither list. */
    ghost predicate Holding(hand: set<nat>)
      reads this
    {
      && Lists(nodes, mallocList, mallocFreeList, live, free, hand)
      && Layout(nodes, live, free, pt, bottom, top)
      && Pages(supply, pt, nodes.Keys) && PagesInside(pt, foreign, bottom, top)
      && 0 < bottom <= top <= VPNS * PGSIZE && bottom % PGSIZE == 0
    }

    ghost predicate Valid()
      reads this
    {
      Holding({})
    }

    /** A heap page is mapped only because a live block touches it. */
    ghost predicate Tight()
      reads this
    {
      AllTouched(nodes, live, pt)
    }

    /** The bytes between heap_bottom and heap_top that belong to no block, live or free. */
    ghost function Lost(): int
      reads this
    {
      top - bottom - Bytes(nodes, live) - Bytes(nodes, free)
    }

    constructor (bottom: nat, foreign: set<nat>, supply: set<nat>)
      requires 0 < bottom <= VPNS * PGSIZE && bottom % PGSIZE == 0
      requires forall v :: v in foreign ==> bottom <= v * PGSIZE || (v + 1) * PGSIZE <= bottom
      requires 0 !in supply
      ensures Valid() && Tight() && live == [] && free == [] && top == bottom && this.bottom == bottom &&
        this.foreign == foreign && this.supply == supply && Lost() == 0
    {
      this.bottom, this.foreign, this.top := bottom, foreign, bottom;
      nodes, mallocList, mallocFreeList := map[], 0, 0;
      pt, this.supply := map[], supply;
      live, free := [], [];
    }

    /** The neighbours of n are joined. */
    method Detach(n: nat)
      requires n in nodes
      modifies this`nodes
      ensures nodes == Unlinked(old(nodes), n)
    {
      var prev, next := nodes[n].prev, nodes[n].next;
      if prev != 0 {
        nodes := SetNext(nodes, prev, next);
      }
      if next != 0 {
        nodes := SetPrev(nodes, next, prev);
      }
      nodes := SetNext(SetPrev(nodes, n, 0), n, 0);
    }

    method UnlinkFree(n: nat, ghost i: nat, ghost hand: set<nat>)
      requires Holding(hand) && i < |free| && free[i] == n
      modifies this`nodes, this`mallocFreeList, this`free
      ensures Holding(hand + {n}) && free == Without(old(free), i)
      ensures SameRanges(old(nodes), nodes)
      ensures Fits(nodes, Ids(live) + Ids(free), bottom, top, nodes[n])
    {
      ListsUnlinkFree(nodes, mallocList, mallocFreeList, live, free, hand, i);
      LayoutTakeFree(nodes, Unlinked(nodes, n), live, free, i, pt, bottom, top);
      if nodes[n].prev == 0 {
        mallocFreeList := nodes[n].next;
      }
      Detach(n);
      free := Without(free, i);
    }

    method UnlinkLive(n: nat, ghost i: nat)
      requires Valid() && i < |live| && live[i] == n
      modifies this`nodes, this`mallocList, this`live
      ensures Holding({n}) && live == Without(old(live), i)
      ensures SameRanges(old(nodes), nodes)
      ensures Fits(nodes, Ids(live) + Ids(free), bottom, top, nodes[n])
    {
      ListsUnlinkLive(nodes, mallocList, mallocFreeList, live, free, {}, i);
      LayoutTakeLive(nodes, Unlinked(nodes, n), live, free, i, pt, bottom, top);
      assert {} + {n} == {n};
      if nodes[n].prev == 0 {
        mallocList := nodes[n].next;
      }
      Detach(n);
      live := Without(live, i);
    }

    method PushFree(n: nat, ghost hand: set<nat>)
      requires Holding(hand) && n in hand
      requires Fits(nodes, Ids(live) + Ids(free), bottom, top, nodes[n])
      modifies this`nodes, this`mallocFreeList, this`free
      ensures Holding(hand - {n}) && free == [n] + old(free) && SameRanges(old(nodes), nodes)
    {
      ghost var nodes0, free0 := nodes, free;
      ListsPushFree(nodes, mallocList, mallocFreeList, live, free, hand, n);
      nodes := SetNext(SetPrev(nodes, n, 0), n, mallocFreeList);
      if mallocFreeList != 0 {
        nodes := SetPrev(nodes, mallocFreeList, n);
      }
      mallocFreeList := n;
      free := [n] + free;
      LayoutPushFree(nodes0, nodes, live, free0, n, pt, bottom, top);
    }

    method PushLive(n: nat, ghost hand: set<nat>)
      requires Lists(nodes, mallocList, mallocFreeList, live, free, hand) && n in hand && n != 0
      modifies this`nodes, this`mallocList, this`live
      ensures Lists(nodes, mallocList, mallocFreeList, live, free, hand - {n})
      ensures live == [n] + old(live) && SameRanges(old(nodes), nodes)
    {
      ListsPushLive(nodes, mallocList, mallocFreeList, live, free, hand, n);
      nodes := SetNext(SetPrev(nodes, n, 0), n, mallocList);
      if mallocList != 0 {
        nodes := SetPrev(nodes, mallocList, n);
      }
      mallocList := n;
      live := [n] + live;
    }

    // -------------------------------------------------------------- pages

    /** lookup_pa(pt, v * PGSIZE) != 0 */
    predicate IsMapped(v: nat)
      reads this`pt
    {
      v < VPNS && (v in pt || v in foreign)
    }

    /** alloc_page: 0 when no page is left. */
    method AllocPage() returns (pa: nat)
      requires 0 !in supply
      modifies this`supply
      ensures pa == 0 <==> old(supply) == {}
      ensures pa == 0 ==> supply == {}
      ensures pa != 0 ==> pa in old(supply) && supply == old(supply) - {pa}
    {
      if supply == {} {
        return 0;
      }
      pa :| pa in supply;
      supply := supply - {pa};
    }

    /** Allocate a page and map it at v; user_vm_map kills the process if v is mapped already or out of range. */
    method MapFresh(v: nat) returns (r: Mapping)
      requires Pages(supply, pt, nodes.Keys)
      modifies this`pt, this`supply
      ensures (r.NoMemory? <==> old(supply) == {}) && (r.NoMemory? ==> pt == old(pt) && supply == {})
      ensures r.Dead? ==> v >= VPNS || v in old(pt) || v in foreign
      ensures r.Mapped? ==> v < VPNS && v !in old(pt) && v !in foreign && |supply| == |old(supply)| - 1
      ensures r.Mapped? ==> Pages(supply, pt, nodes.Keys) && Extends(old(pt), pt, v, v + 1)
    {
      var pa := AllocPage();
      if pa == 0 {
        return NoMemory;
      }
      if v >= VPNS || v in pt || v in foreign {
        return Dead;
      }
      pt := pt[v := pa];
      return Mapped;
    }

    /** user_vm_unmap of one page, with release. */
    method UnmapPage(v: nat) returns (dead: bool)
      requires Pages(supply, pt, nodes.Keys)
      modifies this`pt, this`supply
      ensures dead <==> v !in old(pt)
      ensures dead ==> pt == old(pt) && supply == old(supply)
      ensures !dead ==> pt == old(pt) - {v} && supply == old(supply) + {old(pt)[v]}
      ensures Pages(supply, pt, nodes.Keys)
    {
      if v !in pt {
        return true;
      }
      supply := {pt[v]} + supply;
      pt := pt - {v};
      return false;
    }

    /** The mapping loop of the reuse path. */
    method EnsureMapped(va: nat, size: nat) returns (r: Mapping)
      requires Pages(supply, pt, nodes.Keys) && size > 0 && va + size <= VPNS * PGSIZE
      modifies this`pt, this`supply
      ensures Pages(supply, pt, nodes.Keys) && !r.Dead?
      ensures Grown(old(pt), pt, PageOf(va), va + size)
      ensures forall v :: v in pt && v !in old(pt) ==> v < VPNS && v !in foreign
      ensures r.Mapped? ==> forall v: nat :: PageOf(va) <= v && v * PGSIZE < va + size ==> v in pt || v in foreign
      ensures var k := Lacking(old(pt), foreign, va, size);
        if r.Mapped? then |supply| == |old(supply)| - k else |old(supply)| < k
    {
      var v := PageOf(va);
      ghost var k := Unmapped(pt, foreign, v, va + size);
      while v * PGSIZE < va + size
        invariant PageOf(va) <= v
        invariant |supply| == |old(supply)| - k + Unmapped(old(pt), foreign, v, va + size)
        invariant forall w :: w >= v ==> (w in pt <==> w in old(pt))
        invariant Pages(supply, pt, nodes.Keys)
        invariant Grown(old(pt), pt, PageOf(va), va + size)
        invariant forall w :: w in pt && w !in old(pt) ==> w < VPNS && w !in foreign
        invariant forall w: nat :: PageOf(va) <= w < v ==> w in pt || w in foreign
        decreases va + size - v * PGSIZE
      {
        if !IsMapped(v) {
          r := MapFresh(v);
          if !r.Mapped? {
            return;
          }
        }
        v := v + 1;
      }
      r := Mapped;
    }

    /**
     The growth loop: pages first + 1 .. first + n are mapped; if memory runs out, those mapped so far
     are unmapped again, and `first` too if it was mapped for this block.
     */
    method MapRun(first: nat, ours: bool, n: nat) returns (r: Mapping)
      requires Pages(supply, pt, nodes.Keys) && (ours ==> first in pt)
      modifies this`pt, this`supply
      ensures !r.Dead? ==> Pages(supply, pt, nodes.Keys)
      ensures r.Mapped? ==> Extends(old(pt), pt, first + 1, first + 1 + n)
      ensures r.Mapped? ==> (n == 0 || first + n < VPNS)
      ensures (r.NoMemory? ==> |old(supply)| < n) && (r.Mapped? ==> |supply| == |old(supply)| - n)
      ensures r.Mapped? ==> forall v :: first < v <= first + n ==> v !in foreign && v !in old(pt)
      ensures r.NoMemory? ==> pt == if ours then old(pt) - {first} else old(pt)
      ensures r.Dead? ==> exists v :: first < v <= first + n && (v >= VPNS || v in foreign || v in old(pt))
    {
      var i := 0;
      while i < n
        invariant 0 <= i <= n
        invariant Pages(supply, pt, nodes.Keys)
        invariant Extends(old(pt), pt, first + 1, first + 1 + i)
        invariant (i == 0 || first + i < VPNS) && |supply| == |old(supply)| - i
        invariant forall v :: first < v <= first + i ==> v !in foreign && v !in old(pt)
      {
        ghost var next := first + 1 + i;
        r := MapFresh(first + 1 + i);
        if r.Dead? {
          assert first < next <= first + n && (next >= VPNS || next in foreign || next in old(pt));
          return;
        }
        if r.NoMemory? {
          Rollback(first, ours, i, old(pt));
          return;
        }
        i := i + 1;
      }
      r := Mapped;
    }

    method Rollback(first: nat, ours: bool, i: nat, ghost before: map<nat, nat>)
      requires Pages(supply, pt, nodes.Keys) && Extends(before, pt, first + 1, first + 1 + i)
      requires (ours ==> first in before) && forall v :: first < v <= first + i ==> v !in before
      modifies this`pt, this`supply
      ensures Pages(supply, pt, nodes.Keys)
      ensures pt == if ours then before - {first} else before
    {
      if ours {
        var dead := UnmapPage(first);
      }
      var j := 0;
      ghost var base := if ours then before - {first} else before;
      while j < i
        invariant 0 <= j <= i
        invariant Pages(supply, pt, nodes.Keys)
        invariant Extends(base, pt, first + 1 + j, first + 1 + i)
      {
        var dead := UnmapPage(first + 1 + j);
        j := j + 1;
      }
      assert pt.Keys == base.Keys;
      assert pt == base;
    }

    // -------------------------------------------------------------- user_better_malloc

    /** The first free block that is large enough; 0 if there is none. */
    method FindFit(size: nat) returns (n: nat, ghost i: nat)
      requires Valid()
      ensures (n == 0 <==> !HasFit(nodes, free, size)) && (n == 0 ==> i == |free|)
      ensures n != 0 ==> i < |free| && free[i] == n && n in nodes && nodes[n].size >= size
      ensures i == FirstFit(nodes, free, size)
    {
      n, i := mallocFreeList, 0;
      while n != 0
        invariant 0 <= i <= |free| && n == Nth(free, i)
        invariant forall j :: 0 <= j < i ==> free[j] in nodes && nodes[free[j]].size < size
        decreases |free| - i
      {
        assert LinkedAt(nodes, free, i);
        if nodes[n].size >= size {
          FirstFitIs(nodes, free, size, i);
          return;
        }
        n, i := nodes[n].next, i + 1;
      }
      NullEnds(nodes, mallocFreeList, free, i);
      FirstFitIs(nodes, free, size, i);
    }

    /** A descriptor: the head of the free list, whose block is forgotten if it is used, or a new page. */
    method Acquire(ghost hand: set<nat>) returns (n: nat, recycled: bool)
      requires Holding(hand)
      modifies this`nodes, this`mallocFreeList, this`free, this`supply
      ensures n == 0 ==> Holding(hand) && free == old(free) == [] && nodes == old(nodes) && old(supply) == {}
      ensures n != 0 ==> (recycled <==> old(free) != []) && |supply| == |old(supply)| - if recycled then 0 else 1
      ensures n != 0 ==> Holding(hand + {n}) && n !in live && n !in free && n !in hand
      ensures n != 0 && recycled ==>
        old(free) == [n] + free && SameRanges(old(nodes), nodes) &&
        Fits(nodes, Ids(live) + Ids(free), bottom, top, nodes[n])
      ensures n != 0 && !recycled ==>
        old(free) == free == [] && n !in old(nodes) && nodes == old(nodes)[n := Node(0, 0, 0, 0)]
    {
      if mallocFreeList != 0 {
        n := mallocFreeList;
        assert LinkedAt(nodes, free, 0);
        assert free == [n] + Without(free, 0);
        UnlinkFree(n, 0, hand);
        return n, true;
      }
      NullEnds(nodes, mallocFreeList, free, 0);
      n := NewNode(hand);
      return n, false;
    }

    /** A fresh page becomes a descriptor. */
    method NewNode(ghost hand: set<nat>) returns (n: nat)
      requires Holding(hand)
      modifies this`nodes, this`supply
      ensures n == 0 ==> Holding(hand) && nodes == old(nodes) && old(supply) == {}
      ensures n != 0 ==> Holding(hand + {n}) && n !in live && n !in free && n !in hand
      ensures n != 0 ==> n !in old(nodes) && nodes == old(nodes)[n := Node(0, 0, 0, 0)] && |supply| == |old(supply)| - 1
    {
      n := AllocPage();
      if n != 0 {
        ListsSet(nodes, mallocList, mallocFreeList, live, free, hand, n, Node(0, 0, 0, 0));
        nodes := nodes[n := Node(0, 0, 0, 0)];
      }
    }

    /** The failure paths: the descriptor goes back where it came from. */
    method GiveBack(n: nat, recycled: bool)
      requires Holding({n}) && n !in live && n !in free
      requires recycled ==> Fits(nodes, Ids(live) + Ids(free), bottom, top, nodes[n])
      requires !recycled ==> free == []
      modifies this`nodes, this`mallocFreeList, this`free, this`supply
      ensures Valid()
      ensures free == if recycled then [n] + old(free) else old(free)
      ensures recycled ==> SameRanges(old(nodes), nodes)
      ensures !recycled ==> nodes == old(nodes) - {n}
    {
      if recycled {
        PushFree(n, {n});
        assert {n} - {n} == {};
      } else {
        DListFrame(nodes, nodes - {n}, mallocList, live);
        DListFrame(nodes, nodes - {n}, mallocFreeList, free);
        nodes := nodes - {n};
        supply := supply + {n};
      }
    }

    /** The reuse path up to the mapping: block n leaves the free list and its first `size` bytes get pages. */
    method TakeFit(n: nat, ghost i: nat, size: nat, ghost k: nat) returns (ok: bool, ghost more: map<nat, nat>)
      requires Valid() && 0 < size && i < |free| && free[i] == n && n in nodes && nodes[n].size >= size
      requires k == Lacking(pt, foreign, nodes[n].va, size)
      modifies this`nodes, this`mallocFreeList, this`free, this`pt, this`supply
      ensures SameRanges(old(nodes), nodes) && n in nodes
      ensures nodes[n].va == old(nodes[n].va) && nodes[n].size == old(nodes[n].size)
      ensures pt == old(pt) + more && more.Keys !! old(pt).Keys && OnPages(more, old(nodes[n].va), size)
      ensures !ok ==> Valid()
      ensures ok ==> Holding({n}) && Fits(nodes, Ids(live) + Ids(free), bottom, top, nodes[n])
      ensures ok ==> forall v: nat :: Touches(Node(nodes[n].va, size, 0, 0), v) ==> v in pt
      ensures (ok ==> free == Without(old(free), i)) && (!ok ==> free == [n] + Without(old(free), i))
      ensures Spent(|old(supply)|, |supply|, k, ok)
    {
      UnlinkFree(n, i, {});
      assert {} + {n} == {n};
      ok, more := MapFit(n, size, k);
      if !ok {
        PushFree(n, {n});
        assert {n} - {n} == {};
      }
    }

    /** The first `size` bytes of the block in hand get pages. */
    method MapFit(n: nat, size: nat, ghost k: nat) returns (ok: bool, ghost more: map<nat, nat>)
      requires Holding({n}) && n in nodes && 0 < size <= nodes[n].size &&
        Fits(nodes, Ids(live) + Ids(free), bottom, top, nodes[n])
      requires k == Lacking(pt, foreign, nodes[n].va, size)
      modifies this`pt, this`supply
      ensures Holding({n}) && pt == old(pt) + more && more.Keys !! old(pt).Keys && OnPages(more, nodes[n].va, size)
      ensures ok ==> forall v: nat :: Touches(Node(nodes[n].va, size, 0, 0), v) ==> v in pt
      ensures Spent(|old(supply)|, |supply|, k, ok)
    {
      ghost var pt0 := pt;
      var r := EnsureMapped(nodes[n].va, size);
      MappedMore(nodes, live, free, pt0, pt, nodes[n].va, size);
      more := Beyond(pt0, pt);
      BeyondPages(pt0, pt, nodes[n].va, size);
      if r.NoMemory? {
        return false, more;
      }
      forall v: nat | Touches(Node(nodes[n].va, size, 0, 0), v)
        ensures v in pt
      {
        TouchedPages(nodes[n].va, size, v);
      }
      return true, more;
    }

    /** The block in hand becomes live. */
    method ListLive(n: nat)
      requires Holding({n}) && n in nodes && Fits(nodes, Ids(live) + Ids(free), bottom, top, nodes[n])
      requires forall v: nat :: Touches(nodes[n], v) ==> v in pt
      modifies this`nodes, this`mallocList, this`live
      ensures Valid() && live == [n] + old(live) && SameRanges(old(nodes), nodes) && pt == old(pt)
    {
      ghost var nodes0, live0 := nodes, live;
      PushLive(n, {n});
      assert {n} - {n} == {};
      LayoutPushLive(nodes0, nodes, live0, free, n, pt, bottom, top);
    }

    /** The reuse path: block n of the free list serves the request, what is left of it stays free. */
    method Reuse(n: nat, ghost i: nat, size: nat) returns (va: nat, ghost more: map<nat, nat>)
      requires Valid() && 0 < size && i < |free| && free[i] == n && n in nodes && nodes[n].size >= size
      modifies this`nodes, this`mallocList, this`mallocFreeList, this`live, this`free, this`pt, this`supply
      ensures Valid()
      ensures Reused(old(nodes), old(live), old(free), nodes, live, free, i, size, va)
      ensures pt == old(pt) + more && more.Keys !! old(pt).Keys && OnPages(more, old(nodes[n].va), size)
      ensures var k := PagesOf(old(pt), foreign, old(nodes[n]), Without(old(free), i), size);
        Spent(|old(supply)|, |supply|, k, va != 0)
    {
      va := nodes[n].va;
      ghost var nodes0, live0, free0, k := nodes, live, free, Lacking(pt, foreign, nodes[n].va, size);
      var ok: bool;
      ok, more := TakeFit(n, i, size, k);
      if ok {
        ghost var nodes1, free1 := nodes, free;
        ok := Serve(n, size);
        ServedReuses(nodes0, nodes1, nodes, live0, live, free0, free1, free, i, size, ok);
      }
      va := if ok then va else 0;
    }

    /** The block in hand serves the request: it is cut to size and becomes live. */
    method Serve(n: nat, size: nat) returns (ok: bool)
      requires Holding({n}) && n in nodes && 0 < size <= nodes[n].size &&
        Fits(nodes, Ids(live) + Ids(free), bottom, top, nodes[n])
      requires forall v: nat :: Touches(Node(nodes[n].va, size, 0, 0), v) ==> v in pt
      modifies this`nodes, this`mallocList, this`mallocFreeList, this`live, this`free, this`supply
      ensures Valid() && Served(old(nodes), old(live), old(free), nodes, live, free, n, size, ok) && pt == old(pt)
      ensures Spent(|old(supply)|, |supply|, if size < old(nodes[n].size) && |old(free)| == 0 then 1 else 0, ok)
    {
      ok := true;
      ghost var mapped := pt;
      if nodes[n].size > size {
        ok := Split(n, size);
        if !ok {
          return;
        }
      }
      assert pt == mapped;
      ListLive(n);
    }

    /** Pages mapped for a block inside the heap keep everything else in place. */
    lemma MappedMore(nodes: Nodes, live: seq<nat>, free: seq<nat>, before: map<nat, nat>, after: map<nat, nat>, va: nat,
                     size: nat)
      requires Layout(nodes, live, free, before, bottom, top) && PagesInside(before, foreign, bottom, top)
      requires bottom % PGSIZE == 0 && bottom <= va && va + size <= top && Grown(before, after, PageOf(va), va + size)
      requires forall v :: v in after && v !in before ==> v < VPNS && v !in foreign
      ensures Layout(nodes, live, free, after, bottom, top) && PagesInside(after, foreign, bottom, top)
    {
      forall v | v in after
        ensures bottom <= v * PGSIZE < top && v !in foreign && v < VPNS
      {
        if v !in before {
          assert bottom / PGSIZE <= PageOf(va);
        }
      }
    }

    /** The remainder of block n beyond `size` gets a descriptor of its own on the free list. */
    method Split(n: nat, size: nat) returns (ok: bool)
      requires Holding({n}) && n in nodes && 0 < size < nodes[n].size
      requires Fits(nodes, Ids(live) + Ids(free), bottom, top, nodes[n])
      modifies this`nodes, this`mallocFreeList, this`free, this`supply
      ensures KeepsLive(old(nodes), nodes, live)
      ensures !ok ==> Valid() && free == [n] + old(free) && SameRanges(old(nodes), nodes)
      ensures ok ==> Holding({n}) && n in nodes && nodes[n].va == old(nodes[n].va) && nodes[n].size == size
      ensures ok ==> Fits(nodes, Ids(live) + Ids(free), bottom, top, nodes[n])
      ensures ok ==> Remains(old(nodes), old(free), nodes, free, old(nodes[n]), size)
      ensures var k := if |old(free)| == 0 then 1 else 0;
        if ok then |supply| == |old(supply)| - k else |old(supply)| < k
    {
      ghost var nodes0, free0 := nodes, free;
      var rem, recycled := Acquire({n});
      if rem == 0 {
        PushFree(n, {n});
        assert {n} - {n} == {};
        return false;
      }
      AcquiredRest(free0, free, rem, recycled);
      ghost var nodes1 := nodes;
      CutOff(n, rem, size);
      CutRemains(nodes0, free0, nodes1, nodes, free, n, rem, size);
      return true;
    }

    /** rem, in hand too, becomes the descriptor of what n is cut off. */
    method CutOff(n: nat, rem: nat, size: nat)
      requires Holding({n} + {rem}) && n != rem && 0 < size < nodes[n].size
      requires Fits(nodes, Ids(live) + Ids(free), bottom, top, nodes[n])
      modifies this`nodes, this`mallocFreeList, this`free
      ensures Holding({n}) && n in nodes && nodes[n].va == old(nodes[n].va) && nodes[n].size == size
      ensures Fits(nodes, Ids(live) + Ids(free), bottom, top, nodes[n])
      ensures KeepsLive(old(nodes), nodes, live) && KeepsLive(old(nodes), nodes, old(free)) && free == [rem] + old(free)
      ensures rem in nodes && nodes[rem].va == old(nodes[n].va) + size && nodes[rem].size == old(nodes[n].size) - size
    {
      Carve(n, rem, size);
      PushRemainder(n, rem);
    }

    method PushRemainder(n: nat, rem: nat)
      requires Holding({n} + {rem}) && n != rem && Apart(nodes[n], nodes[rem])
      requires Fits(nodes, Ids(live) + Ids(free), bottom, top, nodes[n])
      requires Fits(nodes, Ids(live) + Ids(free), bottom, top, nodes[rem])
      modifies this`nodes, this`mallocFreeList, this`free
      ensures Holding({n}) && SameRanges(old(nodes), nodes) && free == [rem] + old(free)
      ensures Fits(nodes, Ids(live) + Ids(free), bottom, top, nodes[n])
    {
      ghost var nodes0, free0 := nodes, free;
      PushFree(rem, {n} + {rem});
      assert {n} + {rem} - {rem} == {n};
      FitsBeside(nodes0, nodes, Ids(live) + Ids(free0), rem, nodes0[n]);
      assert Ids(live) + Ids(free) == Ids(live) + Ids(free0) + {rem};
    }

    /** rem takes the range behind the first `size` bytes of n. */
    method Carve(n: nat, rem: nat, size: nat)
      requires Holding({n} + {rem}) && n != rem && 0 < size < nodes[n].size
      requires Fits(nodes, Ids(live) + Ids(free), bottom, top, nodes[n])
      modifies this`nodes
      ensures Holding({n} + {rem}) && KeepsLive(old(nodes), nodes, live) && KeepsLive(old(nodes), nodes, free)
      ensures nodes[rem].va == old(nodes[n].va) + size && nodes[rem].size == old(nodes[n].size) - size
      ensures nodes[n].va == old(nodes[n].va) && nodes[n].size == size && Apart(nodes[n], nodes[rem])
      ensures Fits(nodes, Ids(live) + Ids(free), bottom, top, nodes[n])
      ensures Fits(nodes, Ids(live) + Ids(free), bottom, top, nodes[rem])
    {
      var b := nodes[n];
      ghost var nodes0 := nodes;
      ListsSet(nodes, mallocList, mallocFreeList, live, free, {n} + {rem}, rem, Node(b.va + size, b.size - size, 0, 0));
      nodes := nodes[rem := Node(b.va + size, b.size - size, 0, 0)];
      assert {n} + {rem} + {rem} == {n} + {rem};
      ListsSet(nodes, mallocList, mallocFreeList, live, free, {n} + {rem}, n, b.(size := size));
      nodes := nodes[n := b.(size := size)];
      assert {n} + {rem} + {n} == {n} + {rem};
      ListedKept(nodes0, nodes, live, free, pt, bottom, top);
    }

    /** The mapping of the growth path: the page of heap_top if it is not mapped yet, and n more. */
    method GrowPages(page: nat, n: nat) returns (r: Mapping)
      requires Pages(supply, pt, nodes.Keys)
      modifies this`pt, this`supply
      ensures !r.Dead? ==> Pages(supply, pt, nodes.Keys)
      ensures r.NoMemory? ==> pt == old(pt)
      ensures r.Mapped? ==> RunMapped(old(pt), pt, foreign, page, n)
      ensures var k := n + if old(IsMapped(page)) then 0 else 1;
        (r.NoMemory? ==> |old(supply)| < k) && (r.Mapped? ==> |supply| == |old(supply)| - k)
      ensures r.Dead? ==> page >= VPNS || exists v ::
        page < v <= page + n && (v >= VPNS || v in foreign || v in old(pt))
    {
      var ours := false;
      if !IsMapped(page) {
        r := MapFresh(page);
        if !r.Mapped? {
          return;
        }
        ours := true;
      }
      ghost var pt1 := pt;
      r := MapRun(page, ours, n);
      if r.Dead? {
        ghost var v :| page < v <= page + n && (v >= VPNS || v in foreign || v in pt1);
        assert v in pt1 ==> v in old(pt);
      }
      if r.NoMemory? {
        assert pt.Keys == old(pt).Keys;
        assert pt == old(pt);
      }
    }

    method GrowFor(size: nat) returns (r: Mapping)
      requires Pages(supply, pt, nodes.Keys) && PagesInside(pt, foreign, bottom, top)
      modifies this`pt, this`supply
      ensures !r.Dead? ==> Pages(supply, pt, nodes.Keys)
      ensures r.NoMemory? ==> pt == old(pt)
      ensures r.Mapped? ==>
        RunMapped(old(pt), pt, foreign, PageOf(top), ExtraPages(top, size)) && !Collides(top, size, foreign)
      ensures r.NoMemory? ==> |old(supply)| < old(Behind(size))
      ensures r.Mapped? ==> |supply| == |old(supply)| - old(Behind(size))
      ensures r.Dead? ==> Collides(top, size, foreign)
    {
      NothingAbove(pt, foreign, bottom, top);
      ghost var pt0, page, extra := pt, PageOf(top), ExtraPages(top, size);
      r := GrowPages(PageOf(top), ExtraPages(top, size));
      if r.Dead? && page < VPNS {
        ghost var v: nat :| page < v <= page + extra && (v >= VPNS || v in foreign || v in pt0);
        CollidesAt(top, size, foreign, v);
      }
    }

    /** heap_top moves up and the new block becomes live. */
    method Finish(n: nat, size: nat)
      requires Lists(nodes, mallocList, mallocFreeList, live, free, {n}) && n != 0 && size < WORD
      modifies this`top, this`nodes, this`mallocList, this`live
      ensures Lists(nodes, mallocList, mallocFreeList, live, free, {}) && live == [n] + old(live)
      ensures top == NewTop(old(top), size)
      ensures SameRanges(old(nodes)[n := Node(old(top), size, 0, 0)], nodes)
    {
      ListsSet(nodes, mallocList, mallocFreeList, live, free, {n}, n, Node(top, size, 0, 0));
      assert {n} + {n} == {n};
      nodes := nodes[n := Node(top, size, 0, 0)];
      top := NewTop(top, size);
      PushLive(n, {n});
      assert {n} - {n} == {};
    }

    /** The pages that a block of this size takes: a descriptor, the page of heap_top, and those behind it. */
    ghost function PagesFor(size: nat): nat
      reads this
    {
      (if free == [] then 1 else 0) + Behind(size)
    }

    ghost function Behind(size: nat): nat
      reads this`pt, this`top
    {
      (if IsMapped(PageOf(top)) then 0 else 1) + ExtraPages(top, size)
    }

    /** No free block fits: the heap grows. */
    method Grow(size: nat) returns (outcome: Outcome)
      requires Valid() && 0 < size < WORD
      modifies this
      ensures outcome == Ret(0) ==>
        Valid() && live == old(live) && KeepsLive(old(nodes), nodes, live) && top == old(top) && pt == old(pt)
      ensures outcome.Ret? && outcome.va != 0 ==>
        && outcome.va == old(top) && top == NewTop(old(top), size)
        && (exists n :: live == [n] + old(live) && n in nodes && nodes[n].va == old(top) && nodes[n].size == size)
        && KeepsLive(old(nodes), nodes, old(live))
      ensures outcome.Ret? && outcome.va != 0 ==> (Valid() <==> !Unsafe(old(top), size, foreign))
      ensures outcome.Ret? && outcome.va != 0 && !Unsafe(old(top), size, foreign) ==>
        Grown(old(pt), pt, PageOf(old(top)), top)
      ensures outcome.Killed? ==> Collides(old(top), size, foreign)
      ensures outcome.Ret? && outcome.va != 0 ==> !Collides(old(top), size, foreign) && free == Rest(old(free))
      ensures outcome == Ret(0) ==> |old(supply)| < old(PagesFor(size))
      ensures outcome.Ret? && outcome.va != 0 ==> |supply| == |old(supply)| - old(PagesFor(size))
      ensures outcome.Ret? ==> KeepsLive(old(nodes), nodes, free)
      ensures outcome == Ret(0) ==> free == old(free)
    {
      var top0 := top;
      var r, n := GrowBlock(size);
      return match r
        case Mapped => Ret(top0)
        case NoMemory => Ret(0)
        case Dead => Killed;
    }

    /** The whole growth path, with the descriptor of the new block. */
    method GrowBlock(size: nat) returns (r: Mapping, n: nat)
      requires Valid() && 0 < size < WORD
      modifies this
      ensures r.NoMemory? ==>
        Valid() && live == old(live) && KeepsLive(old(nodes), nodes, live) && top == old(top) && pt == old(pt)
      ensures r.Mapped? ==>
        live == [n] + old(live) && top == NewTop(old(top), size) && KeepsLive(old(nodes), nodes, old(live))
      ensures r.Mapped? ==>
        n in nodes && nodes[n].va == old(top) && nodes[n].size == size && !Collides(old(top), size, foreign)
      ensures r.Mapped? && Unsafe(old(top), size, foreign) ==> !Valid()
      ensures r.Mapped? && !Unsafe(old(top), size, foreign) ==> Valid() && Grown(old(pt), pt, PageOf(old(top)), top)
      ensures r.Dead? ==> Collides(old(top), size, foreign)
      ensures r.NoMemory? ==> |old(supply)| < old(PagesFor(size))
      ensures r.Mapped? ==> |supply| == |old(supply)| - old(PagesFor(size)) && free == Rest(old(free))
      ensures r.Mapped? ==> KeepsLive(old(nodes), nodes, free)
      ensures r.NoMemory? ==> free == old(free) && KeepsLive(old(nodes), nodes, free)
    {
      var recycled: bool;
      n, recycled := Acquire({});
      if n == 0 {
        return NoMemory, 0;
      }
      assert {} + {n} == {n};
      assert |supply| - Behind(size) == |old(supply)| - old(PagesFor(size));
      r := GrowWith(n, recycled, size);
    }

    /** The growth path with a descriptor in hand. */
    method GrowWith(n: nat, recycled: bool, size: nat) returns (r: Mapping)
      requires Holding({n}) && n !in live && n !in free && n != 0 && 0 < size < WORD && PGSIZE <= top
      requires recycled ==> Fits(nodes, Ids(live) + Ids(free), bottom, top, nodes[n])
      requires !recycled ==> free == []
      modifies this
      ensures r.NoMemory? ==>
        Valid() && live == old(live) && KeepsLive(old(nodes), nodes, live) && top == old(top) && pt == old(pt)
      ensures r.Mapped? ==>
        live == [n] + old(live) && top == NewTop(old(top), size) && KeepsLive(old(nodes), nodes, old(live))
      ensures r.Mapped? ==>
        n in nodes && nodes[n].va == old(top) && nodes[n].size == size && !Collides(old(top), size, foreign)
      ensures r.Mapped? && Unsafe(old(top), size, foreign) ==> !Valid()
      ensures r.Mapped? && !Unsafe(old(top), size, foreign) ==> Valid() && Grown(old(pt), pt, PageOf(old(top)), top)
      ensures r.NoMemory? ==> |old(supply)| < old(Behind(size))
      ensures r.Mapped? ==> |supply| == |old(supply)| - old(Behind(size))
      ensures r.Mapped? ==> free == old(free) && KeepsLive(old(nodes), nodes, free)
      ensures r.NoMemory? ==> free == (if recycled then [n] else []) + old(free) && KeepsLive(old(nodes), nodes, free)
      ensures r.Dead? ==> Collides(old(top), size, foreign)
    {
      ghost var pt0 := pt;
      r := GrowFor(size);
      if r.NoMemory? {
        GiveBack(n, recycled);
      } else if r.Mapped? {
        Extend(n, size, pt0);
      }
    }

    /** The end of the growth path, once the pages are mapped: right exactly when the request was safe. */
    method Extend(n: nat, size: nat, ghost pt0: map<nat, nat>)
      requires Lists(nodes, mallocList, mallocFreeList, live, free, {n}) && n != 0 && 0 < size < WORD
      requires Layout(nodes, live, free, pt0, bottom, top) && PagesInside(pt0, foreign, bottom, top)
      requires Pages(supply, pt, nodes.Keys) && RunMapped(pt0, pt, foreign, PageOf(top), ExtraPages(top, size))
      requires 0 < bottom <= top && bottom % PGSIZE == 0
      modifies this`top, this`nodes, this`mallocList, this`live
      ensures live == [n] + old(live) && top == NewTop(old(top), size)
      ensures n in nodes && nodes[n].va == old(top) && nodes[n].size == size && KeepsLive(old(nodes), nodes, old(live))
      ensures KeepsLive(old(nodes), nodes, free)
      ensures if Unsafe(old(top), size, foreign) then !Valid() else Valid() && Grown(pt0, pt, PageOf(old(top)), top)
    {
      ghost var nodes0, live0, top0 := nodes, live, top;
      Finish(n, size);
      if Unsafe(top0, size, foreign) {
        UnsafeBreaks(nodes, live, free, pt, foreign, bottom, top, n, top0, size);
      } else {
        GrownWell(nodes0, nodes, live0, live, free, pt0, pt, foreign, bottom, top0, top, size, n);
        assert Holding({});
      }
    }

    /** The live blocks as (address, size) pairs. */
    ghost function LiveBlocks(): set<(nat, nat)>
      reads this
    {
      Ranges(nodes, live)
    }

    /**
     user_better_malloc.  A result of 0 means that no block was granted and none changed.  Otherwise the
     block joins the live ones, and the heap stays valid exactly unless the request had to grow the
     heap and was unsafe.  Pages mapped before stay mapped to the same physical pages.  Bytes of the heap
     are lost exactly if the descriptor of a free block is taken for the new block or for a remainder.
     */
    method Malloc(size: nat) returns (outcome: Outcome)
      requires Valid() && size < WORD
      modifies this
      ensures size == 0 ==> outcome == Ret(0)
      ensures outcome == Ret(0) ==> Valid() && LiveBlocks() == old(LiveBlocks())
      ensures outcome.Ret? && outcome.va != 0 ==> LiveBlocks() == old(LiveBlocks()) + {(outcome.va, size)}
      ensures outcome.Ret? && outcome.va != 0 ==>
        (Valid() <==> old(HasFit(nodes, free, size)) || !Unsafe(old(top), size, foreign))
      ensures outcome.Ret? && Valid() ==> forall v :: v in old(pt) ==> v in pt && pt[v] == old(pt)[v]
      ensures outcome.Ret? && outcome.va != 0 && Valid() && old(Tight()) ==> Tight()
      ensures outcome.Killed? ==> !old(HasFit(nodes, free, size)) && Collides(old(top), size, foreign)
      ensures outcome.Ret? && outcome.va != 0 && !old(HasFit(nodes, free, size)) ==>
        outcome.va == old(top) && top == NewTop(old(top), size) && !Collides(old(top), size, foreign)
      ensures outcome == Ret(0) && size > 0 && !old(HasFit(nodes, free, size)) ==> |old(supply)| < old(PagesFor(size))
      ensures outcome.Ret? && outcome.va != 0 && !old(HasFit(nodes, free, size)) ==>
        |supply| == |old(supply)| - old(PagesFor(size)) && free == Rest(old(free))
      ensures outcome.Ret? && size > 0 && old(HasFit(nodes, free, size)) ==>
        Refitted(old(nodes), old(free), old(pt), foreign, |old(supply)|, nodes, free, |supply|, size, outcome.va)
      ensures outcome.Ret? && Valid() ==>
        Lost() == old(Lost()) + if outcome.va == 0 then 0 else Forgotten(old(nodes), old(free), size)
    {
      if size == 0 {
        return Ret(0);
      }
      var n, i := FindFit(size);
      if n != 0 {
        var va := MallocFit(n, i, size);
        return Ret(va);
      }
      outcome := MallocGrow(size);
    }

    method MallocFit(n: nat, ghost i: nat, size: nat) returns (va: nat)
      requires Valid() && 0 < size && i < |free| && free[i] == n && n in nodes && nodes[n].size >= size
      requires i == FirstFit(nodes, free, size)
      modifies this`nodes, this`mallocList, this`mallocFreeList, this`live, this`free, this`pt, this`supply
      ensures Valid() && LiveBlocks() == old(LiveBlocks()) + if va == 0 then {} else {(va, size)}
      ensures forall v :: v in old(pt) ==> v in pt && pt[v] == old(pt)[v]
      ensures va != 0 && old(Tight()) ==> Tight()
      ensures Refitted(old(nodes), old(free), old(pt), foreign, |old(supply)|, nodes, free, |supply|, size, va)
      ensures Lost() == old(Lost()) + if va == 0 then 0 else Forgotten(old(nodes), old(free), size)
    {
      ghost var nodes0, live0, pt0, free0 := nodes, live, pt, free;
      FreeKnown(nodes, live, free, pt, bottom, top);
      ghost var more: map<nat, nat>;
      va, more := Reuse(n, i, size);
      BeyondGrown(pt0, more, nodes0[n].va, size);
      assert Served(nodes0, live0, Without(free0, i), nodes, live, free, n, size, va != 0);
      if va == 0 {
        KeptRanges(nodes0, nodes, live);
        FailedBytes(nodes0, nodes, live, free0, i);
      } else {
        ReuseBytes(nodes0, nodes, live0, free0, free, i, n, size);
        AddedLive(nodes0, nodes, live0, n);
        if old(Tight()) {
          StillTight(nodes0, nodes, live0, n, pt0, pt, va, size);
        }
      }
    }

    method MallocGrow(size: nat) returns (outcome: Outcome)
      requires Valid() && 0 < size < WORD && FirstFit(nodes, free, size) == |free|
      modifies this
      ensures outcome == Ret(0) ==> Valid() && LiveBlocks() == old(LiveBlocks())
      ensures outcome.Ret? && outcome.va != 0 ==> LiveBlocks() == old(LiveBlocks()) + {(outcome.va, size)}
      ensures outcome.Ret? && outcome.va != 0 ==> (Valid() <==> !Unsafe(old(top), size, foreign))
      ensures outcome.Ret? && Valid() ==> forall v :: v in old(pt) ==> v in pt && pt[v] == old(pt)[v]
      ensures outcome.Ret? && outcome.va != 0 && Valid() && old(Tight()) ==> Tight()
      ensures outcome.Killed? ==> Collides(old(top), size, foreign)
      ensures outcome.Ret? && outcome.va != 0 ==>
        outcome.va == old(top) && top == NewTop(old(top), size) && !Collides(old(top), size, foreign)
      ensures outcome == Ret(0) ==> |old(supply)| < old(PagesFor(size))
      ensures outcome.Ret? && outcome.va != 0 ==>
        |supply| == |old(supply)| - old(PagesFor(size)) && free == Rest(old(free))
      ensures outcome.Ret? && Valid() ==>
        Lost() == old(Lost()) + if outcome.va == 0 then 0 else Forgotten(old(nodes), old(free), size)
    {
      ghost var nodes0, live0, pt0, free0 := nodes, live, pt, free;
      outcome := Grow(size);
      if outcome == Ret(0) {
        KeptRanges(nodes0, nodes, live);
        BytesKept(nodes0, nodes, live);
        BytesKept(nodes0, nodes, free);
      } else if outcome.Ret? {
        ghost var m :| live == [m] + live0 && m in nodes && nodes[m].va == outcome.va && nodes[m].size == size;
        AddedLive(nodes0, nodes, live0, m);
        GrowBytes(nodes0, nodes, live0, free0, m, size);
        if Valid() {
          TopIs(outcome.va, size, top, nodes[m], bottom, nodes, live, free, pt, m);
        }
        if Valid() && old(Tight()) {
          StillTight(nodes0, nodes, live0, m, pt0, pt, outcome.va, size);
        }
      }
    }

    // -------------------------------------------------------------- user_better_free

    /** page_has_other_allocation */
    method PageInUse(v: nat) returns (b: bool)
      requires Valid()
      ensures b <==> InUse(nodes, live, v)
    {
      var m := mallocList;
      ghost var i := 0;
      while m != 0
        invariant 0 <= i <= |live| && m == Nth(live, i)
        invariant forall j :: 0 <= j < i ==> live[j] in nodes && !Touches(nodes[live[j]], v)
        decreases |live| - i
      {
        assert LinkedAt(nodes, live, i);
        if nodes[m].va + nodes[m].size > v * PGSIZE && nodes[m].va < v * PGSIZE + PGSIZE {
          assert m in live;
          return true;
        }
        m, i := nodes[m].next, i + 1;
      }
      NullEnds(nodes, mallocList, live, i);
      return false;
    }

    /** The unmapping loop: pages of the freed block that no live block touches. */
    method ReleasePages(va: nat, size: nat) returns (dead: bool)
      requires Valid() && size > 0
      requires forall v: nat :: PageOf(va) <= v && v * PGSIZE < va + size ==> v in pt
      modifies this`pt, this`supply
      ensures Valid() && !dead
      ensures forall v ::
        v in pt <==> v in old(pt) && (InUse(nodes, live, v) || v < PageOf(va) || v * PGSIZE >= va + size)
      ensures forall v :: v in pt && v in old(pt) ==> pt[v] == old(pt)[v]
      ensures supply == old(supply) + Released(old(pt), pt)
    {
      var v := PageOf(va);
      while v * PGSIZE < va + size
        invariant PageOf(va) <= v && Valid()
        invariant supply == old(supply) + Released(old(pt), pt)
        invariant forall w :: w in pt <==> w in old(pt) && (InUse(nodes, live, w) || w < PageOf(va) || w >= v)
        invariant forall w :: w in pt && w in old(pt) ==> pt[w] == old(pt)[w]
        invariant v > PageOf(va) ==> (v - 1) * PGSIZE < va + size
        decreases va + size - v * PGSIZE
      {
        OneReleased(old(pt), pt, v);
        dead := ReleasePage(v);
        v := v + 1;
      }
      dead := false;
    }

    /** One iteration of it. */
    method ReleasePage(v: nat) returns (dead: bool)
      requires Valid() && v in pt
      modifies this`pt, this`supply
      ensures Valid() && !dead
      ensures pt == if InUse(nodes, live, v) then old(pt) else old(pt) - {v}
      ensures supply == old(supply) + if InUse(nodes, live, v) then {} else {old(pt)[v]}
    {
      dead := false;
      var used := PageInUse(v);
      if !used {
        Unbacked(nodes, live, pt, v);
        dead := UnmapPage(v);
      }
    }

    /** The block at va, if any. */
    method FindLive(va: nat) returns (n: nat, ghost i: nat)
      requires Valid()
      ensures n == 0 <==> forall m :: m in live && m in nodes ==> nodes[m].va != va
      ensures n != 0 ==> i < |live| && live[i] == n && n in nodes && nodes[n].va == va
    {
      n, i := mallocList, 0;
      while n != 0
        invariant 0 <= i <= |live| && n == Nth(live, i)
        invariant forall j :: 0 <= j < i ==> live[j] in nodes && nodes[live[j]].va != va
        decreases |live| - i
      {
        assert LinkedAt(nodes, live, i);
        if nodes[n].va == va {
          assert n in live;
          return;
        }
        n, i := nodes[n].next, i + 1;
      }
      NullEnds(nodes, mallocList, live, i);
    }

    /**
     user_better_free never meets an unmapped page.  The live block at va, if there is one, stops being
     live and all others stay where they are, on the physical pages they had.
     */
    method Free(va: nat) returns (dead: bool)
      requires Valid()
      modifies this
      ensures Valid() && !dead && top == old(top)
      ensures LiveBlocks() == set b | b in old(LiveBlocks()) && b.0 != va
      ensures forall v :: v in pt ==> v in old(pt) && pt[v] == old(pt)[v]
      ensures old(Tight()) ==> Tight()
      ensures Lost() == old(Lost()) && supply == old(supply) + Released(old(pt), pt)
      ensures if exists b :: b in old(LiveBlocks()) && b.0 == va
              then Freed(old(nodes), old(free), nodes, free, old(live), va) else free == old(free)
    {
      var n, i := FindLive(va);
      if n == 0 {
        assert forall b :: b in LiveBlocks() ==> b.0 != va;
        return false;
      }
      assert (nodes[n].va, nodes[n].size) in LiveBlocks();
      dead := FreeLive(n, i);
    }

    method FreeLive(n: nat, ghost i: nat) returns (dead: bool)
      requires Valid() && i < |live| && live[i] == n && n in nodes
      modifies this`nodes, this`mallocList, this`mallocFreeList, this`live, this`free, this`pt, this`supply
      ensures Valid() && !dead
      ensures LiveBlocks() == set b | b in old(LiveBlocks()) && b.0 != old(nodes[n].va)
      ensures forall v :: v in pt ==> v in old(pt) && pt[v] == old(pt)[v]
      ensures old(Tight()) ==> Tight()
      ensures supply == old(supply) + Released(old(pt), pt)
      ensures Lost() == old(Lost()) && Freed(old(nodes), old(free), nodes, free, old(live), old(nodes[n].va))
    {
      ghost var nodes0, live0, pt0, free0 := nodes, live, pt, free;
      var va, size := nodes[n].va, nodes[n].size;
      Drop(n, i);
      forall v: nat | PageOf(va) <= v && v * PGSIZE < va + size
        ensures v in pt
      {
        assert n in live0 && Touches(nodes0[n], v);
      }
      dead := ReleasePages(va, size);
      if old(Tight()) {
        TightAfterFree(nodes0, nodes, live0, i, pt0, pt);
      }
    }

    /** The block moves from one list to the other. */
    method Drop(n: nat, ghost i: nat)
      requires Valid() && i < |live| && live[i] == n && n in nodes
      modifies this`nodes, this`mallocList, this`mallocFreeList, this`live, this`free
      ensures Valid() && live == Without(old(live), i) && SameRanges(old(nodes), nodes)
      ensures LiveBlocks() == set b | b in old(LiveBlocks()) && b.0 != old(nodes[n].va)
      ensures Lost() == old(Lost()) && Freed(old(nodes), old(free), nodes, free, old(live), old(nodes[n].va))
    {
      ghost var nodes0, live0, free0 := nodes, live, free;
      FreeKnown(nodes, live, free, pt, bottom, top);
      ToFreeList(n, i);
      FreedBytes(nodes0, nodes, live0, free0, i);
      RemovedLive(nodes0, nodes, live0, i, bottom, top, free);
    }

    method ToFreeList(n: nat, ghost i: nat)
      requires Valid() && i < |live| && live[i] == n
      modifies this`nodes, this`mallocList, this`mallocFreeList, this`live, this`free
      ensures Valid() && live == Without(old(live), i) && free == [n] + old(free) && SameRanges(old(nodes), nodes)
    {
      UnlinkLive(n, i);
      PushFree(n, {n});
      assert {n} - {n} == {};
    }

    /**
     A store to a page below heap_top that is not mapped for writing (the last branch of the store-page-fault handler).
     It maps a page without any block asking for it, below the heap too, and kills the process where something else is
     mapped.  The handler does not look at what alloc_page returns: with no page left it maps physical page zero, which
     lookup_pa then takes for no page at all.
     */
    method DemandFault(v: nat) returns (killed: bool, pa: nat)
      requires Valid() && v !in pt && v * PGSIZE < top
      modifies this`pt, this`supply
      ensures killed <==> v in foreign
      ensures (pa == 0 <==> old(supply) == {}) && supply == old(supply) - {pa} && (pa != 0 ==> pa in old(supply))
      ensures pt == if killed || v * PGSIZE < bottom then old(pt) else old(pt)[v := pa]
      ensures Valid() <==> killed || v * PGSIZE < bottom || pa != 0
    {
      ghost var pt0 := pt;
      pa := AllocPage();
      if v in foreign {
        return true, pa;
      }
      if v * PGSIZE >= bottom {
        pt := pt[v := pa];
        if pa == 0 {
          assert v in pt && pt[v] == 0;
          assert !Pages(supply, pt, nodes.Keys);
        } else {
          DemandKeeps(nodes, live, free, pt0, pt, foreign, bottom, top, v);
        }
      }
      return false, pa;
    }
  }

  /** heap_top + size in 64-bit arithmetic. */
  function NewTop(top: nat, size: nat): nat {
    (top + size) % WORD
  }

  /** How many pages beyond that of heap_top a block of this size needs, in 64-bit arithmetic. */
  function ExtraPages(top: nat, size: nat): nat {
    if Remaining(top) >= size then 0 else (size - Remaining(top) + PGSIZE - 1) % WORD / PGSIZE
  }

  /**
   The requests the growth path gets wrong: the page count wraps around, so that almost nothing is
   mapped and heap_top moves down; or heap_top has reached a page that is mapped for something else,
   which lookup_pa takes for a heap page.
   */
  predicate Unsafe(top: nat, size: nat, foreign: set<nat>) {
    Wraps(top, size) || PageOf(top) in foreign
  }

  function Rest(s: seq<nat>): seq<nat> {
    if s == [] then [] else s[1..]
  }

  /** The pages a growing heap asks for reach one that is mapped for something else, or the end of the address space. */
  ghost predicate Collides(top: nat, size: nat, foreign: set<nat>) {
    PageOf(top) >= VPNS || exists v ::
      PageOf(top) < v <= PageOf(top) + ExtraPages(top, size) && (v >= VPNS || v in foreign)
  }

  lemma CollidesAt(top: nat, size: nat, foreign: set<nat>, v: nat)
    requires PageOf(top) < v <= PageOf(top) + ExtraPages(top, size) && (v >= VPNS || v in foreign)
    ensures Collides(top, size, foreign)
  {
  }

  lemma DemandKeeps(nodes: Nodes, live: seq<nat>, free: seq<nat>, before: map<nat, nat>, after: map<nat, nat>,
                    foreign: set<nat>, bottom: nat, top: nat, v: nat)
    requires Layout(nodes, live, free, before, bottom, top) && PagesInside(before, foreign, bottom, top)
    requires Extends(before, after, v, v + 1) && bottom <= v * PGSIZE < top && v !in foreign && v < VPNS
    ensures Layout(nodes, live, free, after, bottom, top) && PagesInside(after, foreign, bottom, top)
  {
  }

  lemma NothingAbove(pt: map<nat, nat>, foreign: set<nat>, bottom: nat, top: nat)
    requires PagesInside(pt, foreign, bottom, top)
    ensures forall v :: v in pt ==> v <= PageOf(top)
  {
  }

  ghost predicate RunMapped(before: map<nat, nat>, after: map<nat, nat>, foreign: set<nat>, page: nat, n: nat) {
    && (forall v: nat :: v in after <==> v in before || (v == page && page !in foreign) || page < v <= page + n)
    && (forall v :: v in before && v in after ==> after[v] == before[v])
    && page + n < VPNS
    && (forall v :: page < v <= page + n ==> v !in foreign)
  }

  lemma ExtraCovers(top: nat, size: nat)
    requires 0 < size < WORD && !Wraps(top, size)
    ensures var last := PageOf(top) + ExtraPages(top, size); last * PGSIZE < top + size <= (last + 1) * PGSIZE
  {
  }

  lemma GrownLayout(a: Nodes, b: Nodes, live: seq<nat>, free: seq<nat>, before: map<nat, nat>, after: map<nat, nat>,
                    foreign: set<nat>, bottom: nat, top: nat, size: nat, n: nat)
    requires Layout(a, live, free, before, bottom, top) && PagesInside(before, foreign, bottom, top)
    requires 0 < bottom <= top && 0 < size < WORD && bottom % PGSIZE == 0 && !Unsafe(top, size, foreign)
    requires n !in live && n !in free && SameRanges(a[n := Node(top, size, 0, 0)], b)
    requires RunMapped(before, after, foreign, PageOf(top), ExtraPages(top, size))
    ensures top + size <= VPNS * PGSIZE
    ensures Layout(b, [n] + live, free, after, bottom, top + size) && PagesInside(after, foreign, bottom, top + size)
    ensures Grown(before, after, PageOf(top), top + size)
  {
    ExtraCovers(top, size);
    var last := PageOf(top) + ExtraPages(top, size);
    var c := a[n := Node(top, size, 0, 0)];
    GrownPages(before, after, foreign, bottom, top, size, last);
    assert Layout(c, live, free, after, bottom,
                  top + size) by { Raised(a, c, live, free, before, after, bottom, top, top + size); }
    forall v: nat | Touches(c[n], v)
      ensures v in after
    {
      assert PageOf(top) <= v <= last;
    }
    LayoutPushLive(c, b, live, free, n, after, bottom, top + size);
  }

  lemma GrownWell(a: Nodes, b: Nodes, live: seq<nat>, live': seq<nat>, free: seq<nat>, before: map<nat, nat>,
                  after: map<nat, nat>,
                  foreign: set<nat>, bottom: nat, top: nat, top': nat, size: nat, n: nat)
    requires Layout(a, live, free, before, bottom, top) && PagesInside(before, foreign, bottom, top)
    requires 0 < bottom <= top && 0 < size < WORD && bottom % PGSIZE == 0 && !Unsafe(top, size, foreign)
    requires n !in live && n !in free && SameRanges(a[n := Node(top, size, 0, 0)], b)
    requires RunMapped(before, after, foreign, PageOf(top), ExtraPages(top, size))
    requires top' == (top + size) % WORD && live' == [n] + live
    ensures 0 < bottom <= top' <= VPNS * PGSIZE
    ensures Layout(b, live', free, after, bottom, top') && PagesInside(after, foreign, bottom, top')
    ensures Grown(before, after, PageOf(top), top')
  {
    GrownLayout(a, b, live, free, before, after, foreign, bottom, top, size, n);
    assert top' == top + size;
  }

  lemma GrownPages(before: map<nat, nat>, after: map<nat, nat>, foreign: set<nat>, bottom: nat, top: nat, size: nat,
                   last: nat)
    requires PagesInside(before, foreign, bottom, top) && PageOf(top) !in foreign && 0 < size
    requires 0 < bottom <= top && bottom % PGSIZE == 0
    requires PageOf(top) <= last && RunMapped(before, after, foreign, PageOf(top), last - PageOf(top))
    requires last * PGSIZE < top + size <= (last + 1) * PGSIZE
    ensures PagesInside(after, foreign, bottom, top + size) && Grown(before, after, PageOf(top), top + size)
  {
    forall v | v in after
      ensures bottom <= v * PGSIZE < top + size && v !in foreign && v < VPNS
    {
      if v !in before {
        assert bottom / PGSIZE <= PageOf(top) <= v <= last;
      }
    }
    forall v | v in foreign && top <= v * PGSIZE
      ensures top + size <= v * PGSIZE
    {
      assert PageOf(top) < v;
      assert v > last;
    }
  }

  lemma Raised(a: Nodes, c: Nodes, live: seq<nat>, free: seq<nat>, before: map<nat, nat>, after: map<nat, nat>,
               bottom: nat, top: nat, top': nat)
    requires Layout(a, live, free, before, bottom, top) && top <= top'
    requires forall m :: m in live || m in free ==> m in a && m in c && c[m] == a[m]
    requires forall v :: v in before ==> v in after
    ensures Layout(c, live, free, after, bottom, top')
    ensures forall m :: m in live || m in free ==> m in c && c[m].va + c[m].size <= top
  {
    assert forall m :: m in live || m in free ==> m in Ids(live) + Ids(free);
  }

  lemma UnsafeBreaks(nodes: Nodes, live: seq<nat>, free: seq<nat>, pt: map<nat, nat>, foreign: set<nat>,
                     bottom: nat, top: nat, n: nat, va: nat, size: nat)
    requires Unsafe(va, size, foreign) && n in live && n in nodes && nodes[n].va == va && nodes[n].size == size &&
      size > 0
    requires top == NewTop(va, size) && PGSIZE <= va
    ensures !(Layout(nodes, live, free, pt, bottom, top) && PagesInside(pt, foreign, bottom, top))
  {
    assert n in Ids(live) + Ids(free);
    if Wraps(va, size) {
      assert !Inside(nodes[n], bottom, top);
    } else {
      assert Touches(nodes[n], PageOf(va));
    }
  }

  ghost predicate InUse(nodes: Nodes, live: seq<nat>, v: nat) {
    exists n :: n in live && n in nodes && Touches(nodes[n], v)
  }

  lemma Unbacked(nodes: Nodes, live: seq<nat>, pt: map<nat, nat>, v: nat)
    requires Backed(nodes, live, pt) && !InUse(nodes, live, v)
    ensures Backed(nodes, live, pt - {v})
  {
  }

  /** Blocks are non-empty and disjoint, so exactly one live block starts at va. */
  lemma RemovedLive(a: Nodes, b: Nodes, live: seq<nat>, i: nat, bottom: nat, top: nat, free: seq<nat>)
    requires SameRanges(a, b) && i < |live| && Distinct(live) && live[i] in a
    requires Blocks(b, Ids(Without(live, i)) + Ids(free), bottom, top) && live[i] in free
    ensures Ranges(b, Without(live, i)) == set r | r in Ranges(a, live) && r.0 != a[live[i]].va
  {
    var n := live[i];
    WithoutMembers(live, i);
    forall m | m in Without(live, i) && m in b
      ensures b[m].va != b[n].va
    {
      assert m in Ids(Without(live, i)) + Ids(free) && n in Ids(Without(live, i)) + Ids(free);
      assert Apart(b[m], b[n]) && Inside(b[m], bottom, top) && Inside(b[n], bottom, top);
    }
  }

  lemma TightAfterFree(a: Nodes, b: Nodes, live: seq<nat>, i: nat, before: map<nat, nat>, after: map<nat, nat>)
    requires SameRanges(a, b) && i < |live| && Distinct(live) && live[i] in a
    requires AllTouched(a, live, before)
    requires forall v :: v in after ==> v in before
    requires forall v :: v in after ==>
      (InUse(b, Without(live, i), v) || v < PageOf(a[live[i]].va) || v * PGSIZE >= a[live[i]].va + a[live[i]].size)
    ensures AllTouched(b, Without(live, i), after)
  {
    WithoutMembers(live, i);
    forall v | v in after
      ensures InUse(b, Without(live, i), v)
    {
      assert InUse(a, live, v);
      var m :| m in live && m in a && Touches(a[m], v);
      if m != live[i] {
        assert m in Without(live, i) && Touches(b[m], v);
      }
    }
  }

  /** What a caller relies on: two live blocks never overlap, and every byte of a live block is on a mapped page. */
  lemma LiveBlocksSound(h: Heap, m: nat, n: nat, a: nat)
    requires h.Valid() && m in h.live && n in h.live && m in h.nodes && n in h.nodes
    requires h.nodes[m].va <= a < h.nodes[m].va + h.nodes[m].size
    ensures PageOf(a) in h.pt && h.bottom <= a < h.top
    ensures m != n ==> !(h.nodes[n].va <= a < h.nodes[n].va + h.nodes[n].size)
    ensures n !in h.free && forall f ::
      f in h.free && f in h.nodes ==> !(h.nodes[f].va <= a < h.nodes[f].va + h.nodes[f].size)
  {
    assert Touches(h.nodes[m], PageOf(a));
    assert m in Ids(h.live) + Ids(h.free) && n in Ids(h.live) + Ids(h.free);
    forall f | f in h.free && f in h.nodes
      ensures Apart(h.nodes[m], h.nodes[f])
    {
      assert f in Ids(h.live) + Ids(h.free);
    }
  }

  ghost predicate AllTouched(nodes: Nodes, live: seq<nat>, pt: map<nat, nat>) {
    forall v :: v in pt ==> InUse(nodes, live, v)
  }

  /** The live blocks are where they were. */
  ghost predicate KeepsLive(a: Nodes, b: Nodes, live: seq<nat>) {
    forall m :: m in live ==> m in a && m in b && a[m].va == b[m].va && a[m].size == b[m].size
  }

  lemma ListedKept(a: Nodes, b: Nodes, live: seq<nat>, free: seq<nat>, pt: map<nat, nat>, bottom: nat, top: nat)
    requires Layout(a, live, free, pt, bottom, top)
    requires forall m :: m in live || m in free ==> m in b && m in a && b[m] == a[m]
    ensures Layout(b, live, free, pt, bottom, top)
  {
  }

  lemma FitsBeside(a: Nodes, b: Nodes, ids: set<nat>, rem: nat, blk: Node)
    requires SameRanges(a, b) && rem in a && Apart(blk, a[rem])
    requires forall n :: n in ids && n in a ==> Apart(a[n], blk)
    ensures forall n :: n in ids + {rem} && n in b ==> Apart(b[n], blk)
  {
  }

  lemma KeptRanges(a: Nodes, b: Nodes, live: seq<nat>)
    requires KeepsLive(a, b, live)
    ensures Ranges(a, live) == Ranges(b, live)
  {
  }

  lemma TopIs(va: nat, size: nat, top: nat, blk: Node, bottom: nat, nodes: Nodes, live: seq<nat>, free: seq<nat>,
              pt: map<nat, nat>, m: nat)
    requires Layout(nodes, live, free, pt, bottom, top) && m in live && m in nodes && nodes[m] == blk && blk.va == va &&
      blk.size == size
    requires top == NewTop(va, size)
    ensures top == va + size
  {
    assert m in Ids(live) + Ids(free);
  }

  lemma TouchedPages(va: nat, size: nat, v: nat)
    requires Touches(Node(va, size, 0, 0), v)
    ensures PageOf(va) <= v && v * PGSIZE < va + size
  {
  }

  /** The live blocks after n joined them. */
  lemma AddedLive(a: Nodes, b: Nodes, live: seq<nat>, n: nat)
    requires n in b && KeepsLive(a, b, live)
    ensures Ranges(b, [n] + live) == Ranges(a, live) + {(b[n].va, b[n].size)}
  {
  }

  lemma StillTight(a: Nodes, b: Nodes, live: seq<nat>, n: nat, before: map<nat, nat>, after: map<nat, nat>, va: nat,
                   size: nat)
    requires n in b && b[n].va == va && b[n].size == size && Grown(before, after, PageOf(va), va + size)
    requires KeepsLive(a, b, live)
    requires AllTouched(a, live, before)
    ensures AllTouched(b, [n] + live, after)
  {
    forall v | v in after
      ensures InUse(b, [n] + live, v)
    {
      if v in before {
        assert InUse(a, live, v);
        var m :| m in live && m in a && Touches(a[m], v);
        assert m in [n] + live && Touches(b[m], v);
      } else {
        assert n in [n] + live && Touches(b[n], v);
      }
    }
  }

  /** The pages of [v * PGSIZE, end) that are not mapped. */
  ghost function Unmapped(pt: map<nat, nat>, foreign: set<nat>, v: nat, end: nat): nat
    decreases end - v * PGSIZE
  {
    if v * PGSIZE >= end then 0
    else (if v in pt || v in foreign then 0 else 1) + Unmapped(pt, foreign, v + 1, end)
  }

  /** The physical pages that were mapped and are not any more. */
  ghost function Released(pt: map<nat, nat>, pt': map<nat, nat>): set<nat> {
    set v | v in pt && v !in pt' :: pt[v]
  }

  lemma OneReleased(pt: map<nat, nat>, a: map<nat, nat>, v: nat)
    requires v in a && forall w :: w in a ==> w in pt && a[w] == pt[w]
    ensures Released(pt, a - {v}) == Released(pt, a) + {a[v]}
  {
  }

  /** k pages were taken, or there were not that many. */
  ghost predicate Spent(pages: nat, pages': nat, k: nat, ok: bool) {
    if ok then pages' == pages - k else pages < k
  }

  ghost function Lacking(pt: map<nat, nat>, foreign: set<nat>, va: nat, size: nat): nat {
    Unmapped(pt, foreign, PageOf(va), va + size)
  }

  /** The pages that reusing block b takes: those it lacks, and one for a remainder if no other block is free. */
  ghost function PagesOf(pt: map<nat, nat>, foreign: set<nat>, b: Node, others: seq<nat>, size: nat): nat {
    Lacking(pt, foreign, b.va, size) + if size < b.size && |others| == 0 then 1 else 0
  }

  /** `free`, the free list without b, afterwards: what is left of b is first, and takes the place of another block. */
  ghost predicate Remains(nodes: Nodes, free: seq<nat>, nodes': Nodes, free': seq<nat>, b: Node, size: nat) {
    if size == b.size then free' == free && KeepsLive(nodes, nodes', free)
    else
      && free' != [] && free'[1..] == Rest(free) && KeepsLive(nodes, nodes', Rest(free))
      && free'[0] in nodes' && nodes'[free'[0]].va == b.va + size && nodes'[free'[0]].size == b.size - size
  }

  lemma AcquiredRest(free: seq<nat>, free': seq<nat>, n: nat, recycled: bool)
    requires if recycled then free == [n] + free' else free == free' == []
    ensures free' == Rest(free)
  {
  }

  lemma CutRemains(a: Nodes, free: seq<nat>, b: Nodes, c: Nodes, free': seq<nat>, n: nat, rem: nat, size: nat)
    requires n in a && n in b && b[n].va == a[n].va && b[n].size == a[n].size && 0 < size < a[n].size
    requires forall m :: m in Rest(free) ==> m in a && m in b && b[m].va == a[m].va && b[m].size == a[m].size
    requires KeepsLive(b, c, Rest(free)) && free' == [rem] + Rest(free)
    requires rem in c && c[rem].va == a[n].va + size && c[rem].size == a[n].size - size
    ensures Remains(a, free, c, free', a[n], size)
  {
  }

  /** Block n, in neither list, becomes live with `size` bytes, or goes back to the free list. */
  ghost predicate Served(a: Nodes, live: seq<nat>, free: seq<nat>, b: Nodes, live': seq<nat>, free': seq<nat>, n: nat,
                         size: nat, ok: bool) {
    && n in a
    && if !ok then live' == live && free' == [n] + free && SameRanges(a, b)
       else
         && live' == [n] + live && KeepsLive(a, b, live) && n in b && b[n].va == a[n].va && b[n].size == size
         && Remains(a, free, b, free', a[n], size)
  }

  /** Free block i becomes live with `size` bytes, or the first of the free list. */
  ghost predicate Reused(a: Nodes, live: seq<nat>, free: seq<nat>, b: Nodes, live': seq<nat>, free': seq<nat>, i: nat,
                         size: nat, va: nat) {
    && i < |free| && Served(a, live, Without(free, i), b, live', free', free[i], size, va != 0)
    && (va != 0 ==> va == a[free[i]].va)
  }

  lemma ServedReuses(a: Nodes, b: Nodes, c: Nodes, live: seq<nat>, live': seq<nat>, free: seq<nat>, free1: seq<nat>,
                     free': seq<nat>, i: nat, size: nat, ok: bool)
    requires i < |free| && free[i] in a && SameRanges(a, b) && free1 == Without(free, i)
    requires Served(b, live, free1, c, live', free', free[i], size, ok)
    ensures Served(a, live, free1, c, live', free', free[i], size, ok)
  {
  }

  /** The place of the first free block that is large enough; the end of the list if there is none. */
  ghost function FirstFit(nodes: Nodes, free: seq<nat>, size: nat): (i: nat)
    ensures i <= |free|
  {
    if free == [] || (free[0] in nodes && nodes[free[0]].size >= size) then 0
    else 1 + FirstFit(nodes, free[1..], size)
  }

  lemma {:induction false} FirstFitIs(nodes: Nodes, free: seq<nat>, size: nat, i: nat)
    requires i <= |free| && forall j :: 0 <= j < i ==> free[j] in nodes && nodes[free[j]].size < size
    requires i < |free| ==> free[i] in nodes && nodes[free[i]].size >= size
    ensures FirstFit(nodes, free, size) == i
  {
    if i > 0 {
      FirstFitIs(nodes, free[1..], size, i - 1);
    }
  }

  // ---------------------------------------------------------------- bytes of the heap that no block has

  ghost function Bytes(nodes: Nodes, q: seq<nat>): nat {
    if q == [] then 0 else SizeOf(nodes, q) + Bytes(nodes, q[1..])
  }

  /** The size of the first block of a list. */
  ghost function SizeOf(nodes: Nodes, q: seq<nat>): nat {
    if q != [] && q[0] in nodes then nodes[q[0]].size else 0
  }

  /** The free block that is forgotten because its descriptor is taken: the first that does not serve the request. */
  ghost function Forgotten(nodes: Nodes, free: seq<nat>, size: nat): nat {
    var i := FirstFit(nodes, free, size);
    if i == |free| then SizeOf(nodes, free)
    else if free[i] in nodes && nodes[free[i]].size > size then SizeOf(nodes, Without(free, i))
    else 0
  }

  lemma {:induction false} BytesKept(a: Nodes, b: Nodes, q: seq<nat>)
    requires KeepsLive(a, b, q)
    ensures Bytes(a, q) == Bytes(b, q)
  {
    if q != [] {
      assert forall m :: m in q[1..] ==> m in q;
      BytesKept(a, b, q[1..]);
    }
  }

  lemma {:induction false} BytesWithout(nodes: Nodes, q: seq<nat>, i: nat)
    requires i < |q| && q[i] in nodes
    ensures Bytes(nodes, Without(q, i)) + nodes[q[i]].size == Bytes(nodes, q)
  {
    if i == 0 {
      assert Without(q, 0) == q[1..];
    } else {
      BytesWithout(nodes, q[1..], i - 1);
      assert Without(q, i) == [q[0]] + Without(q[1..], i - 1);
    }
  }

  lemma BytesPushed(nodes: Nodes, q: seq<nat>, n: nat)
    requires n in nodes
    ensures Bytes(nodes, [n] + q) == nodes[n].size + Bytes(nodes, q)
  {
    assert ([n] + q)[1..] == q;
  }

  lemma ReuseBytes(a: Nodes, b: Nodes, live: seq<nat>, free: seq<nat>, free': seq<nat>, i: nat, n: nat, size: nat)
    requires i < |free| && free[i] == n && n in a && n in b && b[n].size == size && i == FirstFit(a, free, size)
    requires 0 < size <= a[n].size && Remains(a, Without(free, i), b, free', a[n], size) && KeepsLive(a, b, live)
    requires forall m :: m in free ==> m in a
    ensures Bytes(b, [n] + live) + Bytes(b, free') + Forgotten(a, free, size) == Bytes(a, live) + Bytes(a, free)
  {
    var others := Without(free, i);
    BytesPushed(b, live, n);
    BytesKept(a, b, live);
    BytesWithout(a, free, i);
    if size == a[n].size {
      BytesKept(a, b, others);
    } else {
      BytesKept(a, b, Rest(others));
      assert free' == [free'[0]] + Rest(others);
    }
  }

  lemma GrowBytes(a: Nodes, b: Nodes, live: seq<nat>, free: seq<nat>, n: nat, size: nat)
    requires n in b && b[n].size == size && KeepsLive(a, b, live) && KeepsLive(a, b, Rest(free))
    ensures Bytes(b, [n] + live) + Bytes(b, Rest(free)) + SizeOf(a, free) == Bytes(a, live) + Bytes(a, free) + size
  {
    BytesPushed(b, live, n);
    BytesKept(a, b, live);
    BytesKept(a, b, Rest(free));
  }

  lemma FreeKnown(nodes: Nodes, live: seq<nat>, free: seq<nat>, pt: map<nat, nat>, bottom: nat, top: nat)
    requires Layout(nodes, live, free, pt, bottom, top)
    ensures forall m :: m in live || m in free ==> m in nodes
  {
    forall m | m in live || m in free
      ensures m in nodes
    {
      assert m in Ids(live) + Ids(free);
    }
  }

  /** A request that fails puts the block it had in hand in front of the free list. */
  lemma FailedBytes(a: Nodes, b: Nodes, live: seq<nat>, free: seq<nat>, i: nat)
    requires SameRanges(a, b) && i < |free| && forall m :: m in live || m in free ==> m in a
    ensures Bytes(b, live) == Bytes(a, live) && Bytes(b, [free[i]] + Without(free, i)) == Bytes(a, free)
  {
    BytesKept(a, b, live);
    BytesKept(a, b, Without(free, i));
    BytesPushed(b, Without(free, i), free[i]);
    BytesWithout(a, free, i);
  }

  lemma FreedBytes(a: Nodes, b: Nodes, live: seq<nat>, free: seq<nat>, i: nat)
    requires SameRanges(a, b) && i < |live| && forall m :: m in live || m in free ==> m in a
    ensures Bytes(b, Without(live, i)) + Bytes(b, [live[i]] + free) == Bytes(a, live) + Bytes(a, free)
  {
    BytesKept(a, b, free);
    BytesKept(a, b, Without(live, i));
    BytesPushed(b, free, live[i]);
    BytesWithout(a, live, i);
  }

  /** The block at va is now the first free one, the others are free as before. */
  ghost predicate Freed(nodes: Nodes, free: seq<nat>, nodes': Nodes, free': seq<nat>, live: seq<nat>, va: nat) {
    && free' != [] && free'[0] in live && free'[1..] == free && KeepsLive(nodes, nodes', free')
    && nodes'[free'[0]].va == va
  }

  /** The first free block that fits serves the request at its own address, unless the pages it takes are not there. */
  ghost predicate Refitted(nodes: Nodes, free: seq<nat>, pt: map<nat, nat>, foreign: set<nat>, pages: nat,
                           nodes': Nodes, free': seq<nat>, pages': nat, size: nat, va: nat) {
    var i := FirstFit(nodes, free, size);
    && i < |free| && free[i] in nodes
    && var k := PagesOf(pt, foreign, nodes[free[i]], Without(free, i), size);
    && Spent(pages, pages', k, va != 0)
    && (va != 0 ==> va == nodes[free[i]].va && Remains(nodes, Without(free, i), nodes', free', nodes[free[i]], size))
  }

  /** What a request forgets is nothing exactly if no other block is free, or the block that serves it fits it. */
  lemma ForgottenIff(h: Heap, size: nat)
    requires h.Valid() && size > 0
    ensures var i := FirstFit(h.nodes, h.free, size);
      Forgotten(h.nodes, h.free, size) == 0 <==>
      if i == |h.free| then h.free == [] else |h.free| == 1 || h.nodes[h.free[i]].size == size
  {
    forall f | f in h.free
      ensures f in h.nodes && h.nodes[f].size > 0
    {
      assert f in Ids(h.live) + Ids(h.free);
    }
    FitFits(h.nodes, h.free, size);
  }

  lemma {:induction false} FitFits(nodes: Nodes, free: seq<nat>, size: nat)
    ensures var i := FirstFit(nodes, free, size);
      i < |free| ==> free[i] in nodes && nodes[free[i]].size >= size
  {
    if free != [] {
      FitFits(nodes, free[1..], size);
    }
  }

  ghost predicate HasFit(nodes: Nodes, free: seq<nat>, size: nat) {
    exists i :: 0 <= i < |free| && free[i] in nodes && nodes[free[i]].size >= size
  }

  datatype Mapping = Mapped | NoMemory | Dead

  /** q is p with the pages lo .. hi - 1 added. */
  ghost predicate Extends(p: map<nat, nat>, q: map<nat, nat>, lo: nat, hi: nat) {
    && (forall v: nat :: v in q <==> v in p || lo <= v < hi)
    && (forall v :: v in p && v in q ==> q[v] == p[v])
  }

  /** q is p with some pages of [from * PGSIZE, end) added. */
  ghost predicate Grown(p: map<nat, nat>, q: map<nat, nat>, from: nat, end: nat) {
    && (forall v :: v in p ==> v in q && q[v] == p[v])
    && (forall v :: v in q && v !in p ==> from <= v && v * PGSIZE < end)
  }

  /** Pages of [va, va + size), and where they are mapped. */
  ghost predicate OnPages(more: map<nat, nat>, va: nat, size: nat) {
    forall v :: v in more ==> PageOf(va) <= v && v * PGSIZE < va + size
  }

  /** What q maps and p does not. */
  ghost function Beyond(p: map<nat, nat>, q: map<nat, nat>): (more: map<nat, nat>)
    ensures more.Keys !! p.Keys
  {
    map v | v in q && v !in p :: q[v]
  }

  lemma BeyondPages(p: map<nat, nat>, q: map<nat, nat>, va: nat, size: nat)
    requires Grown(p, q, PageOf(va), va + size)
    ensures q == p + Beyond(p, q) && OnPages(Beyond(p, q), va, size)
  {
  }

  lemma BeyondGrown(p: map<nat, nat>, more: map<nat, nat>, va: nat, size: nat)
    requires OnPages(more, va, size) && more.Keys !! p.Keys
    ensures Grown(p, p + more, PageOf(va), va + size)
  {
  }

  /**
   A run: eight bytes on a fresh heap, then the largest size there is.  Four free pages are enough for both to be
   granted; then heap_top has moved down and the heap is broken.
   */
  method WrapRun(supply: set<nat>) returns (h: Heap)
    requires 0 !in supply && |supply| >= 4
    ensures !h.Valid() && h.top == 0x40_0007
  {
    h := EightBytes(supply);
    FreshHasNoFit(h);
    NothingInTheWay(h.top);
    var o := h.Malloc(WORD - 1);
    assert o.Ret? && o.va != 0;
  }

  method EightBytes(supply: set<nat>) returns (h: Heap)
    requires 0 !in supply && |supply| >= 4
    ensures fresh(h) && h.Valid() && h.top == 0x40_0008 && h.foreign == {} && |h.supply| >= |supply| - 2
    ensures h.free == [] && h.Lost() == 0 && h.LiveBlocks() == {(0x40_0000, 8)}
  {
    h := new Heap(0x40_0000, {}, supply);
    var o := EightMore(h);
  }

  /**
   A run: two blocks of eight bytes, the first freed, then sixteen bytes.  The heap grows and takes the descriptor of
   the free block for the new one, so eight bytes of the heap belong to no block any more.
   */
  method BlockLost(supply: set<nat>) returns (h: Heap)
    requires 0 !in supply && |supply| >= 5
    ensures h.Valid() && h.free == [] && h.Lost() == 8
  {
    h := FirstFreed(supply);
    OneFree(h);
    SmallAndSafe(h.top, 16);
    var o := h.Malloc(16);
    assert o.Ret? && o.va != 0;
  }

  method FirstFreed(supply: set<nat>) returns (h: Heap)
    requires 0 !in supply && |supply| >= 5
    ensures fresh(h) && h.Valid() && h.top == 0x40_0010 && h.foreign == {} && |h.supply| >= 1
    ensures h.Lost() == 0 && |h.free| == 1 && h.free[0] in h.nodes && h.nodes[h.free[0]].size == 8
  {
    h := TwoBlocks(supply);
    ghost var nodes0, live0 := h.nodes, h.live;
    assert (0x40_0000, 8) in h.LiveBlocks();
    var dead := h.Free(0x40_0000);
    AllEight(nodes0, live0, h.free[0]);
  }

  lemma AllEight(nodes: Nodes, live: seq<nat>, n: nat)
    requires n in live && n in nodes && Ranges(nodes, live) == {(0x40_0000, 8), (0x40_0008, 8)}
    ensures nodes[n].size == 8
  {
    assert (nodes[n].va, nodes[n].size) in Ranges(nodes, live);
  }

  method TwoBlocks(supply: set<nat>) returns (h: Heap)
    requires 0 !in supply && |supply| >= 5
    ensures fresh(h) && h.Valid() && h.top == 0x40_0010 && h.foreign == {} && |h.supply| >= 1
    ensures h.free == [] && h.Lost() == 0 && h.LiveBlocks() == {(0x40_0000, 8), (0x40_0008, 8)}
  {
    h := EightBytes(supply);
    var o := EightMore(h);
  }

  method EightMore(h: Heap) returns (o: Outcome)
    requires h.Valid() && h.free == [] && 0x40_0000 <= h.top <= 0x40_0008 && h.foreign == {} && |h.supply| >= 2
    modifies h
    ensures h.Valid() && h.free == [] && h.top == old(h.top) + 8 && |h.supply| >= |old(h.supply)| - 2
    ensures h.Lost() == old(h.Lost()) && h.LiveBlocks() == old(h.LiveBlocks()) + {(old(h.top), 8)}
  {
    SmallAndSafe(h.top, 8);
    assert !HasFit(h.nodes, h.free, 8) && Forgotten(h.nodes, h.free, 8) == 0;
    o := h.Malloc(8);
    assert o.Ret? && o.va != 0;
  }

  lemma OneFree(h: Heap)
    requires h.Valid() && |h.free| == 1 && h.nodes[h.free[0]].size == 8
    ensures !HasFit(h.nodes, h.free, 16) && Forgotten(h.nodes, h.free, 16) == 8
  {
    assert h.free[0] in Ids(h.live) + Ids(h.free);
    FirstFitIs(h.nodes, h.free, 16, 1);
  }

  lemma SmallAndSafe(top: nat, size: nat)
    requires 0x40_0000 <= top <= 0x40_0010 && 0 < size <= 16
    ensures ExtraPages(top, size) == 0 && !Unsafe(top, size, {}) && !Collides(top, size, {})
    ensures NewTop(top, size) == top + size
  {
  }

  /** A block no longer than the heap itself cannot serve a request that is longer. */
  lemma FreshHasNoFit(h: Heap)
    requires h.Valid() && h.top < WORD - 1
    ensures !HasFit(h.nodes, h.free, WORD - 1)
  {
  }

  /** The page count of the largest request wraps around to zero, so it meets no page at all. */
  lemma NothingInTheWay(top: nat)
    requires top == 0x40_0008
    ensures ExtraPages(top, WORD - 1) == 0 && Wraps(top, WORD - 1) && !Collides(top, WORD - 1, {})
    ensures NewTop(top, WORD - 1) == 0x40_0007
  {
  }
}
