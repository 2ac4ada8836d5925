/**
 What every step of the copy-on-write machine keeps: exact reference accounting, exclusive
 ownership of writable pages, and the facts each hart relies on between two of its steps.
 */
module CowInvariant {
  import opened Config
  import opened PmmSpec
  import opened Cow

  // ---------------------------------------------------------------- references to a page

  ghost function PteRefs(pt: map<Slot, Pte>, p: Page): set<Slot> {
    set x | x in pt && pt[x].page == p && pt[x].counted
  }

  /** A hart inside the kernel may hold one reference that no page table entry carries. */
  predicate Holds(st: HartState, p: Page) {
    st.Busy? &&
    match st.phase
    case Copying(_, _, dst, _) => dst == p
    case Dropping(_, src) => src == p
    case DemandHeld(_, dst) => dst == p
    case AllocHeld(dst) => dst == p
    case _ => false
  }

  ghost function HartRefs(harts: map<Hart, HartState>, p: Page): set<Hart> {
    set h | h in harts && Holds(harts[h], p)
  }

  ghost function Refs(m: Mem, harts: map<Hart, HartState>, p: Page): nat {
    |PteRefs(m.pt, p)| + |HartRefs(harts, p)| + if p in m.kernel then 1 else 0
  }

  // ---------------------------------------------------------------- the invariant

  ghost predicate Shape(m: Mem) {
    && |m.frames| == |m.pm.count|
    && (forall x :: x in m.pt ==> m.pt[x].page < |m.frames| && m.pt[x].w == !m.pt[x].cow && x.pid in m.used)
    && (forall p :: p in m.kernel ==> p < |m.frames|)
    && m.heaps.Keys <= m.used
    && (forall pid :: pid in m.used ==> pid < NPROC)
  }

  predicate HeapOk(heap: Heap) {
    && HEAP_BOTTOM <= heap.top && Uncleared(heap.stale)
    && forall i :: 0 <= i < |heap.freed| ==> BelowTop(heap, heap.freed[i])
  }

  ghost predicate HeapShape(m: Mem) {
    && (forall pid :: pid in m.heaps ==> HeapOk(m.heaps[pid]))
    && (forall x :: x in m.pt && x.pid in m.heaps ==> BelowTop(m.heaps[x.pid], x.vpn))
  }

  ghost predicate Counts(m: Mem, harts: map<Hart, HartState>) {
    && Consistent(m.pm)
    && (forall p: nat :: p < |m.pm.count| ==> m.pm.count[p] == Refs(m, harts, p))
    && (forall p :: p in m.kernel && p < |m.pm.count| ==> m.pm.count[p] == 1)
  }

  /** Counted entries of one page sit at one virtual page; a writable one is alone. */
  ghost predicate Sharing(pt: map<Slot, Pte>) {
    forall x, y :: x in pt && y in pt && pt[x].counted && pt[y].counted && pt[x].page == pt[y].page ==>
      x.vpn == y.vpn && (pt[x].w ==> x == y)
  }

  /** An entry that page_ref_count misses is about to be cleared or about to be counted. */
  predicate Unsettled(st: HartState, x: Slot) {
    st.Busy? &&
    match st.phase
    case Clearing(vpn) => x == Slot(st.pid, vpn)
    case ForkProtect(child, v, _) => x == Slot(child, v)
    case ForkCount(child, v, _) => x == Slot(child, v)
    case _ => false
  }

  ghost predicate Uncounted(pt: map<Slot, Pte>, harts: map<Hart, HartState>) {
    forall x :: x in pt && !pt[x].counted ==> exists h :: h in harts && Unsettled(harts[h], x)
  }

  predicate Forking(st: HartState) {
    st.Busy? && (st.phase.ForkLook? || st.phase.ForkProtect? || st.phase.ForkCount?)
  }

  /** Two harts work for different processes and, if both fork, on different children. */
  predicate Apart(a: HartState, b: HartState) {
    && (!a.Idle? && !b.Idle? ==> a.pid != b.pid)
    && (Forking(a) && Forking(b) ==> a.phase.child != b.phase.child)
    && (DropsOne(a) && DropsOne(b) && a.phase.src == b.phase.src ==> a.phase.vpn == b.phase.vpn)
  }

  predicate DropsOne(st: HartState) {
    st.Busy? && st.phase.Dropping?
  }

  ghost predicate Exclusive(harts: map<Hart, HartState>) {
    forall g, h :: g in harts && h in harts && g != h ==> Apart(harts[g], harts[h])
  }

  /** Slot x is mapped, counted, copy-on-write and shows page p. */
  predicate CowAt(m: Mem, x: Slot, p: Page) {
    x in m.pt && m.pt[x].page == p && m.pt[x].cow && m.pt[x].counted
  }

  predicate Held(m: Mem, p: Page) {
    p < |m.pm.count| && m.pm.count[p] == 1
  }

  predicate Forkable(m: Mem, pid: Pid, u: Vpn)
    requires pid in m.heaps
  {
    u !in m.heaps[pid].freed && u !in m.heaps[pid].stale && Slot(pid, u) in m.pt
  }

  /** do_fork has shared exactly the mapped heap pages below `bound` that its filter lets through. */
  ghost predicate SharedBelow(m: Mem, pid: Pid, child: Pid, bound: Vpn)
    requires pid in m.heaps
  {
    && (forall u: nat :: Slot(child, u) in m.pt <==> HEAP_BOTTOM <= u < bound && Forkable(m, pid, u))
    && (forall u: nat :: Slot(child, u) in m.pt && Slot(pid, u) in m.pt ==>
          m.pt[Slot(child, u)].page == m.pt[Slot(pid, u)].page)
  }

  ghost predicate ForkInv(m: Mem, pid: Pid, child: Pid, v: Vpn, bound: Vpn)
    requires pid in m.heaps
  {
    && child in m.used && child !in m.heaps
    && HEAP_BOTTOM <= v <= bound <= m.heaps[pid].top
    && SharedBelow(m, pid, child, bound)
  }

  ghost predicate ChildPending(m: Mem, x: Slot, p: Page) {
    x in m.pt && !m.pt[x].counted && !m.pt[x].w && m.pt[x].page == p
  }

  ghost predicate PhaseInv(m: Mem, pid: Pid, phase: Phase) {
    && pid in m.heaps && |m.frames| == |m.pm.count|
    && match phase
       case Fault(vpn, src) => CowAt(m, Slot(pid, vpn), src)
       case Shared(vpn, src) => CowAt(m, Slot(pid, vpn), src)
       case Sole(vpn, src) => CowAt(m, Slot(pid, vpn), src) && Held(m, src)
       case Copying(vpn, src, dst, done) =>
         && CowAt(m, Slot(pid, vpn), src) && Held(m, dst) && src != dst && src < |m.frames|
         && done <= PGSIZE && m.frames[dst][..done] == m.frames[src][..done]
       case Dropping(vpn, src) =>
         && src < |m.pm.count| && Slot(pid, vpn) in m.pt && m.pt[Slot(pid, vpn)].page != src
         && m.pt[Slot(pid, vpn)].w
         && (forall x :: x in m.pt && m.pt[x].counted && m.pt[x].page == src ==> x.vpn == vpn)
       case Demand(vpn) => Slot(pid, vpn) !in m.pt && BelowTop(m.heaps[pid], vpn)
       case DemandHeld(vpn, dst) => Slot(pid, vpn) !in m.pt && BelowTop(m.heaps[pid], vpn) && Held(m, dst)
       case AllocHeld(dst) => Held(m, dst)
       case Clearing(vpn) => Slot(pid, vpn) in m.pt && !m.pt[Slot(pid, vpn)].counted
       case ForkLook(child, v) => ForkInv(m, pid, child, v, v)
       case ForkProtect(child, v, p) =>
         && ForkInv(m, pid, child, v, v + 1)
         && Slot(pid, v) in m.pt && m.pt[Slot(pid, v)].page == p && m.pt[Slot(pid, v)].counted
         && ChildPending(m, Slot(child, v), p)
       case ForkCount(child, v, p) =>
         ForkInv(m, pid, child, v, v + 1) && CowAt(m, Slot(pid, v), p) && ChildPending(m, Slot(child, v), p)
  }

  ghost predicate HartInv(m: Mem, st: HartState) {
    (st.User? ==> st.pid in m.heaps) && (st.Busy? ==> PhaseInv(m, st.pid, st.phase))
  }

  ghost predicate HartsInv(m: Mem, harts: map<Hart, HartState>) {
    forall h :: h in harts ==> HartInv(m, harts[h])
  }

  ghost predicate Inv(s: System) {
    && Shape(s.mem) && HeapShape(s.mem) && Counts(s.mem, s.harts) && Sharing(s.mem.pt)
    && Uncounted(s.mem.pt, s.harts) && Exclusive(s.harts) && HartsInv(s.mem, s.harts)
  }

  lemma InitInv(s: System)
    requires Init(s)
    ensures Inv(s)
  {
    forall p: nat | p < |s.mem.pm.count|
      ensures s.mem.pm.count[p] == Refs(s.mem, s.harts, p)
    {
      assert PteRefs(s.mem.pt, p) == {};
      assert HartRefs(s.harts, p) == {};
    }
  }

  // ---------------------------------------------------------------- how one update moves the references

  lemma HartRefsAt(harts: map<Hart, HartState>, h: Hart, st: HartState, p: Page)
    ensures HartRefs(harts[h := st], p) == if Holds(st, p) then HartRefs(harts, p) + {h} else HartRefs(harts, p) - {h}
  {
  }

  lemma PteRefsAt(pt: map<Slot, Pte>, x: Slot, e: Pte, p: Page)
    ensures PteRefs(pt[x := e], p) == if e.page == p && e.counted then PteRefs(pt, p) + {x} else PteRefs(pt, p) - {x}
  {
  }

  /** Two different references make a count of at least two. */
  lemma TwoEntries(m: Mem, harts: map<Hart, HartState>, x: Slot, y: Slot, p: Page)
    requires Counts(m, harts) && p < |m.pm.count| && x != y
    requires x in PteRefs(m.pt, p) && y in PteRefs(m.pt, p)
    ensures m.pm.count[p] >= 2
  {
    assert |PteRefs(m.pt, p) - {x} - {y}| == |PteRefs(m.pt, p)| - 2;
  }

  lemma EntryAndHart(m: Mem, harts: map<Hart, HartState>, x: Slot, h: Hart, p: Page)
    requires Counts(m, harts) && p < |m.pm.count|
    requires x in PteRefs(m.pt, p) && h in harts && Holds(harts[h], p)
    ensures m.pm.count[p] >= 2
  {
    assert h in HartRefs(harts, p);
    assert |PteRefs(m.pt, p)| >= 1 && |HartRefs(harts, p)| >= 1;
  }

  lemma TwoHarts(m: Mem, harts: map<Hart, HartState>, g: Hart, h: Hart, p: Page)
    requires Counts(m, harts) && p < |m.pm.count|
    requires g in harts && h in harts && g != h && Holds(harts[g], p) && Holds(harts[h], p)
    ensures m.pm.count[p] >= 2
  {
    assert g in HartRefs(harts, p) && h in HartRefs(harts, p);
    assert |HartRefs(harts, p) - {g} - {h}| == |HartRefs(harts, p)| - 2;
  }

  lemma OneHart(m: Mem, harts: map<Hart, HartState>, h: Hart, p: Page)
    requires Counts(m, harts) && p < |m.pm.count| && h in harts && Holds(harts[h], p)
    ensures m.pm.count[p] >= 1 && (p in m.kernel ==> m.pm.count[p] >= 2)
  {
    assert h in HartRefs(harts, p);
    assert |HartRefs(harts, p)| >= 1;
  }

  lemma OneEntry(m: Mem, harts: map<Hart, HartState>, x: Slot, p: Page)
    requires Counts(m, harts) && p < |m.pm.count| && x in PteRefs(m.pt, p)
    ensures m.pm.count[p] >= 1 && (p in m.kernel ==> m.pm.count[p] >= 2)
  {
    assert |PteRefs(m.pt, p)| >= 1;
  }

  // ---------------------------------------------------------------- what a hart relies on

  ghost predicate SameSlots(m: Mem, n: Mem, pid: Pid) {
    forall v: nat :: (Slot(pid, v) in n.pt <==> Slot(pid, v) in m.pt)
                     && (Slot(pid, v) in m.pt ==> n.pt[Slot(pid, v)] == m.pt[Slot(pid, v)])
  }

  predicate SamePage(m: Mem, n: Mem, p: Page) {
    p < |m.frames| == |n.frames| == |m.pm.count| == |n.pm.count| && n.frames[p] == m.frames[p] &&
      n.pm.count[p] == m.pm.count[p]
  }

  /** A step of another hart that touches none of this hart's slots and none of the pages it pins. */
  ghost predicate Undisturbed(m: Mem, n: Mem, pid: Pid, phase: Phase) {
    && |n.frames| == |n.pm.count| == |m.frames| == |m.pm.count|
    && pid in m.heaps && pid in n.heaps && n.heaps[pid] == m.heaps[pid]
    && SameSlots(m, n, pid)
    && match phase
       case Sole(_, src) => SamePage(m, n, src)
       case Copying(_, src, dst, _) => SamePage(m, n, dst) && src < |m.frames| && n.frames[src] == m.frames[src]
       case Dropping(vpn, src) => forall x :: x in n.pt && n.pt[x].counted && n.pt[x].page == src ==> x.vpn == vpn
       case DemandHeld(_, dst) => SamePage(m, n, dst)
       case AllocHeld(dst) => SamePage(m, n, dst)
       case ForkLook(child, _) => SameSlots(m, n, child) && child in n.used && child !in n.heaps
       case ForkProtect(child, _, _) => SameSlots(m, n, child) && child in n.used && child !in n.heaps
       case ForkCount(child, _, _) => SameSlots(m, n, child) && child in n.used && child !in n.heaps
       case _ => true
  }

  lemma ForkStable(m: Mem, n: Mem, pid: Pid, child: Pid, v: Vpn, bound: Vpn)
    requires pid in m.heaps && pid in n.heaps && n.heaps[pid] == m.heaps[pid]
    requires SameSlots(m, n, pid) && SameSlots(m, n, child) && child in n.used && child !in n.heaps
    requires ForkInv(m, pid, child, v, bound)
    ensures ForkInv(n, pid, child, v, bound)
  {
    forall u: nat
      ensures Slot(child, u) in n.pt <==> HEAP_BOTTOM <= u < bound && Forkable(n, pid, u)
    {
      assert Forkable(n, pid, u) == Forkable(m, pid, u);
    }
  }

  lemma PhaseStable(m: Mem, n: Mem, pid: Pid, phase: Phase)
    requires PhaseInv(m, pid, phase) && Undisturbed(m, n, pid, phase)
    ensures PhaseInv(n, pid, phase)
  {
    match phase
    case ForkLook(child, v) => ForkStable(m, n, pid, child, v, v);
    case ForkProtect(child, v, _) => ForkStable(m, n, pid, child, v, v + 1);
    case ForkCount(child, v, _) => ForkStable(m, n, pid, child, v, v + 1);
    case _ =>
  }
}
