/**
 Sharing is invisible: every run of the copy-on-write machine shows the processes what they would
 see if do_fork copied the heap page by page at once.
 */
module CowRefinement {
  import opened PmmSpec
  import opened Cow
  import opened CowInvariant
  import opened CowSteps

  // ---------------------------------------------------------------- the eager system

  /** Every process owns private frames; there are no physical pages, no counts and no harts. */
  datatype Eager = Eager(view: map<Slot, Frame>, heaps: map<Pid, Heap>)

  datatype Event =
    | Silent
    | Loaded(x: Slot, off: nat, val: int)
    | Stored(x: Slot, off: nat, val: int)
    | Allocated(pid: Pid, frame: Frame)   // the new page holds whatever `frame` says
    | Demanded(x: Slot, frame: Frame)
    | Unmapped(x: Slot)
    | Reclaimed(x: Slot)
    | Called(pid: Pid, stale: set<Vpn>)   // fork is called; its filter has these pages marked by accident
    | Forked(parent: Pid, child: Pid)

  predicate CanEager(e: Eager, ev: Event) {
    match ev
    case Silent => true
    case Loaded(x, off, val) => x in e.view && off < PGSIZE && e.view[x][off] == val
    case Stored(x, off, _) => x in e.view && off < PGSIZE
    case Allocated(pid, _) => pid in e.heaps
    case Demanded(x, _) => x.pid in e.heaps && x !in e.view
    case Unmapped(x) => x in e.view
    case Reclaimed(x) => x.pid in e.heaps && x !in e.view
    case Called(pid, stale) => pid in e.heaps && Uncleared(stale)
    case Forked(parent, child) => parent in e.heaps && child !in e.heaps
  }

  /** The pages a deep-copying fork gives the child: those its filter lets through. */
  function CopyOfHeap(e: Eager, parent: Pid, child: Pid): map<Slot, Frame>
    requires parent in e.heaps
  {
    var heap := e.heaps[parent];
    map v | HEAP_BOTTOM <= v < heap.top && v !in heap.freed && v !in heap.stale && Slot(parent, v) in e.view
      :: Slot(child, v) := e.view[Slot(parent, v)]
  }

  function EagerStep(e: Eager, ev: Event): Eager
    requires CanEager(e, ev)
  {
    match ev
    case Silent => e
    case Loaded(_, _, _) => e
    case Stored(x, off, val) => e.(view := e.view[x := e.view[x][off := val]])
    case Allocated(pid, frame) =>
      var (v, heap) := NextPage(e.heaps[pid]);
      Eager(if Slot(pid, v) in e.view then e.view else e.view[Slot(pid, v) := frame], e.heaps[pid := heap])
    case Demanded(x, frame) => e.(view := e.view[x := frame])
    case Unmapped(x) => e.(view := e.view - {x})
    case Reclaimed(x) => e.(heaps := e.heaps[x.pid := e.heaps[x.pid].(freed := e.heaps[x.pid].freed + [x.vpn])])
    case Called(pid, stale) => e.(heaps := e.heaps[pid := e.heaps[pid].(stale := stale)])
    case Forked(parent, child) =>
      Eager(e.view + CopyOfHeap(e, parent, child), e.heaps[child := e.heaps[parent]])
  }

  // ---------------------------------------------------------------- what the machine shows

  predicate Visible(m: Mem, x: Slot) {
    x in m.pt && x.pid in m.heaps && m.pt[x].counted && m.pt[x].page < |m.frames|
  }

  function Abs(m: Mem): Eager {
    Eager(map x | x in m.pt && Visible(m, x) :: m.frames[m.pt[x].page], m.heaps)
  }

  function EventOf(m: Mem, st: HartState, a: Action): Event
    requires CanStep(m, st, a)
  {
    match a
    case Load(vpn, off) => Loaded(Slot(st.pid, vpn), off, m.frames[m.pt[Slot(st.pid, vpn)].page][off])
    case Store(vpn, off, val) => Stored(Slot(st.pid, vpn), off, val)
    case SysFree(vpn, _) => if Slot(st.pid, vpn) in m.pt then Unmapped(Slot(st.pid, vpn)) else Silent
    case Fork(_, stale) => Called(st.pid, stale)
    case Proceed(_) =>
      (match st.phase
       case DemandHeld(vpn, dst) => if dst < |m.frames| then Demanded(Slot(st.pid, vpn), m.frames[dst]) else Silent
       case AllocHeld(dst) => if dst < |m.frames| then Allocated(st.pid, m.frames[dst]) else Silent
       case Clearing(vpn) => Reclaimed(Slot(st.pid, vpn))
       case ForkLook(child, v) => if v >= m.heaps[st.pid].top then Forked(st.pid, child) else Silent
       case _ => Silent)
    case _ => Silent
  }

  ghost predicate Simulates(m: Mem, ev: Event, n: Mem) {
    CanEager(Abs(m), ev) && Abs(n) == EagerStep(Abs(m), ev)
  }

  // ---------------------------------------------------------------- silent steps

  lemma SameView(m: Mem, n: Mem)
    requires n.heaps == m.heaps
    requires forall x :: Visible(n, x) <==> Visible(m, x)
    requires forall x :: Visible(m, x) && Visible(n, x) ==> n.frames[n.pt[x].page] == m.frames[m.pt[x].page]
    ensures Simulates(m, Silent, n)
  {
    assert Abs(n).view == Abs(m).view;
  }

  lemma Hidden(m: Mem, harts: map<Hart, HartState>, p: Page)
    requires Counts(m, harts) && PteRefs(m.pt, p) == {}
    ensures forall x :: Visible(m, x) ==> m.pt[x].page != p
  {
    forall x | Visible(m, x)
      ensures m.pt[x].page != p
    {
      assert x !in PteRefs(m.pt, p);
    }
  }

  lemma OnlyHart(m: Mem, harts: map<Hart, HartState>, h: Hart, p: Page)
    requires Counts(m, harts) && p < |m.pm.count| && h in harts && Holds(harts[h], p)
    ensures m.pm.count[p] == 1 ==> PteRefs(m.pt, p) == {}
  {
    if m.pm.count[p] == 1 {
      HeldAlone(m, harts, h, p);
    }
  }

  lemma OnlyKernel(m: Mem, harts: map<Hart, HartState>, p: Page)
    requires Shape(m) && Counts(m, harts) && p in m.kernel
    ensures m.pm.count[p] == 1 && PteRefs(m.pt, p) == {}
  {
    assert |PteRefs(m.pt, p)| == 0;
  }

  lemma OnlyEntry(m: Mem, harts: map<Hart, HartState>, x: Slot, p: Page)
    requires Shape(m) && Counts(m, harts) && p < |m.pm.count| && x in PteRefs(m.pt, p) && m.pm.count[p] == 1
    ensures PteRefs(m.pt, p) == {x}
  {
    forall y | y in PteRefs(m.pt, p)
      ensures y == x
    {
      if y != x {
        TwoEntries(m, harts, x, y, p);
      }
    }
  }

  lemma CopiedView(s: System, h: Hart, junk: Frame)
    requires Inv(s) && Enabled(s, h, Proceed(junk)) && s.harts[h].phase.Copying?
    ensures Simulates(s.mem, Silent, Step(s.mem, s.harts[h], Proceed(junk)).0)
  {
    var m := s.mem;
    assert HartInv(m, s.harts[h]);
    var Copying(vpn, src, dst, done) := s.harts[h].phase;
    OnlyHart(m, s.harts, h, dst);
    Hidden(m, s.harts, dst);
    assert m.frames[dst][..done] == m.frames[src][..done];
    if done == PGSIZE {
      assert m.frames[dst] == m.frames[dst][..done] == m.frames[src][..done] == m.frames[src];
    }
    SameView(m, Step(m, s.harts[h], Proceed(junk)).0);
  }

  lemma SilentProceed(s: System, h: Hart, junk: Frame)
    requires Inv(s) && Enabled(s, h, Proceed(junk))
    requires EventOf(s.mem, s.harts[h], Proceed(junk)).Silent?
    ensures Simulates(s.mem, Silent, Step(s.mem, s.harts[h], Proceed(junk)).0)
  {
    var m, n := s.mem, Step(s.mem, s.harts[h], Proceed(junk)).0;
    assert HartInv(m, s.harts[h]);
    match s.harts[h].phase
    case Copying(_, _, _, _) => CopiedView(s, h, junk);
    case Dropping(_, _) => DroppedView(s, h, junk);
    case Sole(_, _) => SoleView(s, h, junk);
    case ForkLook(_, _) => ForkView(s, h, junk);
    case ForkProtect(_, _, _) => ForkView(s, h, junk);
    case ForkCount(_, _, _) => ForkView(s, h, junk);
    case _ => SameView(m, n);
  }

  lemma SoleView(s: System, h: Hart, junk: Frame)
    requires Inv(s) && Enabled(s, h, Proceed(junk)) && s.harts[h].phase.Sole?
    ensures Simulates(s.mem, Silent, Step(s.mem, s.harts[h], Proceed(junk)).0)
  {
    assert HartInv(s.mem, s.harts[h]);
    SameView(s.mem, Step(s.mem, s.harts[h], Proceed(junk)).0);
  }

  /** A step inside do_fork is seen by nobody: the child's entries do not show before its heap is there. */
  lemma ForkView(s: System, h: Hart, junk: Frame)
    requires Inv(s) && Enabled(s, h, Proceed(junk)) && Forking(s.harts[h])
    requires EventOf(s.mem, s.harts[h], Proceed(junk)).Silent?
    ensures Simulates(s.mem, Silent, Step(s.mem, s.harts[h], Proceed(junk)).0)
  {
    assert HartInv(s.mem, s.harts[h]);
    SameView(s.mem, Step(s.mem, s.harts[h], Proceed(junk)).0);
  }

  lemma DroppedView(s: System, h: Hart, junk: Frame)
    requires Inv(s) && Enabled(s, h, Proceed(junk)) && s.harts[h].phase.Dropping?
    requires EventOf(s.mem, s.harts[h], Proceed(junk)).Silent?
    ensures Simulates(s.mem, Silent, Step(s.mem, s.harts[h], Proceed(junk)).0)
  {
    var m, n, src := s.mem, Step(s.mem, s.harts[h], Proceed(junk)).0, s.harts[h].phase.src;
    assert HartInv(m, s.harts[h]);
    OnlyHart(m, s.harts, h, src);
    OneHart(m, s.harts, h, src);
    if m.pm.count[src] == 1 {
      Hidden(m, s.harts, src);
    }
    SameView(m, n);
  }

  // ---------------------------------------------------------------- visible steps

  lemma LoadSimulates(s: System, h: Hart, vpn: Vpn, off: nat)
    requires Inv(s) && Enabled(s, h, Load(vpn, off))
    ensures Simulates(s.mem, EventOf(s.mem, s.harts[h], Load(vpn, off)), s.mem)
  {
    UserCounted(s, h, Slot(s.harts[h].pid, vpn));
  }

  lemma StoreSimulates(s: System, h: Hart, vpn: Vpn, off: nat, val: int)
    requires Inv(s) && Enabled(s, h, Store(vpn, off, val))
    ensures Simulates(s.mem, EventOf(s.mem, s.harts[h], Store(vpn, off, val)),
                      Step(s.mem, s.harts[h], Store(vpn, off, val)).0)
  {
    var m, n := s.mem, Step(s.mem, s.harts[h], Store(vpn, off, val)).0;
    var x := Slot(s.harts[h].pid, vpn);
    UserCounted(s, h, x);
    forall y | Visible(m, y) && y != x
      ensures m.pt[y].page != m.pt[x].page
    {
    }
    assert Abs(n).view == Abs(m).view[x := Abs(m).view[x][off := val]];
  }

  lemma FreedView(m: Mem, x: Slot, junk: Frame)
    requires |m.frames| == |m.pm.count| && Visible(m, x) && m.pm.count[m.pt[x].page] >= 1
    requires m.pm.count[m.pt[x].page] == 1 ==> forall y :: Visible(m, y) && y != x ==> m.pt[y].page != m.pt[x].page
    ensures Simulates(m, Unmapped(x), FreedMem(m, x, junk))
  {
    var n := FreedMem(m, x, junk);
    forall y: Slot
      ensures Visible(n, y) <==> Visible(m, y) && y != x
      ensures Visible(n, y) ==> n.frames[n.pt[y].page] == m.frames[m.pt[y].page]
    {
    }
    assert Abs(n).view == Abs(m).view - {x};
  }

  lemma FreeSimulates(s: System, h: Hart, vpn: Vpn, junk: Frame)
    requires Inv(s) && Enabled(s, h, SysFree(vpn, junk))
    ensures Simulates(s.mem, EventOf(s.mem, s.harts[h], SysFree(vpn, junk)),
                      Step(s.mem, s.harts[h], SysFree(vpn, junk)).0)
  {
    var x := Slot(s.harts[h].pid, vpn);
    if x in s.mem.pt {
      FreedSimulates(s, h, x, junk);
      assert Step(s.mem, s.harts[h], SysFree(vpn, junk)).0 == FreedMem(s.mem, x, junk);
    } else {
      SameView(s.mem, Step(s.mem, s.harts[h], SysFree(vpn, junk)).0);
    }
  }

  lemma FreedSimulates(s: System, h: Hart, x: Slot, junk: Frame)
    requires Inv(s) && h in s.harts && s.harts[h] == User(x.pid) && x in s.mem.pt
    ensures Simulates(s.mem, Unmapped(x), FreedMem(s.mem, x, junk))
  {
    var m := s.mem;
    UserCounted(s, h, x);
    var p := m.pt[x].page;
    assert x in PteRefs(m.pt, p);
    OneEntry(m, s.harts, x, p);
    if m.pm.count[p] == 1 {
      OnlyEntry(m, s.harts, x, p);
      forall y | Visible(m, y) && y != x
        ensures m.pt[y].page != p
      {
        assert y !in PteRefs(m.pt, p);
      }
    }
    FreedView(m, x, junk);
  }

  lemma CopyAt(m: Mem, parent: Pid, child: Pid, u: Vpn)
    requires parent in m.heaps && child !in m.heaps
    requires Slot(parent, u) in m.pt ==> Visible(m, Slot(parent, u))
    requires SharedBelow(m, parent, child, m.heaps[parent].top)
    ensures Slot(child, u) in CopyOfHeap(Abs(m), parent, child) <==> Slot(child, u) in m.pt
    ensures Slot(child, u) in m.pt ==> m.pt[Slot(child, u)].page < |m.frames|
    ensures Slot(child, u) in m.pt ==>
      CopyOfHeap(Abs(m), parent, child)[Slot(child, u)] == m.frames[m.pt[Slot(child, u)].page]
  {
    assert Slot(child, u) in m.pt <==> HEAP_BOTTOM <= u < m.heaps[parent].top && Forkable(m, parent, u);
  }

  lemma MapsAgree(a: map<Slot, Frame>, b: map<Slot, Frame>)
    requires forall x :: x in a <==> x in b
    requires forall x :: x in a && x in b ==> a[x] == b[x]
    ensures a == b
  {
  }

  lemma ForkedView(m: Mem, parent: Pid, child: Pid)
    requires parent in m.heaps && child !in m.heaps
    requires forall u: nat :: Slot(parent, u) in m.pt ==> Visible(m, Slot(parent, u))
    requires forall u: nat :: Slot(child, u) in m.pt ==> m.pt[Slot(child, u)].counted
    requires SharedBelow(m, parent, child, m.heaps[parent].top)
    ensures Simulates(m, Forked(parent, child), m.(heaps := m.heaps[child := m.heaps[parent]]))
  {
    var n := m.(heaps := m.heaps[child := m.heaps[parent]]);
    var copy := CopyOfHeap(Abs(m), parent, child);
    var b := Abs(m).view + copy;
    forall x: Slot
      ensures x in Abs(n).view <==> x in b
      ensures x in Abs(n).view && x in b ==> Abs(n).view[x] == b[x]
    {
      assert x == Slot(x.pid, x.vpn);
      if x.pid == child {
        CopyAt(m, parent, child, x.vpn);
        assert Visible(n, x) <==> x in m.pt;
      } else {
        assert x !in copy;
        assert Visible(n, x) <==> Visible(m, x);
      }
    }
    MapsAgree(Abs(n).view, b);
  }

  /** The moment do_fork finishes, the child shows a copy of every page the eager fork would have copied. */
  lemma ForkSimulates(s: System, h: Hart, junk: Frame)
    requires Inv(s) && Enabled(s, h, Proceed(junk)) && s.harts[h].phase.ForkLook?
    requires s.harts[h].phase.v >= s.mem.heaps[s.harts[h].pid].top
    ensures Simulates(s.mem, EventOf(s.mem, s.harts[h], Proceed(junk)), Step(s.mem, s.harts[h], Proceed(junk)).0)
  {
    var m := s.mem;
    assert HartInv(m, s.harts[h]);
    var parent, child := s.harts[h].pid, s.harts[h].phase.child;
    forall u: nat | Slot(parent, u) in m.pt
      ensures Visible(m, Slot(parent, u))
    {
      BusyCounted(s, h, Slot(parent, u));
    }
    forall u: nat | Slot(child, u) in m.pt
      ensures m.pt[Slot(child, u)].counted
    {
      ChildCounted(s, h, u);
    }
    ForkedView(m, parent, child);
  }

  lemma ChildCounted(s: System, h: Hart, u: Vpn)
    requires Uncounted(s.mem.pt, s.harts) && Exclusive(s.harts) && HartsInv(s.mem, s.harts)
    requires h in s.harts && s.harts[h].Busy? && s.harts[h].phase.ForkLook? &&
      Slot(s.harts[h].phase.child, u) in s.mem.pt
    ensures s.mem.pt[Slot(s.harts[h].phase.child, u)].counted
  {
    var x := Slot(s.harts[h].phase.child, u);
    forall g | g in s.harts
      ensures !Unsettled(s.harts[g], x)
    {
      assert HartInv(s.mem, s.harts[g]) && HartInv(s.mem, s.harts[h]);
      assert g != h ==> Apart(s.harts[g], s.harts[h]);
    }
  }

  lemma MappedView(m: Mem, x: Slot, p: Page, heap: Heap)
    requires x !in m.pt && x.pid in m.heaps && p < |m.frames|
    ensures Abs(MapFresh(m, x, p, heap)).view == Abs(m).view[x := m.frames[p]]
  {
  }

  lemma DemandSimulates(s: System, h: Hart, junk: Frame)
    requires Inv(s) && Enabled(s, h, Proceed(junk)) && s.harts[h].phase.DemandHeld?
    ensures Simulates(s.mem, EventOf(s.mem, s.harts[h], Proceed(junk)), Step(s.mem, s.harts[h], Proceed(junk)).0)
  {
    var m, pid := s.mem, s.harts[h].pid;
    assert HartInv(m, s.harts[h]);
    MappedView(m, Slot(pid, s.harts[h].phase.vpn), s.harts[h].phase.dst, m.heaps[pid]);
    assert m.heaps[pid := m.heaps[pid]] == m.heaps;
  }

  lemma AllocSimulates(s: System, h: Hart, junk: Frame)
    requires Inv(s) && Enabled(s, h, Proceed(junk)) && s.harts[h].phase.AllocHeld?
    ensures Simulates(s.mem, EventOf(s.mem, s.harts[h], Proceed(junk)), Step(s.mem, s.harts[h], Proceed(junk)).0)
  {
    var m, pid := s.mem, s.harts[h].pid;
    assert HartInv(m, s.harts[h]);
    var (v, heap) := NextPage(m.heaps[pid]);
    var x := Slot(pid, v);
    if x in m.pt {
      AllocCounted(s, h, x);
      assert Visible(m, x);
      KilledView(m, Step(m, s.harts[h], Proceed(junk)).0, pid, heap);
    } else {
      MappedView(m, x, s.harts[h].phase.dst, heap);
    }
  }

  lemma KilledView(m: Mem, n: Mem, pid: Pid, heap: Heap)
    requires pid in m.heaps && n == m.(heaps := m.heaps[pid := heap], kernel := n.kernel, dead := n.dead)
    ensures Abs(n).view == Abs(m).view
  {
  }

  lemma ClearSimulates(s: System, h: Hart, junk: Frame)
    requires Inv(s) && Enabled(s, h, Proceed(junk)) && s.harts[h].phase.Clearing?
    ensures Simulates(s.mem, EventOf(s.mem, s.harts[h], Proceed(junk)), Step(s.mem, s.harts[h], Proceed(junk)).0)
  {
    var m, n := s.mem, Step(s.mem, s.harts[h], Proceed(junk)).0;
    assert HartInv(m, s.harts[h]);
    assert Abs(n).view == Abs(m).view;
  }

  lemma AllocCounted(s: System, h: Hart, x: Slot)
    requires Uncounted(s.mem.pt, s.harts) && Exclusive(s.harts) && HartsInv(s.mem, s.harts)
    requires h in s.harts && s.harts[h].Busy? && s.harts[h].phase.AllocHeld? && x in s.mem.pt && x.pid == s.harts[h].pid
    ensures s.mem.pt[x].counted
  {
    forall g | g in s.harts
      ensures !Unsettled(s.harts[g], x)
    {
      assert HartInv(s.mem, s.harts[g]) && HartInv(s.mem, s.harts[h]);
      assert g != h ==> Apart(s.harts[g], s.harts[h]);
    }
  }

  // ---------------------------------------------------------------- the theorems

  /** One step of any hart is one step, or no step, of the eager system. */
  lemma StepSimulates(s: System, h: Hart, a: Action)
    requires Inv(s) && Enabled(s, h, a)
    ensures Simulates(s.mem, EventOf(s.mem, s.harts[h], a), Apply(s, h, a).mem)
  {
    match a
    case Load(vpn, off) => LoadSimulates(s, h, vpn, off);
    case Store(vpn, off, val) => StoreSimulates(s, h, vpn, off, val);
    case SysFree(vpn, junk) => FreeSimulates(s, h, vpn, junk);
    case Proceed(junk) =>
      if EventOf(s.mem, s.harts[h], a).Silent? {
        SilentProceed(s, h, junk);
      } else if s.harts[h].phase.ForkLook? {
        ForkSimulates(s, h, junk);
      } else if s.harts[h].phase.DemandHeld? {
        DemandSimulates(s, h, junk);
      } else if s.harts[h].phase.AllocHeld? {
        AllocSimulates(s, h, junk);
      } else {
        ClearSimulates(s, h, junk);
      }
    case Fork(child, stale) => CallSimulates(s, h, child, stale);
    case KernelGive(p, _) => KernelView(s, h, a, p);
    case KernelWrite(p, _) => KernelView(s, h, a, p);
    case _ => SameView(s.mem, Apply(s, h, a).mem);
  }

  lemma CallSimulates(s: System, h: Hart, child: Pid, stale: set<Vpn>)
    requires Inv(s) && Enabled(s, h, Fork(child, stale))
    ensures Simulates(s.mem, Called(s.harts[h].pid, stale), Apply(s, h, Fork(child, stale)).mem)
  {
    assert Abs(Apply(s, h, Fork(child, stale)).mem).view == Abs(s.mem).view;
  }

  /** No process sees a page of the kernel. */
  lemma KernelView(s: System, h: Hart, a: Action, p: Page)
    requires Inv(s) && Enabled(s, h, a) && ((a.KernelGive? && a.page == p) || (a.KernelWrite? && a.page == p))
    ensures Simulates(s.mem, Silent, Apply(s, h, a).mem)
  {
    OnlyKernel(s.mem, s.harts, p);
    Hidden(s.mem, s.harts, p);
    SameView(s.mem, Apply(s, h, a).mem);
  }

  ghost predicate EagerRun(es: seq<Eager>, evs: seq<Event>) {
    && |es| == |evs| + 1
    && es[0].view == map[]
    && forall i :: 0 <= i < |evs| ==> CanEager(es[i], evs[i]) && es[i + 1] == EagerStep(es[i], evs[i])
  }

  ghost function Trace(states: seq<System>, moves: seq<Move>): seq<Event>
    requires Run(states, moves)
  {
    seq(|moves|, i requires 0 <= i < |moves| => EventOf(states[i].mem, states[i].harts[moves[i].hart], moves[i].action))
  }

  /**
   Copy-on-write refines eager copying: the events of any interleaved run - every value loaded among
   them - are the events of a run of the eager system, and the two agree on all heaps at every step.
   */
  lemma CowRefinesEager(states: seq<System>, moves: seq<Move>)
    requires Run(states, moves)
    ensures EagerRun(seq(|states|, i requires 0 <= i < |states| => Abs(states[i].mem)), Trace(states, moves))
  {
    var es := seq(|states|, i requires 0 <= i < |states| => Abs(states[i].mem));
    var evs := Trace(states, moves);
    assert es[0].view == map[];
    forall i | 0 <= i < |evs|
      ensures CanEager(es[i], evs[i]) && es[i + 1] == EagerStep(es[i], evs[i])
    {
      RunInv(states, moves, i);
      StepSimulates(states[i], moves[i].hart, moves[i].action);
    }
  }

  /** A store by one process changes what no other process sees. */
  lemma StoreIsolated(states: seq<System>, moves: seq<Move>, i: nat, y: Slot)
    requires Run(states, moves) && i < |moves| && moves[i].action.Store?
    requires Visible(states[i].mem, y) && y.pid != states[i].harts[moves[i].hart].pid
    ensures Visible(states[i + 1].mem, y)
    ensures Abs(states[i + 1].mem).view[y] == Abs(states[i].mem).view[y]
  {
    RunInv(states, moves, i);
    StepSimulates(states[i], moves[i].hart, moves[i].action);
  }
}
