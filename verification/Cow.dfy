/**
 Copy-on-write heap memory: page allocation, do_fork, user loads and stores, the store-page-fault
 handler and page release, interleaved over any number of harts.

 Each lock-protected or memory-writing step of the C code is one action, so that two harts can
 fault on the same page at once.  memcpy is a step per byte.  The kernel may take, write and give
 back pages of its own at any moment.  A page put on the free list has its contents overwritten,
 because the list is threaded through the pages.
 */
module Cow {
  import opened Config
  import opened PmmSpec

  const HEAP_BOTTOM := 1024  // USER_FREE_ADDRESS_START, in pages
  const CLEARED := 8         // heap pages whose entries in do_fork's filter are cleared: 32 bytes of 32 ints

  type Pid = nat
  type Vpn = nat
  type Hart = nat
  type Frame = f: seq<int> | |f| == PGSIZE witness seq(PGSIZE, _ => 0)

  datatype Slot = Slot(pid: Pid, vpn: Vpn)

  /** `counted` is bookkeeping that the kernel does not store: whether page_ref_count includes this entry. */
  datatype Pte = Pte(page: Page, w: bool, cow: bool, counted: bool)

  /**
   process_heap_manager, in pages: the heap is [HEAP_BOTTOM, top), `freed` the stack of reclaimed pages.  `stale` is
   not stored there: the pages that the last fork found marked in its filter without having marked them itself.
   */
  datatype Heap = Heap(top: Vpn, freed: seq<Vpn>, stale: set<Vpn>)

  /** Where a hart stands inside the kernel. */
  datatype Phase =
    | Fault(vpn: Vpn, src: Page)                               // the entry was read, PTE_COW is set
    | Shared(vpn: Vpn, src: Page)                              // get_page_ref returned more than one
    | Sole(vpn: Vpn, src: Page)                                // get_page_ref returned at most one
    | Copying(vpn: Vpn, src: Page, dst: Page, done: nat)       // `done` bytes of the memcpy
    | Dropping(vpn: Vpn, src: Page)                            // entry rewritten, dec_page_ref to come
    | Demand(vpn: Vpn)                                         // store to an unmapped heap page
    | DemandHeld(vpn: Vpn, dst: Page)
    | AllocHeld(dst: Page)                                     // sys_user_allocate_page holds a page
    | Clearing(vpn: Vpn)                                       // user_vm_unmap freed the page, entry still set
    | ForkLook(child: Pid, v: Vpn)                             // do_fork at heap page v
    | ForkProtect(child: Pid, v: Vpn, page: Page)              // child mapped, parent entry to be protected
    | ForkCount(child: Pid, v: Vpn, page: Page)                // inc_page_ref to come

  datatype HartState = Idle | User(pid: Pid) | Busy(pid: Pid, phase: Phase)

  /** All memory the harts share.  `kernel` holds the pages in kernel use, `used` the process slots ever taken. */
  datatype Mem = Mem(
    pm: Pmm, frames: seq<Frame>, kernel: set<Page>, pt: map<Slot, Pte>,
    heaps: map<Pid, Heap>, used: set<Pid>, dead: set<Pid>)

  datatype System = System(mem: Mem, harts: map<Hart, HartState>)

  datatype Action =
    | Dispatch(pid: Pid)
    | Leave(dies: bool)
    | Load(vpn: Vpn, off: nat)
    | Store(vpn: Vpn, off: nat, val: int)
    | TrapStore(vpn: Vpn)
    | SysAlloc
    | SysFree(vpn: Vpn, junk: Frame)
    | Fork(child: Pid, stale: set<Vpn>)
    | Proceed(junk: Frame)
    | KernelTake
    | KernelGive(page: Page, junk: Frame)
    | KernelWrite(page: Page, frame: Frame)

  // ---------------------------------------------------------------- pieces of the steps

  predicate CanTake(m: Mem) {
    m.pm.free != [] && m.pm.free[0] < |m.pm.count|
  }

  /** alloc_page */
  function TakePage(m: Mem): Mem
    requires CanTake(m)
  {
    m.(pm := Take(m.pm))
  }

  /** free_page: the page that reaches the free list is overwritten by the list link. */
  function DropPage(m: Mem, p: Page, junk: Frame): Mem
    requires p < |m.pm.count| == |m.frames|
  {
    var pm := Release(m.pm, p);
    m.(pm := pm, frames := if pm.count[p] == 0 then m.frames[p := junk] else m.frames)
  }

  function SetPte(m: Mem, x: Slot, e: Pte): Mem {
    m.(pt := m.pt[x := e])
  }

  function Fresh(p: Page): Pte {
    Pte(p, true, false, true)
  }

  /** The page sys_user_allocate_page maps next, and the heap manager after it. */
  function NextPage(heap: Heap): (Vpn, Heap) {
    if heap.freed != [] then
      (heap.freed[|heap.freed| - 1], heap.(freed := heap.freed[..|heap.freed| - 1]))
    else
      (heap.top, heap.(top := heap.top + 1))
  }

  /** What the store-page-fault handler asks of an address that is not mapped; it does not look at heap_bottom. */
  predicate BelowTop(heap: Heap, vpn: Vpn) {
    vpn < heap.top
  }

  /** Only pages whose entries in the filter are not cleared can be marked by accident. */
  predicate Uncleared(stale: set<Vpn>) {
    forall v :: v in stale ==> v >= HEAP_BOTTOM + CLEARED
  }

  // ---------------------------------------------------------------- the steps of a hart

  predicate CanProceed(m: Mem, pid: Pid, phase: Phase) {
    && pid in m.heaps
    && |m.frames| == |m.pm.count|
    && match phase
       case Fault(_, src) => src < |m.frames|
       case Shared(_, _) => CanTake(m)
       case Sole(vpn, _) => Slot(pid, vpn) in m.pt
       case Copying(_, src, dst, _) => src < |m.frames| && dst < |m.frames|
       case Dropping(_, src) => src < |m.frames|
       case Demand(_) => CanTake(m)
       case DemandHeld(_, _) => true
       case AllocHeld(_) => true
       case Clearing(_) => true
       case ForkLook(_, _) => true
       case ForkProtect(_, v, _) => Slot(pid, v) in m.pt
       case ForkCount(child, v, page) => page < |m.frames| && Slot(child, v) in m.pt
  }

  function Advance(m: Mem, pid: Pid, phase: Phase, junk: Frame): (Mem, HartState)
    requires CanProceed(m, pid, phase)
  {
    var heap := m.heaps[pid];
    match phase
    case Fault(vpn, src) =>
      (m, Busy(pid, if m.pm.count[src] > 1 then Shared(vpn, src) else Sole(vpn, src)))
    case Shared(vpn, src) =>
      (TakePage(m), Busy(pid, Copying(vpn, src, m.pm.free[0], 0)))
    case Sole(vpn, src) =>
      (SetPte(m, Slot(pid, vpn), m.pt[Slot(pid, vpn)].(w := true, cow := false)), User(pid))
    case Copying(vpn, src, dst, done) =>
      if done < PGSIZE then
        (m.(frames := m.frames[dst := m.frames[dst][done := m.frames[src][done]]]),
         Busy(pid, Copying(vpn, src, dst, done + 1)))
      else
        (SetPte(m, Slot(pid, vpn), Fresh(dst)), Busy(pid, Dropping(vpn, src)))
    case Dropping(vpn, src) => (DropPage(m, src, junk), User(pid))
    case Demand(vpn) => (TakePage(m), Busy(pid, DemandHeld(vpn, m.pm.free[0])))
    case DemandHeld(vpn, dst) => (SetPte(m, Slot(pid, vpn), Fresh(dst)), User(pid))
    case AllocHeld(dst) =>
      var (v, heap') := NextPage(heap);
      var m' := m.(heaps := m.heaps[pid := heap']);
      if Slot(pid, v) in m.pt then  // map_pages finds the entry valid and kills the process
        (m'.(kernel := m.kernel + {dst}, dead := m.dead + {pid}), Idle)
      else
        (SetPte(m', Slot(pid, v), Fresh(dst)), User(pid))
    case Clearing(vpn) =>
      (m.(pt := m.pt - {Slot(pid, vpn)}, heaps := m.heaps[pid := heap.(freed := heap.freed + [vpn])]), User(pid))
    case ForkLook(child, v) =>
      if v >= heap.top then
        (m.(heaps := m.heaps[child := heap]), User(pid))
      else if v in heap.freed || v in heap.stale || Slot(pid, v) !in m.pt then
        (m, Busy(pid, ForkLook(child, v + 1)))
      else
        var p := m.pt[Slot(pid, v)].page;
        (SetPte(m, Slot(child, v), Pte(p, false, true, false)), Busy(pid, ForkProtect(child, v, p)))
    case ForkProtect(child, v, page) =>
      (SetPte(m, Slot(pid, v), m.pt[Slot(pid, v)].(w := false, cow := true)), Busy(pid, ForkCount(child, v, page)))
    case ForkCount(child, v, page) =>
      (SetPte(m.(pm := Retain(m.pm, page)), Slot(child, v), m.pt[Slot(child, v)].(counted := true)),
       Busy(pid, ForkLook(child, v + 1)))
  }

  predicate CanStep(m: Mem, st: HartState, a: Action) {
    && |m.frames| == |m.pm.count|
    && (st.User? ==> st.pid in m.heaps)
    && match a
       case Dispatch(pid) => st.Idle? && pid in m.heaps && pid !in m.dead
       case Leave(_) => st.User?
       case Load(vpn, off) => st.User? && Slot(st.pid, vpn) in m.pt && m.pt[Slot(st.pid, vpn)].page < |m.frames| &&
         off < PGSIZE
       case Store(vpn, off, _) =>
         && st.User? && Slot(st.pid, vpn) in m.pt && m.pt[Slot(st.pid, vpn)].page < |m.frames| && off < PGSIZE
         && m.pt[Slot(st.pid, vpn)].w
       case TrapStore(vpn) =>
         && st.User?
         && if Slot(st.pid, vpn) in m.pt then !m.pt[Slot(st.pid, vpn)].w && m.pt[Slot(st.pid, vpn)].cow
            else BelowTop(m.heaps[st.pid], vpn)
       case SysAlloc => st.User? && CanTake(m)
       case SysFree(vpn, _) => st.User? && (Slot(st.pid, vpn) in m.pt ==> m.pt[Slot(st.pid, vpn)].page < |m.frames|)
       case Fork(child, stale) => st.User? && child < NPROC && child !in m.used && Uncleared(stale)
       case Proceed(_) => st.Busy? && CanProceed(m, st.pid, st.phase)
       case KernelTake => CanTake(m)
       case KernelGive(p, _) => p in m.kernel && p < |m.frames|
       case KernelWrite(p, _) => p in m.kernel && p < |m.frames|
  }

  function Step(m: Mem, st: HartState, a: Action): (Mem, HartState)
    requires CanStep(m, st, a)
  {
    match a
    case Dispatch(pid) => (m, User(pid))
    case Leave(dies) => (if dies then m.(dead := m.dead + {st.pid}) else m, Idle)
    case Load(_, _) => (m, st)
    case Store(vpn, off, val) =>
      var p := m.pt[Slot(st.pid, vpn)].page;
      (m.(frames := m.frames[p := m.frames[p][off := val]]), st)
    case TrapStore(vpn) =>
      var x := Slot(st.pid, vpn);
      (m, Busy(st.pid, if x in m.pt then Fault(vpn, m.pt[x].page) else Demand(vpn)))
    case SysAlloc => (TakePage(m), Busy(st.pid, AllocHeld(m.pm.free[0])))
    case SysFree(vpn, junk) =>
      var x := Slot(st.pid, vpn);
      if x !in m.pt then  // "not mapped": the process is killed
        (m.(dead := m.dead + {st.pid}), Idle)
      else
        (SetPte(DropPage(m, m.pt[x].page, junk), x, m.pt[x].(counted := false)), Busy(st.pid, Clearing(vpn)))
    case Fork(child, stale) =>
      (m.(used := m.used + {child}, heaps := m.heaps[st.pid := m.heaps[st.pid].(stale := stale)]),
       Busy(st.pid, ForkLook(child, HEAP_BOTTOM)))
    case Proceed(junk) => Advance(m, st.pid, st.phase, junk)
    case KernelTake => (TakePage(m).(kernel := m.kernel + {m.pm.free[0]}), st)
    case KernelGive(p, junk) => (DropPage(m, p, junk).(kernel := m.kernel - {p}), st)
    case KernelWrite(p, frame) => (m.(frames := m.frames[p := frame]), st)
  }

  // ---------------------------------------------------------------- runs of the whole machine

  predicate Elsewhere(harts: map<Hart, HartState>, pid: Pid) {
    exists h :: h in harts && !harts[h].Idle? && harts[h].pid == pid
  }

  predicate Enabled(s: System, h: Hart, a: Action) {
    && h in s.harts
    && CanStep(s.mem, s.harts[h], a)
    && (a.Dispatch? ==> !Elsewhere(s.harts, a.pid))
  }

  function Apply(s: System, h: Hart, a: Action): System
    requires Enabled(s, h, a)
  {
    var (m, st) := Step(s.mem, s.harts[h], a);
    System(m, s.harts[h := st])
  }

  ghost predicate Init(s: System) {
    && |s.mem.frames| == |s.mem.pm.count|
    && Consistent(s.mem.pm) && (forall p: nat :: p < |s.mem.pm.count| ==> s.mem.pm.count[p] == 0)
    && s.mem.kernel == {} && s.mem.pt == map[] && s.mem.dead == {}
    && s.mem.used == s.mem.heaps.Keys
    && (forall pid :: pid in s.mem.used ==> pid < NPROC)
    && (forall pid :: pid in s.mem.heaps ==> s.mem.heaps[pid] == Heap(HEAP_BOTTOM, [], {}))
    && (forall h :: h in s.harts ==> s.harts[h].Idle?)
  }

  /** A run: the actions taken and the harts that took them. */
  datatype Move = Move(hart: Hart, action: Action)

  ghost predicate Run(states: seq<System>, moves: seq<Move>) {
    && |states| == |moves| + 1
    && Init(states[0])
    && forall i :: 0 <= i < |moves| ==>
         Enabled(states[i], moves[i].hart, moves[i].action)
         && states[i + 1] == Apply(states[i], moves[i].hart, moves[i].action)
  }

  /** A run, one step longer. */
  lemma Then(states: seq<System>, moves: seq<Move>, h: Hart, a: Action) returns (ss: seq<System>, ms: seq<Move>)
    requires Run(states, moves) && Enabled(states[|moves|], h, a)
    ensures Run(ss, ms) && ss[|ms|] == Apply(states[|moves|], h, a)
  {
    ss, ms := states + [Apply(states[|moves|], h, a)], moves + [Move(h, a)];
  }

  /** The step with which do_fork ends. */
  predicate EndsFork(s: System, h: Hart, a: Action)
    requires Enabled(s, h, a)
  {
    a.Proceed? && s.harts[h].phase.ForkLook? && s.harts[h].phase.v >= s.mem.heaps[s.harts[h].pid].top
  }

  function Zeroes(): Frame {
    seq(PGSIZE, _ => 0)
  }
}
