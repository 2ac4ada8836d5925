/**
 Code pages beside the copy-on-write heap.  do_fork maps the parent's code into the child without inc_page_ref, and
 sys_user_free_page releases any page that is mapped.  As long as no process frees a page of code, the machine is the
 one of module Cow; once one does after a fork, the other's code page is on the free list.
 */
module CowCode {
  import opened PmmSpec
  import opened Cow
  import opened CowInvariant
  import opened CowSteps
  import opened CowRefinement

  /** `code`: the entries below the heap that map code.  None of them is counted; the loader took the page once. */
  datatype Machine = Machine(sys: System, code: map<Slot, Page>)

  datatype Act =
    | Plain(a: Action)
    | MapCode(pid: Pid, vpn: Vpn, page: Page)  // the loader maps a page it took
    | FreeCode(vpn: Vpn, junk: Frame)          // sys_user_free_page on a page of code

  datatype Deed = Deed(hart: Hart, act: Act)

  predicate IsCode(m: Machine, h: Hart, vpn: Vpn) {
    h in m.sys.harts && m.sys.harts[h].User? && Slot(m.sys.harts[h].pid, vpn) in m.code
  }

  /** A store to code finds the entry valid and kills the process; that is Leave. */
  predicate Can(m: Machine, h: Hart, act: Act) {
    match act
    case Plain(a) =>
      && Enabled(m.sys, h, a) && (a.SysFree? || a.TrapStore? ==> !IsCode(m, h, a.vpn))
      && (a.KernelGive? ==> forall x :: x in m.code ==> m.code[x] != a.page)
    case MapCode(pid, vpn, p) =>
      && h in m.sys.harts && m.sys.harts[h].Idle? && p in m.sys.mem.kernel
      && p < |m.sys.mem.frames| == |m.sys.mem.pm.count|
      && vpn < HEAP_BOTTOM && pid in m.sys.mem.heaps && m.sys.mem.heaps[pid] == Heap(HEAP_BOTTOM, [], {})
      && !Elsewhere(m.sys.harts, pid) && Slot(pid, vpn) !in m.sys.mem.pt && Slot(pid, vpn) !in m.code
    case FreeCode(vpn, _) =>
      && IsCode(m, h, vpn) && m.sys.harts[h].pid in m.sys.mem.heaps
      && m.code[Slot(m.sys.harts[h].pid, vpn)] < |m.sys.mem.frames| == |m.sys.mem.pm.count|
  }

  /** The child maps what the parent maps. */
  function CopyOfCode(code: map<Slot, Page>, parent: Pid, child: Pid): map<Slot, Page> {
    map x | x in code && x.pid == parent :: Slot(child, x.vpn) := code[x]
  }

  function Freed(mem: Mem, x: Slot, p: Page, junk: Frame): Mem
    requires x.pid in mem.heaps && p < |mem.frames| == |mem.pm.count|
  {
    var n := DropPage(mem, p, junk);
    n.(kernel := n.kernel - {p},
       heaps := n.heaps[x.pid := n.heaps[x.pid].(freed := n.heaps[x.pid].freed + [x.vpn])])
  }

  function Do(m: Machine, h: Hart, act: Act): Machine
    requires Can(m, h, act)
  {
    match act
    case Plain(a) =>
      Machine(Apply(m.sys, h, a),
              if EndsFork(m.sys, h, a) then m.code + CopyOfCode(m.code, m.sys.harts[h].pid, m.sys.harts[h].phase.child)
              else m.code)
    case MapCode(pid, vpn, p) => m.(code := m.code[Slot(pid, vpn) := p])
    case FreeCode(vpn, junk) =>
      var x := Slot(m.sys.harts[h].pid, vpn);
      Machine(m.sys.(mem := Freed(m.sys.mem, x, m.code[x], junk)), m.code - {x})
  }

  ghost predicate CodeRun(ms: seq<Machine>, deeds: seq<Deed>) {
    && |ms| == |deeds| + 1 && Init(ms[0].sys) && ms[0].code == map[]
    && forall i :: 0 <= i < |deeds| ==>
         Can(ms[i], deeds[i].hart, deeds[i].act) && ms[i + 1] == Do(ms[i], deeds[i].hart, deeds[i].act)
  }

  ghost predicate Tame(deeds: seq<Deed>) {
    forall i :: 0 <= i < |deeds| ==> !deeds[i].act.FreeCode?
  }

  // ---------------------------------------------------------------- while no code is freed

  /** The loader's mapping of a page is no step of the machine below; it stands for a write of what is there. */
  function MoveOf(m: Machine, d: Deed): Move {
    match d.act
    case Plain(a) => Move(d.hart, a)
    case MapCode(_, _, p) =>
      Move(d.hart, KernelWrite(p, if p < |m.sys.mem.frames| then m.sys.mem.frames[p] else Zeroes()))
    case FreeCode(vpn, junk) => Move(d.hart, SysFree(vpn, junk))
  }

  lemma OneMove(m: Machine, d: Deed)
    requires Can(m, d.hart, d.act) && !d.act.FreeCode?
    ensures Enabled(m.sys, d.hart, MoveOf(m, d).action)
    ensures Apply(m.sys, d.hart, MoveOf(m, d).action) == Do(m, d.hart, d.act).sys
  {
    if d.act.MapCode? {
      var mem, p := m.sys.mem, d.act.page;
      assert mem.frames[p := mem.frames[p]] == mem.frames;
      assert mem.(frames := mem.frames) == mem;
      assert m.sys.harts[d.hart := m.sys.harts[d.hart]] == m.sys.harts;
    }
  }

  function Systems(ms: seq<Machine>): (ss: seq<System>)
    ensures |ss| == |ms| && forall i :: 0 <= i < |ms| ==> ss[i] == ms[i].sys
  {
    seq(|ms|, i requires 0 <= i < |ms| => ms[i].sys)
  }

  function Moves(ms: seq<Machine>, deeds: seq<Deed>): (moves: seq<Move>)
    requires |ms| == |deeds| + 1
    ensures |moves| == |deeds| && forall i :: 0 <= i < |deeds| ==> moves[i] == MoveOf(ms[i], deeds[i])
  {
    seq(|deeds|, i requires 0 <= i < |deeds| => MoveOf(ms[i], deeds[i]))
  }

  /** A run in which no process frees code is a run of module Cow, so everything said there holds of it. */
  lemma TameIsCow(ms: seq<Machine>, deeds: seq<Deed>)
    requires CodeRun(ms, deeds) && Tame(deeds)
    ensures Run(Systems(ms), Moves(ms, deeds))
  {
    var ss, moves := Systems(ms), Moves(ms, deeds);
    forall i | 0 <= i < |moves|
      ensures Enabled(ss[i], moves[i].hart, moves[i].action)
      ensures ss[i + 1] == Apply(ss[i], moves[i].hart, moves[i].action)
    {
      OneMove(ms[i], deeds[i]);
    }
  }

  /** In such a run every code page belongs to the kernel: it is not free, and no heap has it. */
  lemma {:induction false} CodeStays(ms: seq<Machine>, deeds: seq<Deed>, i: nat)
    requires CodeRun(ms, deeds) && Tame(deeds) && i < |ms|
    ensures forall x :: x in ms[i].code ==> ms[i].code[x] in ms[i].sys.mem.kernel
  {
    if i > 0 {
      CodeStays(ms, deeds, i - 1);
      KernelKeeps(ms[i - 1], deeds[i - 1]);
    }
  }

  lemma KernelKeeps(m: Machine, d: Deed)
    requires Can(m, d.hart, d.act) && !d.act.FreeCode?
    requires forall x :: x in m.code ==> m.code[x] in m.sys.mem.kernel
    ensures var n := Do(m, d.hart, d.act); forall x :: x in n.code ==> n.code[x] in n.sys.mem.kernel
  {
  }

  predicate Wants(st: HartState, x: Slot) {
    st.Busy? && x.pid == st.pid && match st.phase
      case Demand(vpn) => x.vpn == vpn
      case DemandHeld(vpn, _) => x.vpn == vpn
      case _ => false
  }

  /** A slot that maps code has no other entry, and no hart is about to make one. */
  ghost predicate SlotApart(m: Machine, x: Slot) {
    && x.vpn < HEAP_BOTTOM && x !in m.sys.mem.pt && x.pid in m.sys.mem.heaps
    && x.vpn !in m.sys.mem.heaps[x.pid].freed
    && forall h :: h in m.sys.harts ==> !Wants(m.sys.harts[h], x)
  }

  ghost predicate CodeApart(m: Machine) {
    forall x :: x in m.code ==> SlotApart(m, x)
  }

  /** So map_pages never finds an entry of code where the heap wants one. */
  lemma {:induction false} TameApart(ms: seq<Machine>, deeds: seq<Deed>, i: nat)
    requires CodeRun(ms, deeds) && Tame(deeds) && i < |ms|
    ensures CodeApart(ms[i])
  {
    if i > 0 {
      TameApart(ms, deeds, i - 1);
      TameIsCow(ms, deeds);
      RunInv(Systems(ms), Moves(ms, deeds), i - 1);
      ApartStep(ms[i - 1], deeds[i - 1]);
    }
  }

  lemma ApartStep(m: Machine, d: Deed)
    requires Inv(m.sys) && CodeApart(m) && Can(m, d.hart, d.act) && !d.act.FreeCode?
    ensures CodeApart(Do(m, d.hart, d.act))
  {
    var n := Do(m, d.hart, d.act);
    forall x | x in n.code
      ensures SlotApart(n, x)
    {
      match d.act
      case MapCode(pid, vpn, p) =>
        if x in m.code { assert SlotApart(m, x); }
        else { assert forall h :: h in m.sys.harts ==> !Wants(m.sys.harts[h], x); }
      case Plain(a) =>
        assert HartInv(m.sys.mem, m.sys.harts[d.hart]);
        if x in m.code && !(EndsFork(m.sys, d.hart, a) && x.pid == m.sys.harts[d.hart].phase.child) {
          assert SlotApart(m, x);
          OldApart(m, d.hart, a, x);
        } else {
          ChildApart(m, d.hart, a, x);
        }
    }
  }

  lemma OldApart(m: Machine, h: Hart, a: Action, x: Slot)
    requires Inv(m.sys) && x in m.code && SlotApart(m, x) && Can(m, h, Plain(a))
    requires EndsFork(m.sys, h, a) ==> x.pid != m.sys.harts[h].phase.child
    ensures SlotApart(Do(m, h, Plain(a)), x)
  {
    assert HartInv(m.sys.mem, m.sys.harts[h]);
    var t := Apply(m.sys, h, a);
    if a.Proceed? {
      OldProceed(m, h, a.junk, x);
    }
  }

  lemma OldProceed(m: Machine, h: Hart, junk: Frame, x: Slot)
    requires Inv(m.sys) && x in m.code && SlotApart(m, x) && Can(m, h, Plain(Proceed(junk)))
    requires EndsFork(m.sys, h, Proceed(junk)) ==> x.pid != m.sys.harts[h].phase.child
    ensures SlotApart(Do(m, h, Plain(Proceed(junk))), x)
  {
    EntryApart(m, h, junk, x);
    WantsKept(m.sys.mem, m.sys.harts[h].pid, m.sys.harts[h].phase, junk, x);
  }

  lemma WantsKept(mem: Mem, pid: Pid, phase: Phase, junk: Frame, x: Slot)
    requires CanProceed(mem, pid, phase) && !Wants(Busy(pid, phase), x)
    ensures !Wants(Advance(mem, pid, phase, junk).1, x)
  {
  }

  lemma EntryApart(m: Machine, h: Hart, junk: Frame, x: Slot)
    requires Inv(m.sys) && x in m.code && SlotApart(m, x) && Can(m, h, Plain(Proceed(junk)))
    requires EndsFork(m.sys, h, Proceed(junk)) ==> x.pid != m.sys.harts[h].phase.child
    ensures var mem := Apply(m.sys, h, Proceed(junk)).mem;
      x !in mem.pt && x.pid in mem.heaps && x.vpn !in mem.heaps[x.pid].freed
  {
    assert HartInv(m.sys.mem, m.sys.harts[h]);
    assert !Wants(m.sys.harts[h], x);
  }

  lemma ChildApart(m: Machine, h: Hart, a: Action, x: Slot)
    requires Inv(m.sys) && CodeApart(m) && Can(m, h, Plain(a)) && EndsFork(m.sys, h, a)
    requires x in Do(m, h, Plain(a)).code && x.pid == m.sys.harts[h].phase.child
    ensures SlotApart(Do(m, h, Plain(a)), x)
  {
    var mem, pid, child, v := m.sys.mem, m.sys.harts[h].pid, m.sys.harts[h].phase.child, m.sys.harts[h].phase.v;
    assert HartInv(mem, m.sys.harts[h]);
    ForkDone(m, h, pid, child, v, a.junk);
    assert x in m.code ==> SlotApart(m, x);
    assert SlotApart(m, Slot(pid, x.vpn));
    assert Slot(child, x.vpn) in mem.pt ==> HEAP_BOTTOM <= x.vpn;
    NobodyWants(m.sys, x);
  }

  lemma NobodyWants(s: System, x: Slot)
    requires HartsInv(s.mem, s.harts) && x.pid !in s.mem.heaps
    ensures forall g :: g in s.harts ==> !Wants(s.harts[g], x)
  {
    forall g | g in s.harts
      ensures !Wants(s.harts[g], x)
    {
      assert HartInv(s.mem, s.harts[g]);
    }
  }

  lemma ForkDone(m: Machine, h: Hart, pid: Pid, child: Pid, v: Vpn, junk: Frame)
    requires h in m.sys.harts && m.sys.harts[h] == Busy(pid, ForkLook(child, v)) && pid in m.sys.mem.heaps
    requires |m.sys.mem.frames| == |m.sys.mem.pm.count| && v >= m.sys.mem.heaps[pid].top
    ensures Can(m, h, Plain(Proceed(junk)))
    ensures Do(m, h, Plain(Proceed(junk))) ==
      Machine(System(m.sys.mem.(heaps := m.sys.mem.heaps[child := m.sys.mem.heaps[pid]]), m.sys.harts[h := User(pid)]),
              m.code + CopyOfCode(m.code, pid, child))
  {
  }

  /** A store by one process changes what no other process sees, its code included. */
  lemma TameIsolated(ms: seq<Machine>, deeds: seq<Deed>, i: nat, y: Slot)
    requires CodeRun(ms, deeds) && Tame(deeds) && i < |deeds| && deeds[i].act.Plain? && deeds[i].act.a.Store?
    ensures y in ms[i].code ==>
      && ms[i].code[y] < |ms[i].sys.mem.frames| == |ms[i + 1].sys.mem.frames|
      && ms[i + 1].sys.mem.frames[ms[i].code[y]] == ms[i].sys.mem.frames[ms[i].code[y]]
    ensures Visible(ms[i].sys.mem, y) && y.pid != ms[i].sys.harts[deeds[i].hart].pid ==>
      && Visible(ms[i + 1].sys.mem, y)
      && Abs(ms[i + 1].sys.mem).view[y] == Abs(ms[i].sys.mem).view[y]
  {
    TameIsCow(ms, deeds);
    var ss, moves := Systems(ms), Moves(ms, deeds);
    RunInv(ss, moves, i);
    if Visible(ss[i].mem, y) && y.pid != ss[i].harts[moves[i].hart].pid {
      StoreIsolated(ss, moves, i, y);
    }
    if y in ms[i].code {
      CodeStays(ms, deeds, i);
      KernelUnmapped(ss[i], moves[i].hart, moves[i].action, ms[i].code[y]);
    }
  }

  lemma KernelUnmapped(s: System, h: Hart, a: Action, p: Page)
    requires Inv(s) && Enabled(s, h, a) && a.Store? && p in s.mem.kernel
    ensures p < |s.mem.frames| && Apply(s, h, a).mem.frames[p] == s.mem.frames[p]
  {
    var x := Slot(s.harts[h].pid, a.vpn);
    UserCounted(s, h, x);
    OneEntry(s.mem, s.harts, x, s.mem.pt[x].page);
  }

  // ---------------------------------------------------------------- when one is

  ghost predicate Dangles(m: Machine) {
    exists x :: x in m.code && m.code[x] in m.sys.mem.pm.free
  }

  /** The first process to free a code page leaves a mapping of a free page exactly if another maps it too. */
  lemma FreeCodeDanglesIff(m: Machine, h: Hart, vpn: Vpn, junk: Frame)
    requires Inv(m.sys) && Can(m, h, FreeCode(vpn, junk))
    requires forall x :: x in m.code ==> m.code[x] in m.sys.mem.kernel
    ensures var x := Slot(m.sys.harts[h].pid, vpn);
      Dangles(Do(m, h, FreeCode(vpn, junk))) <==> exists y :: y in m.code && y != x && m.code[y] == m.code[x]
  {
    var x := Slot(m.sys.harts[h].pid, vpn);
    var n, p := Do(m, h, FreeCode(vpn, junk)), m.code[x];
    assert m.sys.mem.pm.count[p] == 1;
    assert n.sys.mem.pm.free == [p] + m.sys.mem.pm.free;
    forall y | y in m.code
      ensures m.code[y] !in m.sys.mem.pm.free
    {
      assert m.sys.mem.pm.count[m.code[y]] == 1;
    }
    if y :| y in m.code && y != x && m.code[y] == p {
      assert y in n.code && n.code[y] in n.sys.mem.pm.free;
    }
  }

  // ---------------------------------------------------------------- a run in which two do

  const TEXT: Vpn := 16

  function Memory(count: nat, free: seq<Page>, frame: Frame, kernel: set<Page>, pt: map<Slot, Pte>, freed0: seq<Vpn>,
                  freed1: seq<Vpn>): Mem {
    Mem(Pmm([count], free), [frame], kernel, pt,
        map[0 := Heap(HEAP_BOTTOM, freed0, {}), 1 := Heap(HEAP_BOTTOM, freed1, {})], {0, 1}, {})
  }

  function Start(): Machine {
    Machine(System(Mem(Pmm([0], [0]), [Zeroes()], {}, map[], map[0 := Heap(HEAP_BOTTOM, [], {})], {0}, {}),
                   map[0 := Idle, 1 := Idle]), map[])
  }

  /** A run, one step longer. */
  lemma Grow(ms: seq<Machine>, deeds: seq<Deed>, h: Hart, act: Act, n: Machine)
    returns (ms': seq<Machine>, deeds': seq<Deed>)
    requires CodeRun(ms, deeds) && Can(ms[|deeds|], h, act) && Do(ms[|deeds|], h, act) == n
    ensures CodeRun(ms', deeds') && ms'[|deeds'|] == n
  {
    ms', deeds' := ms + [n], deeds + [Deed(h, act)];
  }

  function Harts(a: HartState, b: HartState): map<Hart, HartState> {
    map[0 := a, 1 := b]
  }

  /** One process, the page with the kernel. */
  function Taken(): Mem {
    Mem(Pmm([1], []), [Zeroes()], {0}, map[], map[0 := Heap(HEAP_BOTTOM, [], {})], {0}, {})
  }

  function Text0(): map<Slot, Page> {
    map[Slot(0, TEXT) := 0]
  }

  /** The page is taken and loaded as code of process 0, which forks process 1; both run. */
  function BothMapped(): Machine {
    Machine(System(Memory(1, [], Zeroes(), {0}, map[], [], []), Harts(User(0), User(1))),
            map[Slot(0, TEXT) := 0, Slot(1, TEXT) := 0])
  }

  lemma TakeStep()
    ensures Can(Start(), 0, Plain(KernelTake))
    ensures Do(Start(), 0, Plain(KernelTake)) == Machine(System(Taken(), Harts(Idle, Idle)), map[])
  {
    assert [0][0 := 1] == [1] && [0][1..] == [];
  }

  lemma LoadStep()
    ensures var m := Machine(System(Taken(), Harts(Idle, Idle)), map[]);
      && Can(m, 0, MapCode(0, TEXT, 0))
      && Do(m, 0, MapCode(0, TEXT, 0)) == Machine(System(Taken(), Harts(Idle, Idle)), Text0())
  {
  }

  lemma RunStep()
    ensures var m := Machine(System(Taken(), Harts(Idle, Idle)), Text0());
      && Can(m, 0, Plain(Dispatch(0)))
      && Do(m, 0, Plain(Dispatch(0))) == Machine(System(Taken(), Harts(User(0), Idle)), Text0())
  {
  }

  lemma RunChild()
    ensures var m := Machine(System(BothMapped().sys.mem, Harts(User(0), Idle)), BothMapped().code);
      && Can(m, 1, Plain(Dispatch(1))) && Do(m, 1, Plain(Dispatch(1))) == BothMapped()
  {
  }

  lemma ForkStep()
    ensures var m := Machine(System(Taken(), Harts(User(0), Idle)), Text0());
      && Can(m, 0, Plain(Fork(1, {})))
      && Do(m, 0, Plain(Fork(1, {}))) ==
         Machine(System(Taken().(used := {0, 1}), Harts(Busy(0, ForkLook(1, HEAP_BOTTOM)), Idle)), Text0())
  {
  }

  lemma ForkEnds(m: Machine, junk: Frame)
    requires m == Machine(System(Taken().(used := {0, 1}), Harts(Busy(0, ForkLook(1, HEAP_BOTTOM)), Idle)), Text0())
    ensures Can(m, 0, Plain(Proceed(junk)))
    ensures Do(m, 0, Plain(Proceed(junk))) ==
      Machine(System(BothMapped().sys.mem, Harts(User(0), Idle)), BothMapped().code)
  {
    ForkDone(m, 0, 0, 1, HEAP_BOTTOM, junk);
    HeapsCopied(m.sys.mem.heaps);
    HartBack(m.sys.harts);
    CodeCopied();
  }

  lemma HeapsCopied(heaps: map<Pid, Heap>)
    requires heaps == Taken().heaps
    ensures heaps[1 := heaps[0]] == BothMapped().sys.mem.heaps
  {
  }

  lemma HartBack(harts: map<Hart, HartState>)
    requires harts == Harts(Busy(0, ForkLook(1, HEAP_BOTTOM)), Idle)
    ensures harts[0 := User(0)] == Harts(User(0), Idle)
  {
  }

  lemma CodeCopied()
    ensures Text0() + CopyOfCode(Text0(), 0, 1) == BothMapped().code
  {
  }

  lemma Loaded() returns (ms: seq<Machine>, deeds: seq<Deed>)
    ensures CodeRun(ms, deeds) && ms[|deeds|] == BothMapped()
  {
    TakeStep();
    LoadStep();
    RunStep();
    RunChild();
    ms, deeds := Grow([Start()], [], 0, Plain(KernelTake), Do(Start(), 0, Plain(KernelTake)));
    ms, deeds := Grow(ms, deeds, 0, MapCode(0, TEXT, 0), Do(ms[|deeds|], 0, MapCode(0, TEXT, 0)));
    ms, deeds := Grow(ms, deeds, 0, Plain(Dispatch(0)), Do(ms[|deeds|], 0, Plain(Dispatch(0))));
    ms, deeds := Forked(ms, deeds);
    ms, deeds := Grow(ms, deeds, 1, Plain(Dispatch(1)), BothMapped());
  }

  lemma Forked(ms: seq<Machine>, deeds: seq<Deed>) returns (ms': seq<Machine>, deeds': seq<Deed>)
    requires CodeRun(ms, deeds) && ms[|deeds|] == Machine(System(Taken(), Harts(User(0), Idle)), Text0())
    ensures CodeRun(ms', deeds')
    ensures ms'[|deeds'|] == Machine(System(BothMapped().sys.mem, Harts(User(0), Idle)), BothMapped().code)
  {
    ForkStep();
    ms', deeds' := Grow(ms, deeds, 0, Plain(Fork(1, {})), Do(ms[|deeds|], 0, Plain(Fork(1, {}))));
    ForkEnds(ms'[|deeds'|], Zeroes());
    ms', deeds' := Grow(ms', deeds', 0, Plain(Proceed(Zeroes())), Do(ms'[|deeds'|], 0, Plain(Proceed(Zeroes()))));
  }

  /** sys_user_free_page of the one page there is, by either process: it is free, whatever still maps it. */
  lemma FreeStep(kernel: set<Page>, pt: map<Slot, Pte>, code: map<Slot, Page>, pid: Pid)
    requires pid < 2 && Slot(pid, TEXT) in code && code[Slot(pid, TEXT)] == 0
    ensures var m := Machine(System(Memory(1, [], Zeroes(), kernel, pt, [], []), Harts(User(0), User(1))), code);
      var (f0, f1) := Reclaimed(pid);
      && Can(m, pid, FreeCode(TEXT, Zeroes()))
      && Do(m, pid, FreeCode(TEXT, Zeroes())) ==
         Machine(System(Memory(0, [0], Zeroes(), kernel - {0}, pt, f0, f1), Harts(User(0), User(1))),
                 code - {Slot(pid, TEXT)})
  {
    var mem, x := Memory(1, [], Zeroes(), kernel, pt, [], []), Slot(pid, TEXT);
    assert Release(mem.pm, 0) == Pmm([0], [0]) by { assert [1][0 := 0] == [0] && [0] + [] == [0]; }
    assert [Zeroes()][0 := Zeroes()] == [Zeroes()];
    var (f0, f1) := Reclaimed(pid);
    assert [] + [TEXT] == [TEXT];
    assert Freed(mem, x, 0, Zeroes()).heaps == Memory(0, [0], Zeroes(), kernel - {0}, pt, f0, f1).heaps;
  }

  function Reclaimed(pid: Pid): (seq<Vpn>, seq<Vpn>) {
    (if pid == 0 then [TEXT] else [], if pid == 1 then [TEXT] else [])
  }

  function Holding(pid: Pid): map<Hart, HartState> {
    if pid == 0 then Harts(Busy(0, AllocHeld(0)), User(1)) else Harts(User(0), Busy(1, AllocHeld(0)))
  }

  /** sys_user_allocate_page of the one page there is ... */
  lemma AllocStep(pt: map<Slot, Pte>, code: map<Slot, Page>, pid: Pid)
    requires pid < 2
    ensures var (f0, f1) := Reclaimed(pid);
      var m := Machine(System(Memory(0, [0], Zeroes(), {}, pt, f0, f1), Harts(User(0), User(1))), code);
      && Can(m, pid, Plain(SysAlloc))
      && Do(m, pid, Plain(SysAlloc)) ==
         Machine(System(Memory(1, [], Zeroes(), {}, pt, f0, f1), Holding(pid)), code)
  {
    assert Take(Pmm([0], [0])) == Pmm([1], []) by { assert [0][0 := 1] == [1] && [0][1..] == []; }
    assert Harts(User(0), User(1))[pid := Busy(pid, AllocHeld(0))] == Holding(pid);
  }

  /** ... and its mapping at the address just reclaimed. */
  lemma MapStep(pt: map<Slot, Pte>, code: map<Slot, Page>, pid: Pid)
    requires pid < 2 && Slot(pid, TEXT) !in pt
    ensures var (f0, f1) := Reclaimed(pid);
      var m := Machine(System(Memory(1, [], Zeroes(), {}, pt, f0, f1), Holding(pid)), code);
      && Can(m, pid, Plain(Proceed(Zeroes())))
      && Do(m, pid, Plain(Proceed(Zeroes()))) ==
         Machine(System(Memory(1, [], Zeroes(), {}, pt[Slot(pid, TEXT) := Fresh(0)], [], []), Harts(User(0), User(1))),
                 code)
  {
    var mem := Memory(1, [], Zeroes(), {}, pt, Reclaimed(pid).0, Reclaimed(pid).1);
    assert [TEXT][..0] == [];
    assert NextPage(mem.heaps[pid]) == (TEXT, Heap(HEAP_BOTTOM, [], {}));
    assert mem.heaps[pid := Heap(HEAP_BOTTOM, [], {})] == Memory(1, [], Zeroes(), {}, pt, [], []).heaps;
    assert Holding(pid)[pid := User(pid)] == Harts(User(0), User(1));
  }

  /** One of the two frees its code page and gets it back as a page of data. */
  lemma Swap(ms: seq<Machine>, deeds: seq<Deed>, kernel: set<Page>, pt: map<Slot, Pte>, code: map<Slot, Page>, pid: Pid)
    returns (ms': seq<Machine>, deeds': seq<Deed>)
    requires pid < 2 && Slot(pid, TEXT) in code && code[Slot(pid, TEXT)] == 0 && kernel <= {0}
    requires CodeRun(ms, deeds) && Slot(pid, TEXT) !in pt
    requires ms[|deeds|] == Machine(System(Memory(1, [], Zeroes(), kernel, pt, [], []), Harts(User(0), User(1))), code)
    ensures CodeRun(ms', deeds')
    ensures ms'[|deeds'|] ==
      Machine(System(Memory(1, [], Zeroes(), {}, pt[Slot(pid, TEXT) := Fresh(0)], [], []), Harts(User(0), User(1))),
              code - {Slot(pid, TEXT)})
  {
    FreeStep(kernel, pt, code, pid);
    AllocStep(pt, code - {Slot(pid, TEXT)}, pid);
    MapStep(pt, code - {Slot(pid, TEXT)}, pid);
    assert kernel - {0} == {};
    ms', deeds' := Grow(ms, deeds, pid, FreeCode(TEXT, Zeroes()), Do(ms[|deeds|], pid, FreeCode(TEXT, Zeroes())));
    ms', deeds' := Grow(ms', deeds', pid, Plain(SysAlloc), Do(ms'[|deeds'|], pid, Plain(SysAlloc)));
    ms', deeds' := Grow(ms', deeds', pid, Plain(Proceed(Zeroes())), Do(ms'[|deeds'|], pid, Plain(Proceed(Zeroes()))));
  }

  /**
   A run: process 1 frees its code page and gets it back as data; then process 0 frees the same page, although
   process 1 has its data there, and gets it too.  A store by process 0 changes what process 1 reads.
   */
  lemma CodeFreedTwice() returns (ms: seq<Machine>, deeds: seq<Deed>)
    ensures CodeRun(ms, deeds) && Can(ms[|deeds|], 0, Plain(Store(TEXT, 0, 7)))
    ensures var m, n := ms[|deeds|].sys.mem, Do(ms[|deeds|], 0, Plain(Store(TEXT, 0, 7))).sys.mem;
      && Visible(m, Slot(1, TEXT)) && Visible(n, Slot(1, TEXT))
      && Abs(m).view[Slot(1, TEXT)][0] == 0 && Abs(n).view[Slot(1, TEXT)][0] == 7
  {
    ms, deeds := Loaded();
    var code := BothMapped().code;
    ms, deeds := Swap(ms, deeds, {0}, map[], code, 1);
    ms, deeds := Swap(ms, deeds, {}, map[Slot(1, TEXT) := Fresh(0)], code - {Slot(1, TEXT)}, 0);
  }
}
