/**
 The spinlock of kernel/riscv.h and the critical sections of kernel/pmm.c, interleaved over any
 number of harts one memory access at a time: a failed or successful amoswap, each read and write of
 the list head, of a link stored in a free page and of a count, and the releasing swap.

 `abs` is bookkeeping: the allocator as a value (module PmmSpec), changed by one atomic operation at
 the step where the critical section takes effect.  The theorems tie it to the memory.
 */
module PmmLock {
  import opened PmmSpec

  type Hart = nat

  datatype Ptr = Null | At(page: Page)

  datatype Op = OpAlloc | OpFree(page: Page) | OpInc(page: Page) | OpGet(page: Page)

  datatype Pc =
    | Out
    | Spin(op: Op)          // amoswap has not yet returned SPIN_LOCK_FREE
    | Enter(op: Op)         // holds the lock, nothing done
    | AllocRead(n: Ptr)     // n = g_free_mem_list.next
    | AllocMoved(p: Page)   // g_free_mem_list.next = n->next
    | FreeLowered(p: Page)  // page_ref_count[idx]-- done
    | FreeLinked(p: Page)   // n->next = g_free_mem_list.next
    | Leave(op: Op, got: Ptr, ref: nat)

  /** `refs` are the references the clients hold; a client may overwrite the first word of a page it holds. */
  datatype State = State(
    lock: bool, head: Ptr, link: seq<Ptr>, count: seq<nat>,
    refs: multiset<Page>, harts: map<Hart, Pc>, abs: Pmm)

  datatype Action = Call(op: Op) | Swap | Work | Unlock | Scribble(page: Page, word: Ptr)

  predicate InSection(pc: Pc) {
    !pc.Out? && !pc.Spin?
  }

  predicate CanCall(s: State, op: Op) {
    op.OpAlloc? || op.page in s.refs
  }

  predicate CanWork(s: State, pc: Pc) {
    match pc
    case Enter(op) => op.OpAlloc? ||
      (op.page < |s.count| && op.page < |s.abs.count| && (op.OpInc? ==> s.count[op.page] < COUNT_LIMIT - 1))
    case AllocRead(n) => n.At? ==> n.page < |s.link|
    case AllocMoved(n) => n < |s.count| && s.abs.free != [] && s.abs.free[0] < |s.abs.count|
    case FreeLowered(p) => p < |s.count| && p < |s.link|
    case FreeLinked(p) => true
    case _ => false
  }

  predicate Enabled(s: State, h: Hart, a: Action) {
    && h in s.harts
    && match a
       case Call(op) => s.harts[h].Out? && CanCall(s, op)
       case Swap => s.harts[h].Spin?
       case Work => CanWork(s, s.harts[h])
       case Unlock => s.harts[h].Leave?
       case Scribble(p, _) => p in s.refs && p < |s.link|
  }

  function Goto(s: State, h: Hart, pc: Pc): State {
    s.(harts := s.harts[h := pc])
  }

  function DoWork(s: State, h: Hart, pc: Pc): State
    requires CanWork(s, pc)
  {
    match pc
    case Enter(OpAlloc) => Goto(s, h, AllocRead(s.head))
    case Enter(OpFree(p)) =>
      Goto(s.(count := s.count[p := Lowered(s.count[p])], abs := Release(s.abs, p)), h, FreeLowered(p))
    case Enter(OpInc(p)) =>
      Goto(s.(count := s.count[p := (s.count[p] + 1) % COUNT_LIMIT], abs := Retain(s.abs, p)), h,
           Leave(OpInc(p), Null, 0))
    case Enter(OpGet(p)) => Goto(s, h, Leave(OpGet(p), Null, s.count[p]))
    case AllocRead(n) =>
      if n.Null? then Goto(s, h, Leave(OpAlloc, Null, 0))
      else Goto(s.(head := s.link[n.page]), h, AllocMoved(n.page))
    case AllocMoved(n) => Goto(s.(count := s.count[n := 1], abs := Take(s.abs)), h, Leave(OpAlloc, At(n), 0))
    case FreeLowered(p) =>
      if s.count[p] == 0 then Goto(s.(link := s.link[p := s.head]), h, FreeLinked(p))
      else Goto(s, h, Leave(OpFree(p), Null, 0))
    case FreeLinked(p) => Goto(s.(head := At(p)), h, Leave(OpFree(p), Null, 0))
  }

  /** The references a call takes from its client, and those it gives back on return. */
  function Taken(op: Op): multiset<Page> {
    if op.OpAlloc? then multiset{} else multiset{op.page}
  }

  function Returned(op: Op, got: Ptr): multiset<Page> {
    match op
    case OpAlloc => if got.At? then multiset{got.page} else multiset{}
    case OpFree(_) => multiset{}
    case OpInc(p) => multiset{p, p}
    case OpGet(p) => multiset{p}
  }

  function Apply(s: State, h: Hart, a: Action): State
    requires Enabled(s, h, a)
  {
    match a
    case Call(op) => Goto(s.(refs := s.refs - Taken(op)), h, Spin(op))
    case Swap => if s.lock then s else Goto(s.(lock := true), h, Enter(s.harts[h].op))
    case Work => DoWork(s, h, s.harts[h])
    case Unlock =>
      Goto(s.(lock := false, refs := s.refs + Returned(s.harts[h].op, s.harts[h].got)), h, Out)
    case Scribble(p, word) => s.(link := s.link[p := word])
  }

  /** Following the links from `head` visits `free` and ends. */
  predicate Chain(head: Ptr, link: seq<Ptr>, free: seq<Page>)
    decreases |free|
  {
    if free == [] then head == Null
    else head == At(free[0]) && free[0] < |link| && Chain(link[free[0]], link, free[1..])
  }

  ghost predicate Init(s: State) {
    && !s.lock && s.count == s.abs.count && |s.link| == |s.count|
    && Chain(s.head, s.link, s.abs.free) && Consistent(s.abs)
    && (forall p: nat :: p < |s.count| ==> s.count[p] == 0)
    && s.refs == multiset{} && forall h :: h in s.harts ==> s.harts[h].Out?
  }

  datatype Move = Move(hart: Hart, action: Action)

  ghost predicate Run(states: seq<State>, moves: seq<Move>) {
    && |states| == |moves| + 1 && Init(states[0])
    && forall i :: 0 <= i < |moves| ==>
         Enabled(states[i], moves[i].hart, moves[i].action)
         && states[i + 1] == Apply(states[i], moves[i].hart, moves[i].action)
  }

  // ---------------------------------------------------------------- the invariant

  /** How many references to p a call in progress stands for. */
  function Weight(pc: Pc, p: Page): (w: nat)
    ensures w <= 2
  {
    match pc
    case Spin(op) => if op.OpAlloc? || op.page != p then 0 else 1
    case Enter(op) => if op.OpAlloc? || op.page != p then 0 else 1
    case Leave(OpAlloc, got, _) => if got == At(p) then 1 else 0
    case Leave(OpInc(q), _, _) => if q == p then 2 else 0
    case Leave(OpGet(q), _, _) => if q == p then 1 else 0
    case _ => 0
  }

  ghost function Holders(harts: map<Hart, Pc>, p: Page, k: nat): set<Hart> {
    set h | h in harts && Weight(harts[h], p) >= k
  }

  ghost predicate Counted(s: State) {
    forall p: nat :: p < |s.abs.count| ==>
      s.abs.count[p] == s.refs[p] + |Holders(s.harts, p, 1)| + |Holders(s.harts, p, 2)|
  }

  ghost predicate Exclusion(s: State) {
    && (forall g, h :: g in s.harts && h in s.harts && InSection(s.harts[g]) && InSection(s.harts[h]) ==> g == h)
    && (s.lock <==> exists h :: h in s.harts && InSection(s.harts[h]))
  }

  /** What the memory holds while a hart is at `pc` inside the section. */
  predicate SectionInv(s: State, pc: Pc) {
    match pc
    case AllocRead(n) => n == s.head && Chain(s.head, s.link, s.abs.free)
    case AllocMoved(n) => s.abs.free != [] && s.abs.free[0] == n && Chain(s.head, s.link, s.abs.free[1..])
    case FreeLowered(p) =>
      p < |s.count| &&
      (if s.count[p] == 0 then s.abs.free != [] && s.abs.free[0] == p && Chain(s.head, s.link, s.abs.free[1..])
       else Chain(s.head, s.link, s.abs.free))
    case FreeLinked(p) =>
      s.abs.free != [] && s.abs.free[0] == p && p < |s.link| && s.link[p] == s.head &&
        Chain(s.head, s.link, s.abs.free[1..])
    case _ => Chain(s.head, s.link, s.abs.free)
  }

  predicate PagesKnown(pc: Pc, n: nat) {
    match pc
    case Spin(op) => op.OpAlloc? || op.page < n
    case Enter(op) => op.OpAlloc? || op.page < n
    case Leave(op, got, _) => (op.OpAlloc? || op.page < n) && (got.At? ==> got.page < n)
    case AllocMoved(m) => m < n
    case FreeLowered(p) => p < n
    case FreeLinked(p) => p < n
    case _ => true
  }

  ghost predicate Inv(s: State) {
    && s.count == s.abs.count && |s.link| == |s.count| && Consistent(s.abs)
    && (forall p :: p in s.refs ==> p < |s.count|)
    && (forall h :: h in s.harts ==> PagesKnown(s.harts[h], |s.count|))
    && Exclusion(s) && Counted(s)
    && (!s.lock ==> Chain(s.head, s.link, s.abs.free))
    && (forall h :: h in s.harts && InSection(s.harts[h]) ==> SectionInv(s, s.harts[h]))
  }

  /** The list as create_freepage_list threads it through the pages it frees. */
  function BootState(n: nat, harts: set<Hart>): State {
    State(false, if n == 0 then Null else At(n - 1), seq(n, p => if p <= 0 then Null else At(p - 1)), seq(n, _ => 0),
      multiset{}, map h | h in harts :: Out, Built(n, n))
  }

  /** The allocator built at boot, on the pages that went on the list, is an initial state of this machine. */
  lemma BootIsInit(n: nat, harts: set<Hart>)
    ensures Init(BootState(n, harts))
  {
    BuiltConsistentIff(n, n);
    BootChain(BootState(n, harts).link, n);
  }

  lemma {:induction false} BootChain(link: seq<Ptr>, n: nat)
    requires n <= |link| && forall p :: 0 <= p < |link| ==> link[p] == if p == 0 then Null else At(p - 1)
    ensures Chain(if n == 0 then Null else At(n - 1), link, Down(n))
  {
    if n > 0 {
      BootChain(link, n - 1);
      assert Down(n)[1..] == Down(n - 1);
    }
  }

  lemma InitInv(s: State)
    requires Init(s)
    ensures Inv(s)
  {
    forall p: nat | p < |s.count|
      ensures |Holders(s.harts, p, 1)| == 0 && |Holders(s.harts, p, 2)| == 0
    {
      assert Holders(s.harts, p, 1) == {} && Holders(s.harts, p, 2) == {};
    }
  }

  // ---------------------------------------------------------------- counting and chains

  lemma HoldersAt(harts: map<Hart, Pc>, h: Hart, pc: Pc, p: Page, k: nat)
    ensures Holders(harts[h := pc], p, k) == if Weight(pc, p) >= k then Holders(harts, p, k) + {h}
      else Holders(harts, p, k) - {h}
  {
  }

  /** Moving one hart changes the sum of weights by the difference of its weights. */
  lemma WeightMoves(harts: map<Hart, Pc>, h: Hart, pc: Pc, p: Page)
    requires h in harts
    ensures |Holders(harts[h := pc], p, 1)| + |Holders(harts[h := pc], p, 2)| + Weight(harts[h], p)
         == |Holders(harts, p, 1)| + |Holders(harts, p, 2)| + Weight(pc, p)
  {
    HoldersAt(harts, h, pc, p, 1);
    HoldersAt(harts, h, pc, p, 2);
    assert h in Holders(harts, p, 1) <==> Weight(harts[h], p) >= 1;
    assert h in Holders(harts, p, 2) <==> Weight(harts[h], p) >= 2;
  }

  /** Writing the link word of a page off the list leaves the list alone. */
  lemma {:induction false} ChainFrame(head: Ptr, link: seq<Ptr>, free: seq<Page>, p: Page, word: Ptr)
    requires Chain(head, link, free) && p < |link| && p !in free
    ensures Chain(head, link[p := word], free)
    decreases |free|
  {
    if free != [] {
      ChainFrame(link[free[0]], link, free[1..], p, word);
    }
  }

  lemma CountedAfter(s: State, t: State, h: Hart, pc: Pc)
    requires Counted(s) && s.count == s.abs.count && t.count == t.abs.count && |t.count| == |s.count|
    requires h in s.harts && t.harts == s.harts[h := pc]
    requires forall p: nat :: p < |s.count| ==>
      t.abs.count[p] + s.refs[p] + Weight(s.harts[h], p) == s.abs.count[p] + t.refs[p] + Weight(pc, p)
    ensures Counted(t)
  {
    forall p: nat | p < |t.count|
      ensures t.abs.count[p] == t.refs[p] + |Holders(t.harts, p, 1)| + |Holders(t.harts, p, 2)|
    {
      WeightMoves(s.harts, h, pc, p);
    }
  }

  lemma TakenRefs(refs: multiset<Page>, op: Op, p: Page)
    requires op.OpAlloc? || op.page in refs
    ensures (refs - Taken(op))[p] + Weight(Spin(op), p) == refs[p]
  {
  }

  lemma CallInv(s: State, h: Hart, op: Op)
    requires Inv(s) && Enabled(s, h, Call(op))
    ensures Inv(Apply(s, h, Call(op)))
  {
    var t := Apply(s, h, Call(op));
    CallCounted(s, h, op);
    ExclusionMoves(s, h, Spin(op), s.lock);
    SectionOnlyMemory(s, t, h);
  }

  lemma CallCounted(s: State, h: Hart, op: Op)
    requires Inv(s) && Enabled(s, h, Call(op))
    ensures Counted(Apply(s, h, Call(op)))
    ensures forall p: nat :: p in Apply(s, h, Call(op)).refs ==> p < |s.count|
  {
    var t := Apply(s, h, Call(op));
    forall p: nat
      ensures t.refs[p] + Weight(Spin(op), p) == s.refs[p] && (p in t.refs ==> p in s.refs)
    {
      TakenRefs(s.refs, op, p);
    }
    CountedAfter(s, t, h, Spin(op));
  }

  lemma SectionOnlyMemory(s: State, t: State, h: Hart)
    requires h in s.harts && h in t.harts && t.harts == s.harts[h := t.harts[h]] && !InSection(t.harts[h])
    requires t.head == s.head && t.link == s.link && t.count == s.count && t.abs == s.abs
    requires forall g :: g in s.harts && InSection(s.harts[g]) ==> SectionInv(s, s.harts[g])
    ensures forall g :: g in t.harts && InSection(t.harts[g]) ==> SectionInv(t, t.harts[g])
  {
    forall g | g in t.harts && InSection(t.harts[g])
      ensures SectionInv(t, t.harts[g])
    {
      assert g != h && SectionInv(s, s.harts[g]);
    }
  }

  lemma ExclusionMoves(s: State, h: Hart, pc: Pc, lock: bool)
    requires Exclusion(s) && h in s.harts
    requires InSection(pc) && !InSection(s.harts[h]) ==> !s.lock
    requires lock == if InSection(pc) != InSection(s.harts[h]) then InSection(pc) else s.lock
    ensures Exclusion(s.(harts := s.harts[h := pc], lock := lock))
  {
    var harts := s.harts[h := pc];
    if lock {
      if InSection(pc) {
        assert h in harts && InSection(harts[h]);
      } else {
        var g :| g in s.harts && InSection(s.harts[g]);
        assert g in harts && InSection(harts[g]);
      }
    }
  }

  lemma SwapInv(s: State, h: Hart)
    requires Inv(s) && Enabled(s, h, Swap)
    ensures Inv(Apply(s, h, Swap))
  {
    if !s.lock {
      var pc := Enter(s.harts[h].op);
      CountedAfter(s, Apply(s, h, Swap), h, pc);
      ExclusionMoves(s, h, pc, true);
    }
  }

  lemma UnlockInv(s: State, h: Hart)
    requires Inv(s) && Enabled(s, h, Unlock)
    ensures Inv(Apply(s, h, Unlock))
  {
    CountedAfter(s, Apply(s, h, Unlock), h, Out);
    ExclusionMoves(s, h, Out, false);
    assert InSection(s.harts[h]);
  }

  /** A page some client holds is on nobody's list. */
  lemma ScribbleInv(s: State, h: Hart, p: Page, word: Ptr)
    requires Inv(s) && Enabled(s, h, Scribble(p, word))
    ensures Inv(Apply(s, h, Scribble(p, word)))
  {
    assert s.abs.count[p] > 0;
    assert p !in s.abs.free;
    var t := Apply(s, h, Scribble(p, word));
    if !s.lock {
      ChainFrame(s.head, s.link, s.abs.free, p, word);
    }
    forall g | g in s.harts && InSection(s.harts[g])
      ensures SectionInv(t, s.harts[g])
    {
      SectionFrame(s, s.harts[g], p, word);
    }
  }

  lemma SectionFrame(s: State, pc: Pc, p: Page, word: Ptr)
    requires SectionInv(s, pc) && p < |s.link| && p !in s.abs.free
    ensures SectionInv(s.(link := s.link[p := word]), pc)
  {
    if Chain(s.head, s.link, s.abs.free) {
      ChainFrame(s.head, s.link, s.abs.free, p, word);
    }
    if s.abs.free != [] && Chain(s.head, s.link, s.abs.free[1..]) {
      ChainFrame(s.head, s.link, s.abs.free[1..], p, word);
    }
  }

  /** A step inside the section: the other harts are outside it, so only the mover's facts count. */
  lemma WorkStep(s: State, t: State, h: Hart, pc: Pc)
    requires Inv(s) && h in s.harts && InSection(s.harts[h]) && InSection(pc)
    requires t == s.(head := t.head, link := t.link, count := t.count, abs := t.abs, harts := s.harts[h := pc])
    requires t.count == t.abs.count && |t.link| == |t.count| == |s.count| && Consistent(t.abs)
    requires PagesKnown(pc, |s.count|) && SectionInv(t, pc)
    requires forall p: nat :: p < |s.count| ==> t.abs.count[p] + Weight(s.harts[h], p) == s.abs.count[p] + Weight(pc, p)
    ensures Inv(t)
  {
    CountedAfter(s, t, h, pc);
    ExclusionMoves(s, h, pc, s.lock);
  }

  lemma AllocWork(s: State, h: Hart)
    requires Inv(s) && Enabled(s, h, Work) &&
      (s.harts[h] == Enter(OpAlloc) || s.harts[h].AllocRead? || s.harts[h].AllocMoved?)
    ensures Inv(Apply(s, h, Work))
  {
    var t := Apply(s, h, Work);
    assert SectionInv(s, s.harts[h]);
    if s.harts[h].AllocMoved? {
      TakeKeepsConsistent(s.abs);
    } else if s.harts[h].AllocRead? {
      assert s.head.At? ==> s.abs.free != [] && s.head.page == s.abs.free[0];
    }
    WorkStep(s, t, h, t.harts[h]);
  }

  lemma EnterFree(s: State, h: Hart)
    requires Inv(s) && Enabled(s, h, Work) && s.harts[h].Enter? && s.harts[h].op.OpFree?
    ensures Inv(Apply(s, h, Work))
  {
    var t, p := Apply(s, h, Work), s.harts[h].op.page;
    assert SectionInv(s, s.harts[h]);
    WeightCounts(s, h, p);
    ReleaseKeepsConsistentIff(s.abs, p);
    assert ([p] + s.abs.free)[1..] == s.abs.free;
    WorkStep(s, t, h, t.harts[h]);
  }

  lemma WeightCounts(s: State, h: Hart, p: Page)
    requires Inv(s) && h in s.harts && p < |s.count| && Weight(s.harts[h], p) >= 1
    ensures s.abs.count[p] >= 1
  {
    assert h in Holders(s.harts, p, 1);
    assert |Holders(s.harts, p, 1)| >= 1;
  }

  lemma EnterOther(s: State, h: Hart)
    requires Inv(s) && Enabled(s, h, Work) && s.harts[h].Enter? && (s.harts[h].op.OpInc? || s.harts[h].op.OpGet?)
    ensures Inv(Apply(s, h, Work))
  {
    var t, p := Apply(s, h, Work), s.harts[h].op.page;
    assert SectionInv(s, s.harts[h]);
    WeightCounts(s, h, p);
    if s.harts[h].op.OpInc? {
      RetainKeepsConsistentIff(s.abs, p);
    }
    WorkStep(s, t, h, t.harts[h]);
  }

  lemma FreeWork(s: State, h: Hart)
    requires Inv(s) && Enabled(s, h, Work) && (s.harts[h].FreeLowered? || s.harts[h].FreeLinked?)
    ensures Inv(Apply(s, h, Work))
  {
    var t := Apply(s, h, Work);
    assert SectionInv(s, s.harts[h]);
    var p := s.harts[h].p;
    if s.harts[h].FreeLowered? && s.count[p] == 0 {
      DistinctTail(s.abs.free);
      ChainFrame(s.head, s.link, s.abs.free[1..], p, s.head);
    }
    WorkStep(s, t, h, t.harts[h]);
  }

  lemma StepInv(s: State, h: Hart, a: Action)
    requires Inv(s) && Enabled(s, h, a)
    ensures Inv(Apply(s, h, a))
  {
    match a
    case Call(op) => CallInv(s, h, op);
    case Swap => SwapInv(s, h);
    case Unlock => UnlockInv(s, h);
    case Scribble(p, word) => ScribbleInv(s, h, p, word);
    case Work =>
      if s.harts[h].FreeLowered? || s.harts[h].FreeLinked? {
        FreeWork(s, h);
      } else if s.harts[h].AllocRead? || s.harts[h].AllocMoved? || s.harts[h].op.OpAlloc? {
        AllocWork(s, h);
      } else if s.harts[h].op.OpFree? {
        EnterFree(s, h);
      } else {
        EnterOther(s, h);
      }
  }

  // ---------------------------------------------------------------- the theorems

  lemma {:induction false} RunInv(states: seq<State>, moves: seq<Move>, i: nat)
    requires Run(states, moves) && i < |states|
    ensures Inv(states[i])
  {
    if i == 0 {
      InitInv(states[0]);
    } else {
      RunInv(states, moves, i - 1);
      StepInv(states[i - 1], moves[i - 1].hart, moves[i - 1].action);
    }
  }

  /** At most one hart is between a successful amoswap and the releasing one. */
  lemma MutualExclusion(states: seq<State>, moves: seq<Move>, i: nat, g: Hart, h: Hart)
    requires Run(states, moves) && i < |states|
    requires g in states[i].harts && h in states[i].harts && InSection(states[i].harts[g]) &&
      InSection(states[i].harts[h])
    ensures g == h && states[i].lock
  {
    RunInv(states, moves, i);
  }

  /**
   Linearizability: each step either leaves the atomic allocator alone or performs the one operation
   the moving hart is in; whenever the lock is free the memory is that allocator, with every page
   either on the list once or counted.
   */
  lemma RefinesAtomic(states: seq<State>, moves: seq<Move>, i: nat)
    requires Run(states, moves) && i < |moves|
    ensures var s, t, h := states[i], states[i + 1], moves[i].hart;
      || t.abs == s.abs
      || (s.abs.free != [] && s.abs.free[0] < |s.abs.count| && t.abs == Take(s.abs)
          && t.harts[h] == Leave(OpAlloc, At(s.abs.free[0]), 0))
      || (s.harts[h].Enter? && s.harts[h].op.OpFree? && s.harts[h].op.page < |s.abs.count|
          && t.abs == Release(s.abs, s.harts[h].op.page))
      || (s.harts[h].Enter? && s.harts[h].op.OpInc? && s.harts[h].op.page < |s.abs.count|
          && t.abs == Retain(s.abs, s.harts[h].op.page))
    ensures !states[i].lock ==>
      && states[i].count == states[i].abs.count && Chain(states[i].head, states[i].link, states[i].abs.free)
      && Consistent(states[i].abs)
  {
    RunInv(states, moves, i);
    var s, h := states[i], moves[i].hart;
    if moves[i].action.Work? {
      assert InSection(s.harts[h]) ==> SectionInv(s, s.harts[h]);
    }
  }

  /** The page alloc_page returns has no other owner: no client holds it and no other call is about it. */
  lemma FreshPageIsOwnedOnce(states: seq<State>, moves: seq<Move>, i: nat, h: Hart, n: Page)
    requires Run(states, moves) && i < |moves| && moves[i].hart == h && h in states[i].harts
    requires moves[i].action.Work? && states[i].harts[h] == AllocMoved(n)
    ensures var t := states[i + 1];
      && t.harts[h] == Leave(OpAlloc, At(n), 0)
      && n !in t.refs && n < |t.count| && t.count[n] == 1
      && forall g :: g in t.harts && g != h ==> Weight(t.harts[g], n) == 0
  {
    RunInv(states, moves, i);
    RunInv(states, moves, i + 1);
    var s, t := states[i], states[i + 1];
    assert SectionInv(s, s.harts[h]);
    assert h in Holders(t.harts, n, 1);
    assert |Holders(t.harts, n, 1)| >= 1;
    assert |Holders(t.harts, n, 1) - {h}| == |Holders(t.harts, n, 1)| - 1;
    forall g | g in t.harts && g != h
      ensures Weight(t.harts[g], n) == 0
    {
      assert g !in Holders(t.harts, n, 1) - {h};
    }
  }

  /** A null result means the list was empty at the moment the head was read. */
  lemma NullOnlyWhenEmpty(states: seq<State>, moves: seq<Move>, i: nat, h: Hart)
    requires Run(states, moves) && i < |states| && h in states[i].harts && states[i].harts[h] == AllocRead(Null)
    ensures states[i].abs.free == []
    ensures forall p: nat :: p < |states[i].count| ==> states[i].count[p] > 0
  {
    RunInv(states, moves, i);
    assert SectionInv(states[i], states[i].harts[h]);
  }

  // ---------------------------------------------------------------- every call takes effect once

  /** The call a hart is in. */
  function OpOf(pc: Pc): Op
    requires !pc.Out?
  {
    match pc
    case Spin(op) => op
    case Enter(op) => op
    case AllocRead(_) => OpAlloc
    case AllocMoved(_) => OpAlloc
    case FreeLowered(p) => OpFree(p)
    case FreeLinked(p) => OpFree(p)
    case Leave(op, _, _) => op
  }

  predicate Pending(pc: Pc) {
    pc.Spin? || pc.Enter? || pc.AllocRead? || pc.AllocMoved?
  }

  /** What one atomic call does to the allocator, and what the hart that made it takes home. */
  predicate Atomic(op: Op, a: Pmm, b: Pmm, pc: Pc) {
    match op
    case OpAlloc =>
      pc.Leave? && (if a.free == [] then pc.got == Null && b == a
                    else a.free[0] < |a.count| && pc.got == At(a.free[0]) && b == Take(a))
    case OpFree(p) => p < |a.count| && b == Release(a, p)
    case OpInc(p) => p < |a.count| && b == Retain(a, p)
    case OpGet(p) => p < |a.count| && pc.Leave? && pc.ref == a.count[p] && b == a
  }

  /** The step at which a pending call stops being one. */
  predicate Effect(s: State, t: State, h: Hart) {
    h in s.harts && h in t.harts && Pending(s.harts[h]) && !t.harts[h].Out? && !Pending(t.harts[h])
  }

  /** One step of a hart that is in a call and does not return from it. */
  lemma EffectStep(s: State, h: Hart, a: Action)
    requires Inv(s) && Enabled(s, h, a) && !a.Unlock? && !s.harts[h].Out?
    ensures var t := Apply(s, h, a);
      && h in t.harts && !t.harts[h].Out? && OpOf(t.harts[h]) == OpOf(s.harts[h])
      && (Effect(s, t, h) ==> Atomic(OpOf(s.harts[h]), s.abs, t.abs, t.harts[h]))
      && (!Effect(s, t, h) ==> t.abs == s.abs && (Pending(t.harts[h]) <==> Pending(s.harts[h])))
      && (s.harts[h].Leave? ==> t.harts[h] == s.harts[h])
  {
    if a.Work? {
      assert SectionInv(s, s.harts[h]);
    }
  }

  /** Hart h entered the call at move i and has not returned by state m. */
  ghost predicate InCall(states: seq<State>, moves: seq<Move>, h: Hart, op: Op, i: nat, m: nat) {
    && Run(states, moves) && i < m < |states| && moves[i] == Move(h, Call(op))
    && forall l :: i < l < m ==> moves[l] != Move(h, Unlock)
  }

  ghost predicate EffectAt(states: seq<State>, moves: seq<Move>, h: Hart, k: nat)
    requires |states| == |moves| + 1 && k < |moves|
  {
    moves[k].hart == h && Effect(states[k], states[k + 1], h)
  }

  ghost predicate Tracked(states: seq<State>, moves: seq<Move>, h: Hart, op: Op, i: nat, m: nat, k: int)
    requires |states| == |moves| + 1 && i < m < |states|
  {
    && h in states[m].harts && !states[m].harts[h].Out? && OpOf(states[m].harts[h]) == op
    && (forall l :: i < l < m && EffectAt(states, moves, h, l) ==> l == k)
    && if Pending(states[m].harts[h]) then k == -1 else
         && i < k < m && EffectAt(states, moves, h, k)
         && Atomic(op, states[k].abs, states[k + 1].abs, states[m].harts[h])
  }

  lemma {:induction false} Track(states: seq<State>, moves: seq<Move>, h: Hart, op: Op, i: nat, m: nat) returns (k: int)
    requires InCall(states, moves, h, op, i, m)
    ensures Tracked(states, moves, h, op, i, m, k)
    decreases m
  {
    if m == i + 1 {
      k := -1;
    } else {
      k := Track(states, moves, h, op, i, m - 1);
      RunInv(states, moves, m - 1);
      k := TrackOn(states, moves, h, op, i, m - 1, k);
    }
  }

  lemma OtherStep(s: State, g: Hart, a: Action, h: Hart)
    requires Enabled(s, g, a) && h in s.harts && g != h
    ensures h in Apply(s, g, a).harts && Apply(s, g, a).harts[h] == s.harts[h]
  {
  }

  lemma TrackOn(states: seq<State>, moves: seq<Move>, h: Hart, op: Op, i: nat, m: nat, k: int) returns (k': int)
    requires |states| == |moves| + 1 && i < m < |moves| && Tracked(states, moves, h, op, i, m, k) && Inv(states[m])
    requires Enabled(states[m], moves[m].hart, moves[m].action)
    requires states[m + 1] == Apply(states[m], moves[m].hart, moves[m].action) && moves[m] != Move(h, Unlock)
    ensures Tracked(states, moves, h, op, i, m + 1, k')
  {
    k' := k;
    if moves[m].hart != h {
      OtherStep(states[m], moves[m].hart, moves[m].action, h);
      assert !EffectAt(states, moves, h, m);
    } else {
      EffectStep(states[m], h, moves[m].action);
      if Effect(states[m], states[m + 1], h) {
        k' := m;
      }
      TrackOwn(states, moves, h, op, i, m, k, k', states[m], states[m + 1]);
    }
  }

  lemma TrackOwn(states: seq<State>, moves: seq<Move>, h: Hart, op: Op, i: nat, m: nat, k: int, k': int, s: State,
                 t: State)
    requires |states| == |moves| + 1 && i < m < |moves| && Tracked(states, moves, h, op, i, m, k)
    requires s == states[m] && t == states[m + 1] && moves[m].hart == h && k' == if Effect(s, t, h) then m else k
    requires h in t.harts && !t.harts[h].Out? && OpOf(t.harts[h]) == op
    requires Effect(s, t, h) ==> Atomic(op, s.abs, t.abs, t.harts[h])
    requires !Effect(s, t, h) ==> (Pending(t.harts[h]) <==> Pending(s.harts[h]))
    requires s.harts[h].Leave? ==> t.harts[h] == s.harts[h]
    ensures Tracked(states, moves, h, op, i, m + 1, k')
  {
    if !Pending(s.harts[h]) {
      AtomicKept(op, states[k].abs, states[k + 1].abs, s.harts[h], t.harts[h]);
    }
  }

  lemma AtomicKept(op: Op, a: Pmm, b: Pmm, pc: Pc, pc': Pc)
    requires Atomic(op, a, b, pc) && (pc.Leave? ==> pc' == pc)
    ensures Atomic(op, a, b, pc')
  {
  }

  /**
   Between entering a call and returning from it a hart changes the atomic allocator at exactly one of its steps, by
   exactly the operation it called, and what it returns with is that operation's answer: the page taken, null for an
   empty list, or the count at that moment.
   */
  lemma CallTakesEffectOnce(states: seq<State>, moves: seq<Move>, h: Hart, op: Op, i: nat, j: nat) returns (k: nat)
    requires InCall(states, moves, h, op, i, j) && j < |moves| && moves[j] == Move(h, Unlock)
    ensures i < k < j && moves[k].hart == h && h in states[j].harts
    ensures Atomic(op, states[k].abs, states[k + 1].abs, states[j].harts[h])
    ensures forall l :: i <= l <= j && l != k && moves[l].hart == h ==> states[l + 1].abs == states[l].abs
  {
    var t := Track(states, moves, h, op, i, j);
    assert states[j].harts[h].Leave?;
    k := t;
    forall l | i <= l <= j && l != k && moves[l].hart == h
      ensures states[l + 1].abs == states[l].abs
    {
      if i < l < j {
        var u := Track(states, moves, h, op, i, l);
        RunInv(states, moves, l);
        EffectStep(states[l], h, moves[l].action);
        assert !EffectAt(states, moves, h, l);
      }
    }
  }
}
