/**
 What a process gets from the kernel: every store fault and every system call ends after a bounded number of the hart's
 own steps, whatever other harts do, and then the store is possible, the page is there or gone, the child is born.
 */
module CowProgress {
  import opened PmmSpec
  import opened Cow
  import opened CowInvariant
  import opened CowSteps

  // ---------------------------------------------------------------- how far a call has come

  predicate Serves(phase: Phase, vpn: Vpn) {
    match phase
    case Fault(v, _) => v == vpn
    case Shared(v, _) => v == vpn
    case Sole(v, _) => v == vpn
    case Copying(v, _, _, _) => v == vpn
    case Dropping(v, _) => v == vpn
    case Demand(v) => v == vpn
    case DemandHeld(v, _) => v == vpn
    case _ => false
  }

  predicate Births(phase: Phase, child: Pid) {
    match phase
    case ForkLook(c, _) => c == child
    case ForkProtect(c, _, _) => c == child
    case ForkCount(c, _, _) => c == child
    case _ => false
  }

  /** Two moments of one and the same call. */
  predicate SameCall(a: Phase, b: Phase) {
    match a
    case AllocHeld(_) => b == a
    case Clearing(_) => b == a
    case ForkLook(child, _) => Births(b, child)
    case ForkProtect(child, _, _) => Births(b, child)
    case ForkCount(child, _, _) => Births(b, child)
    case _ => Serves(b, a.vpn)
  }

  /** The steps of its own that a hart has still to take. */
  function Left(m: Mem, pid: Pid, phase: Phase): int {
    var top := if pid in m.heaps then m.heaps[pid].top else 0;
    match phase
    case Fault(_, _) => PGSIZE + 4
    case Shared(_, _) => PGSIZE + 3
    case Copying(_, _, _, done) => PGSIZE - done + 2
    case Sole(_, _) => 1
    case Dropping(_, _) => 1
    case Demand(_) => 2
    case DemandHeld(_, _) => 1
    case AllocHeld(_) => 1
    case Clearing(_) => 1
    case ForkLook(_, v) => 3 * (top - v) + 1
    case ForkProtect(_, v, _) => 3 * (top - v)
    case ForkCount(_, v, _) => 3 * (top - v) - 1
  }

  /** A store to any byte of the page goes through. */
  ghost predicate CanStore(s: System, h: Hart, vpn: Vpn) {
    forall off: nat, val: int {:trigger Store(vpn, off, val)} :: off < PGSIZE ==> Enabled(s, h, Store(vpn, off, val))
  }

  /** What the end of a call has brought about. */
  ghost predicate Answered(s: System, h: Hart, pid: Pid, phase: Phase) {
    && h in s.harts
    && match phase
       case AllocHeld(_) => s.harts[h] == User(pid) || (s.harts[h].Idle? && pid in s.mem.dead)
       case Clearing(vpn) => s.harts[h] == User(pid) && Slot(pid, vpn) !in s.mem.pt
       case ForkLook(child, _) => s.harts[h] == User(pid) && child in s.mem.heaps
       case ForkProtect(child, _, _) => s.harts[h] == User(pid) && child in s.mem.heaps
       case ForkCount(child, _, _) => s.harts[h] == User(pid) && child in s.mem.heaps
       case _ => s.harts[h] == User(pid) && CanStore(s, h, phase.vpn)
  }

  // ---------------------------------------------------------------- one step

  /** A call can go on unless it needs a page and there is none. */
  lemma GoesOnIff(s: System, h: Hart, junk: Frame)
    requires Inv(s) && h in s.harts && s.harts[h].Busy?
    ensures Enabled(s, h, Proceed(junk)) <==>
      (s.harts[h].phase.Shared? || s.harts[h].phase.Demand? ==> s.mem.pm.free != [])
  {
    assert HartInv(s.mem, s.harts[h]);
    if s.mem.pm.free != [] {
      assert s.mem.pm.free[0] in s.mem.pm.free;
    }
  }

  /** A process in user mode can store to every page below heap_top, or faults and is served. */
  lemma StoreOrFault(s: System, h: Hart, vpn: Vpn, off: nat, val: int)
    requires Inv(s) && h in s.harts && s.harts[h].User? && off < PGSIZE && BelowTop(s.mem.heaps[s.harts[h].pid], vpn)
    ensures Enabled(s, h, Store(vpn, off, val)) <==> !Enabled(s, h, TrapStore(vpn))
  {
  }

  predicate IsFault(phase: Phase) {
    !phase.AllocHeld? && !phase.Clearing? && !phase.ForkLook? && !phase.ForkProtect? && !phase.ForkCount?
  }

  /** The phase after one step is further on, or the call is over. */
  lemma Further(m: Mem, pid: Pid, phase: Phase, junk: Frame)
    requires PhaseInv(m, pid, phase) && CanProceed(m, pid, phase)
    ensures var (n, st) := Advance(m, pid, phase, junk);
      && Left(m, pid, phase) > 0
      && (st.Busy? ==>
            && st.pid == pid && SameCall(phase, st.phase)
            && 0 < Left(n, pid, st.phase) < Left(m, pid, phase))
  {
  }

  lemma FaultServed(m: Mem, pid: Pid, phase: Phase, junk: Frame)
    requires Shape(m) && PhaseInv(m, pid, phase) && CanProceed(m, pid, phase) && IsFault(phase)
    ensures var (n, st) := Advance(m, pid, phase, junk);
      !st.Busy? ==> st == User(pid) && Slot(pid, phase.vpn) in n.pt && n.pt[Slot(pid, phase.vpn)].w
  {
  }

  lemma OwnStep(s: System, h: Hart, junk: Frame)
    requires Inv(s) && Enabled(s, h, Proceed(junk))
    ensures var st, t := s.harts[h], Apply(s, h, Proceed(junk));
      if t.harts[h].Busy? then
        && t.harts[h].pid == st.pid && SameCall(st.phase, t.harts[h].phase)
        && 0 < Left(t.mem, st.pid, t.harts[h].phase) < Left(s.mem, st.pid, st.phase)
      else Answered(t, h, st.pid, st.phase) && Left(s.mem, st.pid, st.phase) > 0
  {
    var st := s.harts[h];
    assert HartInv(s.mem, st);
    Further(s.mem, st.pid, st.phase, junk);
    if IsFault(st.phase) {
      FaultServed(s.mem, st.pid, st.phase, junk);
      StepInv(s, h, Proceed(junk));
      StoreNow(Apply(s, h, Proceed(junk)), h, st.phase.vpn);
    }
  }

  lemma StoreNow(s: System, h: Hart, vpn: Vpn)
    requires Inv(s) && h in s.harts
    ensures s.harts[h].User? && Slot(s.harts[h].pid, vpn) in s.mem.pt && s.mem.pt[Slot(s.harts[h].pid, vpn)].w ==>
      CanStore(s, h, vpn)
  {
  }

  lemma OtherStep(s: System, g: Hart, a: Action, h: Hart)
    requires Inv(s) && Enabled(s, g, a) && h in s.harts && s.harts[h].Busy? && !(g == h && a.Proceed?)
    ensures var t := Apply(s, g, a);
      && h in t.harts && t.harts[h] == s.harts[h]
      && Left(t.mem, s.harts[h].pid, s.harts[h].phase) == Left(s.mem, s.harts[h].pid, s.harts[h].phase)
  {
    assert HartInv(s.mem, s.harts[h]);
    if g != h {
      assert Apart(s.harts[g], s.harts[h]) && HartInv(s.mem, s.harts[g]);
    }
  }

  // ---------------------------------------------------------------- whole calls

  /** The steps of its own that hart h takes in a call. */
  function Own(moves: seq<Move>, h: Hart): nat {
    if moves == [] then 0
    else
      var last := moves[|moves| - 1];
      Own(moves[..|moves| - 1], h) + if last.hart == h && last.action.Proceed? then 1 else 0
  }

  /** The call that hart h is in at i is over at k. */
  ghost predicate EndsAt(states: seq<System>, moves: seq<Move>, i: nat, k: nat, h: Hart) {
    && i < k < |states| && h in states[i].harts && states[i].harts[h].Busy?
    && Answered(states[k], h, states[i].harts[h].pid, states[i].harts[h].phase)
  }

  /** The call goes on at j, and fewer steps are left. */
  ghost predicate GoesOn(states: seq<System>, moves: seq<Move>, i: nat, j: nat, h: Hart) {
    && i <= j < |states| && j <= |moves| && h in states[i].harts && states[i].harts[h].Busy?
    && h in states[j].harts && states[j].harts[h].Busy? && states[j].harts[h].pid == states[i].harts[h].pid
    && SameCall(states[i].harts[h].phase, states[j].harts[h].phase)
    && var pid := states[i].harts[h].pid;
       0 < Left(states[j].mem, pid, states[j].harts[h].phase) <=
         Left(states[i].mem, pid, states[i].harts[h].phase) - Own(moves[i..j], h)
  }

  lemma SameCallTrans(a: Phase, b: Phase, c: Phase)
    requires SameCall(a, b) && SameCall(b, c)
    ensures SameCall(a, c)
  {
  }

  lemma AnsweredSame(s: System, h: Hart, pid: Pid, a: Phase, b: Phase)
    requires SameCall(a, b) && Answered(s, h, pid, b)
    ensures Answered(s, h, pid, a)
  {
  }

  lemma OwnMore(moves: seq<Move>, i: nat, j: nat, h: Hart)
    requires i <= j < |moves|
    ensures Own(moves[i..j + 1], h) ==
      Own(moves[i..j], h) + if moves[j].hart == h && moves[j].action.Proceed? then 1 else 0
  {
    assert moves[i..j + 1][..j - i] == moves[i..j] && moves[i..j + 1][j - i] == moves[j];
  }

  datatype Standing = Over | Underway | Neither

  /** How the call that hart h is in at i stands at j. */
  ghost function StandsAt(states: seq<System>, moves: seq<Move>, i: nat, j: nat, h: Hart): Standing {
    if EndsAt(states, moves, i, j, h) then Over else if GoesOn(states, moves, i, j, h) then Underway else Neither
  }

  lemma OneMore(states: seq<System>, moves: seq<Move>, i: nat, n: nat, j: nat, h: Hart)
    requires Run(states, moves) && n < |moves| && j == n + 1 && StandsAt(states, moves, i, n, h) == Underway
    ensures StandsAt(states, moves, i, j, h) != Neither
  {
    RunInv(states, moves, n);
    OwnMore(moves, i, n, h);
    var m, a, b := moves[n], states[i].harts[h].phase, states[n].harts[h].phase;
    if m.hart == h && m.action.Proceed? {
      OwnStep(states[n], h, m.action.junk);
      if states[j].harts[h].Busy? {
        SameCallTrans(a, b, states[j].harts[h].phase);
      } else {
        AnsweredSame(states[j], h, states[i].harts[h].pid, a, b);
      }
    } else {
      OtherStep(states[n], m.hart, m.action, h);
    }
  }

  lemma Begun(states: seq<System>, moves: seq<Move>, i: nat, h: Hart)
    requires Run(states, moves) && i <= |moves| && h in states[i].harts && states[i].harts[h].Busy?
    ensures StandsAt(states, moves, i, i, h) == Underway
  {
    RunInv(states, moves, i);
    assert HartInv(states[i].mem, states[i].harts[h]);
    SomeLeft(states[i].mem, states[i].harts[h].pid, states[i].harts[h].phase);
    assert moves[i..i] == [];
  }

  lemma {:induction false} EndsOrGoesOn(states: seq<System>, moves: seq<Move>, i: nat, j: nat, h: Hart)
    returns (k: nat)
    requires Run(states, moves) && i <= j <= |moves| && h in states[i].harts && states[i].harts[h].Busy?
    ensures k <= j && (StandsAt(states, moves, i, k, h) == Over || StandsAt(states, moves, i, j, h) == Underway)
    decreases j - i
  {
    k := j;
    if i == j {
      Begun(states, moves, i, h);
    } else {
      var n := j - 1;
      k := EndsOrGoesOn(states, moves, i, n, h);
      if StandsAt(states, moves, i, k, h) != Over {
        OneMore(states, moves, i, n, j, h);
        k := j;
      }
    }
  }

  lemma SomeLeft(m: Mem, pid: Pid, phase: Phase)
    requires PhaseInv(m, pid, phase)
    ensures Left(m, pid, phase) > 0 && SameCall(phase, phase)
  {
  }

  /**
   In every run, a hart inside the kernel is through with its call once it has taken as many steps of its own as were
   left, whatever the other harts did in between.
   */
  lemma CallEnds(states: seq<System>, moves: seq<Move>, i: nat, j: nat, h: Hart) returns (k: nat)
    requires Run(states, moves) && i <= j <= |moves| && h in states[i].harts && states[i].harts[h].Busy?
    requires Own(moves[i..j], h) >= Left(states[i].mem, states[i].harts[h].pid, states[i].harts[h].phase)
    ensures k <= j && EndsAt(states, moves, i, k, h)
  {
    k := EndsOrGoesOn(states, moves, i, j, h);
  }

  /** A store fault is served after at most PGSIZE + 4 steps of the hart: then the store goes through. */
  lemma FaultEnds(states: seq<System>, moves: seq<Move>, i: nat, j: nat, h: Hart, vpn: Vpn) returns (k: nat)
    requires Run(states, moves) && i < j <= |moves| && moves[i] == Move(h, TrapStore(vpn))
    requires Own(moves[i + 1..j], h) >= PGSIZE + 4
    ensures i + 1 < k <= j && h in states[k].harts && h in states[i].harts
    ensures states[k].harts[h] == states[i].harts[h] && CanStore(states[k], h, vpn)
  {
    k := CallEnds(states, moves, i + 1, j, h);
  }

  /**
   A fault copies the page exactly if somebody else has a reference to it, and takes no page otherwise: then the entry
   keeps its page.
   */
  lemma CopiesIff(s: System, h: Hart, junk: Frame)
    requires Inv(s) && Enabled(s, h, Proceed(junk)) && s.harts[h].phase.Fault?
    ensures var x, src := Slot(s.harts[h].pid, s.harts[h].phase.vpn), s.harts[h].phase.src;
      var t := Apply(s, h, Proceed(junk));
      && t.mem == s.mem && t.harts[h].Busy? && x in s.mem.pt && s.mem.pt[x].page == src
      && (t.harts[h].phase.Shared? || t.harts[h].phase.Sole?)
      && (t.harts[h].phase.Sole? <==>
            PteRefs(s.mem.pt, src) == {x} && HartRefs(s.harts, src) == {} && src !in s.mem.kernel)
  {
    var x, src := Slot(s.harts[h].pid, s.harts[h].phase.vpn), s.harts[h].phase.src;
    assert HartInv(s.mem, s.harts[h]);
    assert x in PteRefs(s.mem.pt, src);
    OneEntry(s.mem, s.harts, x, src);
    assert s.mem.pm.count[src] == Refs(s.mem, s.harts, src);
    if s.mem.pm.count[src] <= 1 {
      assert |PteRefs(s.mem.pt, src) - {x}| == 0;
      assert |HartRefs(s.harts, src)| == 0;
    }
    assert PteRefs(s.mem.pt, src) == {x} ==> |PteRefs(s.mem.pt, src)| == 1;
  }

  lemma SoleKeepsPage(s: System, h: Hart, junk: Frame)
    requires Inv(s) && Enabled(s, h, Proceed(junk)) && s.harts[h].phase.Sole?
    ensures var x, t := Slot(s.harts[h].pid, s.harts[h].phase.vpn), Apply(s, h, Proceed(junk));
      && t.mem.pm == s.mem.pm && t.mem.frames == s.mem.frames && x in s.mem.pt && x in t.mem.pt
      && t.mem.pt[x].page == s.mem.pt[x].page && t.mem.pt[x].w && !t.mem.pt[x].cow
      && CanStore(t, h, x.vpn)
  {
    OwnStep(s, h, junk);
  }

  // ---------------------------------------------------------------- page allocation

  /**
   sys_user_allocate_page gives the page reclaimed last, or the one at heap_top if none is: it can be written at once,
   and no other entry changes.  The process is killed instead exactly if a store fault has mapped that page meanwhile.
   */
  lemma AllocMaps(s: System, h: Hart, junk: Frame)
    requires Inv(s) && Enabled(s, h, Proceed(junk)) && s.harts[h].phase.AllocHeld?
    ensures var pid, t := s.harts[h].pid, Apply(s, h, Proceed(junk));
      var heap, after := s.mem.heaps[pid], t.mem.heaps[pid];
      var n := |heap.freed|;
      var v := if n == 0 then heap.top else heap.freed[n - 1];
      && (t.harts[h].User? <==> Slot(pid, v) !in s.mem.pt) && (n == 0 ==> t.harts[h].User?)
      && (t.harts[h].User? ==> CanStore(t, h, v)) && (!t.harts[h].User? ==> pid in t.mem.dead)
      && (if n == 0 then after == heap.(top := v + 1) else after.freed + [v] == heap.freed && after.top == heap.top)
      && forall y :: y != Slot(pid, v) ==>
           (y in t.mem.pt <==> y in s.mem.pt) && (y in s.mem.pt ==> t.mem.pt[y] == s.mem.pt[y])
  {
    StepInv(s, h, Proceed(junk));
    var pid := s.harts[h].pid;
    var heap := s.mem.heaps[pid];
    var v := if |heap.freed| == 0 then heap.top else heap.freed[|heap.freed| - 1];
    StoreNow(Apply(s, h, Proceed(junk)), h, v);
  }

  /** The pages that some fork found marked in its filter by accident. */
  function Marked(moves: seq<Move>): set<Vpn> {
    if moves == [] then {}
    else
      var last := moves[|moves| - 1].action;
      Marked(moves[..|moves| - 1]) + if last.Fork? then last.stale else {}
  }

  ghost predicate Covered(m: Mem, lost: set<Vpn>) {
    && (forall pid :: pid in m.heaps ==> m.heaps[pid].stale <= lost)
    && forall pid, v: nat :: pid in m.heaps && HEAP_BOTTOM <= v < m.heaps[pid].top ==>
         Slot(pid, v) in m.pt || v in m.heaps[pid].freed || v in lost
  }

  lemma CoveredStep(s: System, h: Hart, a: Action, lost: set<Vpn>)
    requires Inv(s) && Enabled(s, h, a) && Covered(s.mem, lost)
    ensures Covered(Apply(s, h, a).mem, lost + if a.Fork? then a.stale else {})
  {
    assert HartInv(s.mem, s.harts[h]);
    if a.Proceed? {
      CoveredProceed(s.mem, s.harts[h].pid, s.harts[h].phase, a.junk, lost);
    }
  }

  lemma CoveredProceed(m: Mem, pid: Pid, phase: Phase, junk: Frame, lost: set<Vpn>)
    requires PhaseInv(m, pid, phase) && CanProceed(m, pid, phase) && Covered(m, lost)
    ensures Covered(Advance(m, pid, phase, junk).0, lost)
  {
    var n := Advance(m, pid, phase, junk).0;
    forall q, v: nat | q in n.heaps && HEAP_BOTTOM <= v < n.heaps[q].top
      ensures Slot(q, v) in n.pt || v in n.heaps[q].freed || v in lost
    {
      if q in m.heaps && v < m.heaps[q].top {
        assert Slot(q, v) in m.pt || v in m.heaps[q].freed || v in lost;
      } else if q !in m.heaps {
        assert phase.ForkLook? && q == phase.child;
        assert Slot(pid, v) in m.pt || v in m.heaps[pid].freed || v in lost;
      }
    }
  }

  /** No heap page is ever lost but through a fork's filter: it is mapped, or reclaimed and will be given out again. */
  lemma {:induction false} HeapCovered(states: seq<System>, moves: seq<Move>, i: nat)
    requires Run(states, moves) && i < |states|
    ensures Covered(states[i].mem, Marked(moves[..i]))
  {
    if i > 0 {
      HeapCovered(states, moves, i - 1);
      RunInv(states, moves, i - 1);
      CoveredStep(states[i - 1], moves[i - 1].hart, moves[i - 1].action, Marked(moves[..i - 1]));
      assert moves[..i][..i - 1] == moves[..i - 1];
    }
  }

  // ---------------------------------------------------------------- processes that are gone, and new ones

  ghost predicate Buried(s: System) {
    s.mem.dead <= s.mem.heaps.Keys && forall pid :: pid in s.mem.dead ==> !Elsewhere(s.harts, pid)
  }

  lemma BuriedStep(s: System, h: Hart, a: Action)
    requires Inv(s) && Enabled(s, h, a) && Buried(s)
    ensures Buried(Apply(s, h, a)) && s.mem.dead <= Apply(s, h, a).mem.dead
  {
    assert HartInv(s.mem, s.harts[h]);
    var t := Apply(s, h, a);
    forall pid | pid in t.mem.dead
      ensures !Elsewhere(t.harts, pid)
    {
      forall g | g in t.harts && !t.harts[g].Idle?
        ensures t.harts[g].pid != pid
      {
        if g != h {
          assert Apart(s.harts[g], s.harts[h]);
        }
      }
    }
  }

  lemma {:induction false} RunBuried(states: seq<System>, moves: seq<Move>, i: nat)
    requires Run(states, moves) && i < |states|
    ensures Buried(states[i])
  {
    if i > 0 {
      RunBuried(states, moves, i - 1);
      RunInv(states, moves, i - 1);
      BuriedStep(states[i - 1], moves[i - 1].hart, moves[i - 1].action);
    }
  }

  /** A process that leaves a hart is dead exactly if it exits or frees a page that is not mapped. */
  lemma LeavesDeadIff(states: seq<System>, moves: seq<Move>, i: nat)
    requires Run(states, moves) && i < |moves| && (moves[i].action.Leave? || moves[i].action.SysFree?)
    ensures var s, t, h, a := states[i], states[i + 1], moves[i].hart, moves[i].action;
      && h in t.harts && h in s.harts
      && (s.harts[h].pid in t.mem.dead <==>
            (a.Leave? && a.dies) || (a.SysFree? && Slot(s.harts[h].pid, a.vpn) !in s.mem.pt))
      && (a.Leave? || s.harts[h].pid in t.mem.dead ==> t.harts[h].Idle?)
  {
    RunBuried(states, moves, i);
    RunInv(states, moves, i);
    var s, h := states[i], moves[i].hart;
    assert s.harts[h].pid in s.mem.dead ==> !Elsewhere(s.harts, s.harts[h].pid);
  }

  /** A process that was killed or has exited never runs again. */
  lemma {:induction false} DeadForGood(states: seq<System>, moves: seq<Move>, i: nat, j: nat, pid: Pid)
    requires Run(states, moves) && i <= j < |states| && pid in states[i].mem.dead
    ensures pid in states[j].mem.dead && !Elsewhere(states[j].harts, pid)
    decreases j - i
  {
    RunBuried(states, moves, j);
    if i < j {
      DeadForGood(states, moves, i, j - 1, pid);
      StaysDead(states, moves, j - 1, j, pid);
    }
  }

  lemma StaysDead(states: seq<System>, moves: seq<Move>, n: nat, j: nat, pid: Pid)
    requires Run(states, moves) && n < |moves| && j == n + 1 && pid in states[n].mem.dead
    ensures pid in states[j].mem.dead
  {
    RunBuried(states, moves, n);
    RunInv(states, moves, n);
    BuriedStep(states[n], moves[n].hart, moves[n].action);
  }

  /** The moment a fork ends, every idle hart can run the child. */
  lemma ChildRuns(states: seq<System>, moves: seq<Move>, i: nat, g: Hart)
    requires Run(states, moves) && i < |moves| && EndsFork(states[i], moves[i].hart, moves[i].action)
    requires g in states[i].harts && states[i].harts[g].Idle?
    ensures Enabled(states[i + 1], g, Dispatch(states[i].harts[moves[i].hart].phase.child))
  {
    RunInv(states, moves, i);
    RunInv(states, moves, i + 1);
    RunBuried(states, moves, i);
    var s, h := states[i], moves[i].hart;
    assert HartInv(s.mem, s.harts[h]);
    forall f | f in s.harts && !s.harts[f].Idle?
      ensures s.harts[f].pid != s.harts[h].phase.child
    {
      assert HartInv(s.mem, s.harts[f]);
    }
  }
}
