/** What the calls promise over whole runs: semaphores from their creation on, time slices, parents. */
module SchedLaws {
  import opened Config
  import opened Sched
  import opened SchedQueues
  import opened SchedLiveness
  import opened SchedScan

  // ---------------------------------------------------------------- a semaphore from its creation on

  /** Move i creates semaphore sid with value init. */
  ghost predicate Creates(states: seq<Sys>, moves: seq<Move>, i: nat, init: int, sid: nat) {
    && i < |moves| && i + 1 < |states| && moves[i].action == SemNew(init) && |states[i].sems| == NSEM
    && sid < NSEM && !states[i].sems[sid].inUse && (forall j :: 0 <= j < sid ==> states[i].sems[j].inUse)
  }

  lemma FirstIs(sems: seq<Sem>, from: nat, sid: nat)
    requires from <= sid < |sems| && !sems[sid].inUse && forall j :: from <= j < sid ==> sems[j].inUse
    ensures FirstUnused(sems, from) == sid
  {
  }

  /** The call takes the first unused row, and changes no other row and nothing else. */
  lemma NewSem(states: seq<Sys>, moves: seq<Move>, i: nat, init: int, sid: nat)
    requires Run(states, moves) && Creates(states, moves, i, init, sid)
    ensures var s, t := states[i], states[i + 1];
      && |t.sems| == NSEM && t.sems[sid] == Sem(true, init, [])
      && (forall j :: 0 <= j < NSEM && j != sid ==> t.sems[j] == s.sems[j])
      && t.procs == s.procs && t.ready == s.ready && t.harts == s.harts
  {
    FirstIs(states[i].sems, 0, sid);
  }

  /** All that has happened to semaphore sid since move i. */
  ghost function Since(states: seq<Sys>, moves: seq<Move>, i: nat, n: nat, sid: nat): seq<SemAct>
    requires i < n < |states| && n <= |moves|
  {
    SemActs(states, moves, i + 1, n, sid)
  }

  /**
   The law of semaphores: value minus sleepers is the initial value plus the V calls minus the P calls.  From a start
   that is not negative, no more P calls have got through than the initial value and the V calls allow.
   */
  lemma SemFromCreation(states: seq<Sys>, moves: seq<Move>, i: nat, n: nat, init: int, sid: nat)
    requires Run(states, moves) && Creates(states, moves, i, init, sid) && i < n <= |moves|
    ensures |states[n].sems| == NSEM
    ensures var sem, acts := states[n].sems[sid], Since(states, moves, i, n, sid);
      && sem.inUse && sem.value - |sem.queue| == init + CountV(acts) - CountP(acts)
      && (init >= 0 ==>
            && sem.value >= 0 && (sem.queue != [] ==> sem.value == 0)
            && CountP(acts) - |sem.queue| <= init + CountV(acts))
  {
    NewSem(states, moves, i, init, sid);
    StaysInUse(states, moves, i + 1, n, sid);
    SemConservation(states, moves, i + 1, n, sid);
  }

  /** Without a V, P calls use up a positive value and then leave it alone. */
  lemma {:induction false} NoVValue(sems: seq<Sem>, acts: seq<SemAct>)
    requires SemHistory(sems, acts) && CountV(acts) == 0
    ensures var a, b := sems[0].value, sems[|acts|].value;
      b == if a <= 0 then a else if a <= CountP(acts) then 0 else a - CountP(acts)
    decreases |acts|
  {
    if acts != [] {
      NoVValue(sems[..|acts|], acts[..|acts| - 1]);
    }
  }

  function Max(a: int, b: int): int {
    if a < b then b else a
  }

  lemma ValueWithoutV(states: seq<Sys>, moves: seq<Move>, i: nat, n: nat, init: int, sid: nat)
    requires Run(states, moves) && Creates(states, moves, i, init, sid) && i < n <= |moves|
    requires CountV(Since(states, moves, i, n, sid)) == 0 && |states[n].sems| == NSEM
    ensures states[n].sems[sid].value <= 0 <==> CountP(Since(states, moves, i, n, sid)) >= Max(init, 0)
  {
    NewSem(states, moves, i, init, sid);
    forall k | i + 1 <= k <= n
      ensures |states[k].sems| == NSEM
      ensures k < |moves| ==>
        |states[k + 1].sems| == NSEM &&
        states[k + 1].sems[sid] == SemNext(states[k].sems[sid], ActOn(states[k], moves[k], sid))
    {
      StaysInUse(states, moves, i + 1, k, sid);
    }
    var sems, acts := SemStates(states, i + 1, n, sid), SemActs(states, moves, i + 1, n, sid);
    assert SemHistory(sems, acts);
    NoVValue(sems, acts);
  }

  /** A P call puts its process to sleep at the end of the queue exactly if the value is not positive. */
  lemma PSleepsIff(states: seq<Sys>, moves: seq<Move>, n: nat, sid: nat)
    requires Run(states, moves) && n < |moves| && moves[n].action == SemP(sid) && sid < NSEM
    requires |states[n].sems| == NSEM && states[n].sems[sid].inUse
    ensures var s, t, h := states[n], states[n + 1], moves[n].hart;
      && h in s.harts && s.harts[h].Exec? && h in t.harts && |t.sems| == NSEM
      && var p := s.harts[h].pid;
      && p < |t.procs|
      && (t.harts[h].Idle? <==> s.sems[sid].value <= 0) && (!t.harts[h].Idle? ==> t.harts[h] == s.harts[h])
      && (t.harts[h].Idle? ==> t.procs[p].status == Blocked && t.sems[sid].queue == s.sems[sid].queue + [p])
  {
  }

  /**
   In a run after sem_new(init) a P call blocks exactly if as many P calls have come before it as the initial value and
   the V calls allow; without any V, the first max(init, 0) P calls go through and every later one blocks.
   */
  lemma PBlocksIff(states: seq<Sys>, moves: seq<Move>, i: nat, n: nat, init: int, sid: nat)
    requires Run(states, moves) && Creates(states, moves, i, init, sid) && i < n < |moves|
    requires moves[n].action == SemP(sid)
    ensures moves[n].hart in states[n + 1].harts
    ensures var sleeps, acts := states[n + 1].harts[moves[n].hart].Idle?, Since(states, moves, i, n, sid);
      && (CountV(acts) == 0 ==> (sleeps <==> CountP(acts) >= Max(init, 0)))
      && (init >= 0 ==> (sleeps <==> CountP(acts) >= init + CountV(acts)))
  {
    SemFromCreation(states, moves, i, n, init, sid);
    PSleepsIff(states, moves, n, sid);
    if CountV(Since(states, moves, i, n, sid)) == 0 {
      ValueWithoutV(states, moves, i, n, init, sid);
    }
  }

  // ---------------------------------------------------------------- time slices

  /** How far a process that has taken n ticks is into its time slice. */
  function InSlice(n: nat): nat {
    n % TIME_SLICE_LEN
  }

  /** Move n is a timer tick of process p. */
  predicate TickOf(s: Sys, m: Move, p: Pid) {
    m.action.Tick? && m.hart in s.harts && s.harts[m.hart].Exec? && s.harts[m.hart].pid == p
  }

  /** Which of the first i moves are timer ticks of process p. */
  ghost function Ticked(states: seq<Sys>, moves: seq<Move>, i: nat, p: Pid): (r: seq<bool>)
    requires i <= |moves| && i <= |states|
    ensures |r| == i && forall n :: 0 <= n < i ==> r[n] == TickOf(states[n], moves[n], p)
  {
    seq(i, n requires 0 <= n < i => TickOf(states[n], moves[n], p))
  }

  /** The timer ticks that process p has taken in the first i moves. */
  ghost function TicksOf(states: seq<Sys>, moves: seq<Move>, i: nat, p: Pid): nat
    requires i <= |moves| && i <= |states|
  {
    Count(Ticked(states, moves, i, p))
  }

  lemma TicksStep(s: Sys, h: Hart, a: Action, p: Pid)
    requires Shape(s) && TicksOk(s) && Enabled(s, h, a) && p < NPROC && |Step(s, h, a).procs| == NPROC
    ensures Step(s, h, a).procs[p].ticks ==
      if TickOf(s, Move(h, a), p) then InSlice(s.procs[p].ticks + 1) else s.procs[p].ticks
  {
  }

  lemma TicksNext(states: seq<Sys>, moves: seq<Move>, m: nat, i: nat, p: Pid)
    requires Run(states, moves) && m < |moves| && i == m + 1 && p < NPROC
    ensures |states[m].procs| == NPROC == |states[i].procs|
    ensures states[i].procs[p].ticks ==
      if TickOf(states[m], moves[m], p) then InSlice(states[m].procs[p].ticks + 1) else states[m].procs[p].ticks
  {
    RunSizes(states, moves, m);
    RunSizes(states, moves, i);
    TicksStep(states[m], moves[m].hart, moves[m].action, p);
    assert Move(moves[m].hart, moves[m].action) == moves[m];
  }

  lemma RunSizes(states: seq<Sys>, moves: seq<Move>, i: nat)
    requires Run(states, moves) && i < |states|
    ensures Shape(states[i]) && TicksOk(states[i])
  {
    RunInv(states, moves, i);
  }

  lemma SliceAdds(n: nat)
    ensures InSlice(InSlice(n) + 1) == InSlice(n + 1)
    ensures InSlice(n) + 1 >= TIME_SLICE_LEN <==> InSlice(n + 1) == 0
  {
  }

  lemma {:induction false} SliceTrace(ts: seq<nat>, bs: seq<bool>)
    requires |ts| == |bs| + 1 && ts[0] == 0
    requires forall n :: 0 <= n < |bs| ==> ts[n + 1] == if bs[n] then InSlice(ts[n] + 1) else ts[n]
    ensures ts[|bs|] == InSlice(Count(bs))
    decreases |bs|
  {
    if bs != [] {
      SliceTrace(ts[..|bs|], bs[..|bs| - 1]);
      SliceAdds(Count(bs[..|bs| - 1]));
    }
  }

  /** tick_count is the number of ticks the process has taken since it was last retired for its time. */
  lemma TicksAreCounted(states: seq<Sys>, moves: seq<Move>, i: nat, p: Pid)
    requires Run(states, moves) && i < |states| && p < NPROC
    ensures |states[i].procs| == NPROC && states[i].procs[p].ticks == InSlice(TicksOf(states, moves, i, p))
  {
    var bs := Ticked(states, moves, i, p);
    var ts := TickCounts(states, moves, i, p);
    forall n | 0 <= n < i
      ensures ts[n + 1] == if bs[n] then InSlice(ts[n] + 1) else ts[n]
    {
      TicksNext(states, moves, n, n + 1, p);
    }
    SliceTrace(ts, bs);
  }

  lemma TickCounts(states: seq<Sys>, moves: seq<Move>, i: nat, p: Pid) returns (ts: seq<nat>)
    requires Run(states, moves) && i < |states| && p < NPROC
    ensures |ts| == i + 1 && ts[0] == 0
    ensures forall n :: 0 <= n <= i ==> |states[n].procs| == NPROC && ts[n] == states[n].procs[p].ticks
  {
    forall n | 0 <= n <= i
      ensures |states[n].procs| == NPROC
    {
      RunSizes(states, moves, n);
    }
    ts := seq(i + 1, n requires 0 <= n <= i => states[n].procs[p].ticks);
  }

  /**
   rrsched retires a process to the end of the ready queue with every TIME_SLICE_LEN-th tick it takes, and with no
   other; any other tick changes nothing but the count.
   */
  lemma RetiredIff(states: seq<Sys>, moves: seq<Move>, n: nat, p: Pid)
    requires Run(states, moves) && n < |moves| && p < NPROC && TickOf(states[n], moves[n], p)
    ensures var s, t, h := states[n], states[n + 1], moves[n].hart;
      && h in t.harts && |t.procs| == NPROC
      && if InSlice(TicksOf(states, moves, n, p) + 1) == 0
         then t.harts[h].Idle? && t.ready == s.ready + [p] && t.procs[p].status == Ready
         else
           && t.harts == s.harts && t.ready == s.ready && t.sems == s.sems && |s.procs| == NPROC
           && t.procs == s.procs[p := s.procs[p].(ticks := t.procs[p].ticks)]
  {
    TicksAreCounted(states, moves, n, p);
    SliceAdds(TicksOf(states, moves, n, p));
    RunInv(states, moves, n);
    Retires(states[n], moves[n].hart, p);
  }

  lemma Retires(s: Sys, h: Hart, p: Pid)
    requires Inv(s) && Enabled(s, h, Tick) && TickOf(s, Move(h, Tick), p)
    ensures var t := Step(s, h, Tick);
      && h in t.harts && |t.procs| == NPROC && p < NPROC
      && if s.procs[p].ticks + 1 >= TIME_SLICE_LEN
         then t.harts[h].Idle? && t.ready == s.ready + [p] && t.procs[p].status == Ready
         else
           && t.harts == s.harts && t.ready == s.ready && t.sems == s.sems
           && t.procs == s.procs[p := s.procs[p].(ticks := t.procs[p].ticks)]
  {
    assert OnHart(s.harts, p);
    assert p !in s.ready;
  }

  // ---------------------------------------------------------------- parents

  /** Move n is a fork by process q that makes process c. */
  ghost predicate ForkedAt(states: seq<Sys>, moves: seq<Move>, n: nat, q: Pid, c: Pid) {
    && n < |moves| && n < |states| && moves[n].action.Fork? && moves[n].hart in states[n].harts
    && states[n].harts[moves[n].hart] == Exec(q) && c == FirstFree(states[n].procs, 0)
  }

  /** A fork makes one READY process, last in the queue, whose parent is the caller, and changes nothing else. */
  lemma ForkMakes(states: seq<Sys>, moves: seq<Move>, n: nat, q: Pid, c: Pid)
    requires Run(states, moves) && ForkedAt(states, moves, n, q, c)
    ensures var s, t := states[n], states[n + 1];
      && c < |s.procs| == |t.procs| && s.procs[c].status == Free
      && t.procs[c].status == Ready && t.procs[c].parent == Child(q) && t.ready == s.ready + [c]
      && (forall p :: 0 <= p < |s.procs| && p != c ==> t.procs[p] == s.procs[p])
      && t.sems == s.sems && t.harts == s.harts
  {
    RunInv(states, moves, n);
    assert c !in states[n].ready;
  }

  lemma ParentStep(s: Sys, h: Hart, a: Action, c: Pid)
    requires Inv(s) && Enabled(s, h, a) && c < NPROC && |Step(s, h, a).procs| == NPROC
    requires !(a.Fork? && c == FirstFree(s.procs, 0))
    ensures Step(s, h, a).procs[c].parent == s.procs[c].parent
  {
  }

  /** A slot that was taken is never free again. */
  lemma {:induction false} TakenForGood(states: seq<Sys>, moves: seq<Move>, m: nat, n: nat, c: Pid)
    requires Run(states, moves) && m <= n < |states| && c < NPROC && |states[m].procs| == NPROC
    requires states[m].procs[c].status != Free
    ensures |states[n].procs| == NPROC && states[n].procs[c].status != Free
    decreases n - m
  {
    if m < n {
      TakenForGood(states, moves, m, n - 1, c);
      StaysTaken(states, moves, n - 1, n, c);
    }
  }

  lemma StaysTaken(states: seq<Sys>, moves: seq<Move>, m: nat, n: nat, c: Pid)
    requires Run(states, moves) && m < |moves| && n == m + 1 && c < NPROC && |states[m].procs| == NPROC
    requires states[m].procs[c].status != Free
    ensures |states[n].procs| == NPROC && states[n].procs[c].status != Free
  {
    RunSizes(states, moves, m);
    RunSizes(states, moves, n);
    if states[n].procs[c].status == Free {
      NoneFreed(states[m], moves[m].hart, moves[m].action, c);
    }
  }

  ghost predicate Born(states: seq<Sys>, moves: seq<Move>, i: nat, q: Pid, c: Pid) {
    exists n :: 0 <= n < i && ForkedAt(states, moves, n, q, c)
  }

  /** The parent of a process is, for ever, the process whose fork made it. */
  lemma {:induction false} ParentIffForked(states: seq<Sys>, moves: seq<Move>, i: nat, q: Pid, c: Pid)
    requires Run(states, moves) && i < |states| && c < NPROC
    ensures |states[i].procs| == NPROC
    ensures states[i].procs[c].parent == Child(q) <==> Born(states, moves, i, q, c)
  {
    if i == 0 {
      RunSizes(states, moves, 0);
    } else {
      ParentIffForked(states, moves, i - 1, q, c);
      if moves[i - 1].action.Fork? && c == FirstFree(states[i - 1].procs, 0) {
        NewParent(states, moves, i - 1, i, q, c);
      } else {
        SameParent(states, moves, i - 1, i, q, c);
      }
    }
  }

  lemma SameParent(states: seq<Sys>, moves: seq<Move>, m: nat, i: nat, q: Pid, c: Pid)
    requires Run(states, moves) && m < |moves| && i == m + 1 && c < NPROC && |states[m].procs| == NPROC
    requires !(moves[m].action.Fork? && c == FirstFree(states[m].procs, 0))
    requires states[m].procs[c].parent == Child(q) <==> Born(states, moves, m, q, c)
    ensures |states[i].procs| == NPROC
    ensures states[i].procs[c].parent == Child(q) <==> Born(states, moves, i, q, c)
  {
    RunInv(states, moves, m);
    RunInv(states, moves, i);
    ParentStep(states[m], moves[m].hart, moves[m].action, c);
    assert !ForkedAt(states, moves, m, q, c);
    if Born(states, moves, i, q, c) {
      var n :| 0 <= n < i && ForkedAt(states, moves, n, q, c);
      assert n < m;
    }
  }

  lemma NewParent(states: seq<Sys>, moves: seq<Move>, m: nat, i: nat, q: Pid, c: Pid)
    requires Run(states, moves) && m < |moves| && i == m + 1 && c < NPROC
    requires moves[m].action.Fork? && c == FirstFree(states[m].procs, 0)
    ensures |states[i].procs| == NPROC
    ensures states[i].procs[c].parent == Child(q) <==> Born(states, moves, i, q, c)
  {
    var p := states[m].harts[moves[m].hart].pid;
    assert ForkedAt(states, moves, m, p, c);
    ForkMakes(states, moves, m, p, c);
    RunInv(states, moves, m);
    RunInv(states, moves, i);
    if Born(states, moves, i, q, c) {
      var n :| 0 <= n < i && ForkedAt(states, moves, n, q, c);
      ForkMakes(states, moves, n, q, c);
      if n < m {
        TakenForGood(states, moves, n + 1, m, c);
      }
    }
  }

  // ---------------------------------------------------------------- how the calls end

  /** yield gives up the hart for the end of the ready queue. */
  lemma YieldRetires(states: seq<Sys>, moves: seq<Move>, n: nat)
    requires Run(states, moves) && n < |moves| && moves[n].action.Yield?
    ensures var s, t, h := states[n], states[n + 1], moves[n].hart;
      && h in s.harts && s.harts[h].Exec? && h in t.harts && t.harts[h].Idle?
      && var p := s.harts[h].pid;
      && p < |s.procs| == |t.procs| && t.ready == s.ready + [p] && t.procs[p].status == Ready && t.sems == s.sems
      && (forall q :: 0 <= q < |s.procs| && q != p ==> t.procs[q] == s.procs[q])
      && (forall g :: g in s.harts && g != h ==> g in t.harts && t.harts[g] == s.harts[g])
  {
    RunInv(states, moves, n);
    var s, p := states[n], states[n].harts[moves[n].hart].pid;
    assert OnHart(s.harts, p);
    assert p !in s.ready;
  }

  /**
   exit, and a P or V on a semaphore that is not in use, end the process.  A parent that is BLOCKED becomes READY and
   the last of the ready queue; no other process changes.
   */
  lemma ExitEnds(states: seq<Sys>, moves: seq<Move>, n: nat)
    requires Run(states, moves) && n < |moves| && Dies(states[n], moves[n].hart, moves[n].action)
    ensures var s, t, h := states[n], states[n + 1], moves[n].hart;
      && h in s.harts && s.harts[h].Exec? && h in t.harts && t.harts[h].Idle?
      && var p := s.harts[h].pid;
      && p < |s.procs| == |t.procs| && t.procs[p].status == Zombie && t.sems == s.sems
      && var wakes := exists q :: 0 <= q < |s.procs| && s.procs[p].parent == Child(q) && s.procs[q].status == Blocked;
      && t.ready == (if wakes then s.ready + [s.procs[p].parent.of] else s.ready)
      && forall q :: 0 <= q < |s.procs| && q != p ==>
           if wakes && s.procs[p].parent == Child(q) then t.procs[q].status == Ready else t.procs[q] == s.procs[q]
  {
    RunInv(states, moves, n);
    var s, p := states[n], states[n].harts[moves[n].hart].pid;
    ExitOfIs(s, p);
  }

  lemma ExitOfIs(s: Sys, p: Pid)
    requires Inv(s) && p < NPROC && s.procs[p].status != Blocked
    ensures var t := ExitOf(s, p);
      && |t.procs| == NPROC && t.procs[p].status == Zombie && t.sems == s.sems && t.harts == s.harts
      && var wakes := s.procs[p].parent.Child? && s.procs[s.procs[p].parent.of].status == Blocked;
      && t.ready == (if wakes then s.ready + [s.procs[p].parent.of] else s.ready)
      && forall q :: 0 <= q < NPROC && q != p ==>
           if wakes && s.procs[p].parent == Child(q) then t.procs[q].status == Ready else t.procs[q] == s.procs[q]
  {
    if s.procs[p].parent.Child? && s.procs[s.procs[p].parent.of].status == Blocked {
      assert s.procs[p].parent.of !in s.ready;
    }
  }

  lemma ZombieStep(s: Sys, h: Hart, a: Action, c: Pid)
    requires Inv(s) && Enabled(s, h, a) && c < NPROC && s.procs[c].status == Zombie && |Step(s, h, a).procs| == NPROC
    ensures Step(s, h, a).procs[c].status == Zombie
  {
    if a.SemV? && !BadSem(s, a.sid) && s.sems[a.sid].queue != [] {
      SemMember(s, a.sid, s.sems[a.sid].queue[0]);
    }
    if a.Dispatch? {
      ReadyMember(s, s.ready[0]);
    }
  }

  /** Who has exited stays a ZOMBIE. */
  lemma {:induction false} ZombieForGood(states: seq<Sys>, moves: seq<Move>, m: nat, n: nat, c: Pid)
    requires Run(states, moves) && m <= n < |states| && c < NPROC && |states[m].procs| == NPROC
    requires states[m].procs[c].status == Zombie
    ensures |states[n].procs| == NPROC && states[n].procs[c].status == Zombie
    decreases n - m
  {
    if m < n {
      ZombieForGood(states, moves, m, n - 1, c);
      ZombieStays(states, moves, n - 1, n, c);
    }
  }

  lemma ZombieStays(states: seq<Sys>, moves: seq<Move>, m: nat, n: nat, c: Pid)
    requires Run(states, moves) && m < |moves| && n == m + 1 && c < NPROC && |states[m].procs| == NPROC
    requires states[m].procs[c].status == Zombie
    ensures |states[n].procs| == NPROC && states[n].procs[c].status == Zombie
  {
    RunSizes(states, moves, n);
    RunInv(states, moves, m);
    ZombieStep(states[m], moves[m].hart, moves[m].action, c);
  }

  /** A child of p that wait(target) asks for. */
  predicate Asked(s: Sys, p: Pid, target: int, c: Pid) {
    c < |s.procs| && s.procs[c].parent == Child(p) && (target == -1 || target == c)
  }

  /**
   wait returns at once exactly if it asks for a process that is no child of the caller, or for a child that is dead.
   Otherwise the caller is about to sleep, and its next step puts it to sleep.
   */
  lemma WaitSleepsIff(states: seq<Sys>, moves: seq<Move>, n: nat, target: int)
    requires Run(states, moves) && n < |moves| && moves[n].action == Wait(target)
    ensures var s, t, h := states[n], states[n + 1], moves[n].hart;
      && h in s.harts && s.harts[h].Exec? && h in t.harts
      && var p := s.harts[h].pid;
      var stranger := target != -1 && !(0 <= target < |s.procs| && s.procs[target].parent == Child(p));
      var dead := exists c: nat :: Asked(s, p, target, c) && s.procs[c].status == Zombie;
      if stranger || dead then t == s else t == s.(harts := t.harts) && t.harts[h] == Checked(p, target)
  {
    RunSizes(states, moves, n);
    var s, p := states[n], states[n].harts[moves[n].hart].pid;
    assert forall c: nat :: Asked(s, p, target, c) <==> Awaited(s, p, target, c);
  }

  lemma SleepsNow(states: seq<Sys>, moves: seq<Move>, n: nat)
    requires Run(states, moves) && n < |moves| && moves[n].action.WaitBlock?
    ensures var s, t, h := states[n], states[n + 1], moves[n].hart;
      && h in s.harts && s.harts[h].Checked? && h in t.harts && t.harts[h].Idle?
      && var p := s.harts[h].pid;
      && p < |s.procs| == |t.procs| && t.procs[p].status == Blocked && t.procs[p].why == ForChild(s.harts[h].target)
      && t.ready == s.ready && t.sems == s.sems && forall q :: 0 <= q < |s.procs| && q != p ==> t.procs[q] == s.procs[q]
  {
    RunSizes(states, moves, n);
  }

  lemma BornStays(states: seq<Sys>, moves: seq<Move>, i: nat, j: nat, q: Pid, c: Pid)
    requires i <= j && Born(states, moves, i, q, c)
    ensures Born(states, moves, j, q, c)
  {
    var n :| 0 <= n < i && ForkedAt(states, moves, n, q, c);
  }

  /**
   wait takes a dead child out of nothing: once a child that wait(target) asks for is dead, every later wait(target) of
   the same process returns at once, even if all other children are alive.
   */
  lemma ReportedForEver(states: seq<Sys>, moves: seq<Move>, i: nat, n: nat, target: int, p: Pid, c: Pid)
    requires Run(states, moves) && i <= n < |moves| && c < NPROC && |states[i].procs| == NPROC
    requires Asked(states[i], p, target, c) && states[i].procs[c].status == Zombie
    requires moves[n].action == Wait(target) && moves[n].hart in states[n].harts
    requires states[n].harts[moves[n].hart] == Exec(p)
    ensures states[n + 1] == states[n]
  {
    ZombieForGood(states, moves, i, n, c);
    ParentIffForked(states, moves, i, p, c);
    BornStays(states, moves, i, n, p, c);
    ParentIffForked(states, moves, n, p, c);
    WaitSleepsIff(states, moves, n, target);
    assert Asked(states[n], p, target, c);
  }
}
