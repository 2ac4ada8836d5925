/**
 Wake-ups of sys_user_wait.  The C code looks for a ZOMBIE child and marks the caller BLOCKED without
 holding a lock in between, while sys_user_exit wakes only a parent that is already BLOCKED.
 */
module SchedWait {
  import opened Config
  import opened Sched
  import opened SchedQueues

  /** No process sleeps in wait although a child it waits for is dead. */
  predicate NoneLost(s: Sys) {
    forall p :: 0 <= p < |s.procs| && s.procs[p].status == Blocked && s.procs[p].why.ForChild? ==>
      !ZombieAwaited(s, p, s.procs[p].why.target)
  }

  /** No process that is about to sleep has such a child. */
  predicate ChecksHold(s: Sys) {
    forall h :: h in s.harts && s.harts[h].Checked? ==> !ZombieAwaited(s, s.harts[h].pid, s.harts[h].target)
  }

  /** Process p dies after its parent looked for dead children and before the parent is BLOCKED. */
  predicate DiesUnseen(s: Sys, p: Pid) {
    exists g :: g in s.harts && s.harts[g].Checked? && Awaited(s, s.harts[g].pid, s.harts[g].target, p)
  }

  predicate LateExit(s: Sys, h: Hart, a: Action) {
    h in s.harts && s.harts[h].Exec? && Dies(s, h, a) && DiesUnseen(s, s.harts[h].pid)
  }

  /** Zombies and parents after a step that is not a death and not a fork are those before it. */
  lemma SameZombies(s: Sys, t: Sys, p: Pid, target: int)
    requires |t.procs| == |s.procs|
    requires forall c :: 0 <= c < |s.procs| ==>
      (t.procs[c].status == Zombie ==> s.procs[c].status == Zombie && t.procs[c].parent == s.procs[c].parent)
    requires !ZombieAwaited(s, p, target)
    ensures !ZombieAwaited(t, p, target)
  {
    forall c | 0 <= c < |t.procs| && Awaited(t, p, target, c)
      ensures t.procs[c].status != Zombie
    {
      assert Awaited(s, p, target, c) || s.procs[c].status != Zombie || t.procs[c].status != Zombie;
    }
  }

  lemma NoNewZombies(s: Sys, h: Hart, a: Action)
    requires Enabled(s, h, a) && !Dies(s, h, a)
    ensures var t := Step(s, h, a); |t.procs| == |s.procs| && forall c :: 0 <= c < |s.procs| ==>
      (t.procs[c].status == Zombie ==> s.procs[c].status == Zombie && t.procs[c].parent == s.procs[c].parent)
  {
  }

  /** Only WaitBlock makes a process BLOCKED for a child. */
  lemma NewSleepers(s: Sys, h: Hart, a: Action, p: Pid)
    requires Enabled(s, h, a) && p < NPROC
    requires Step(s, h, a).procs[p].status == Blocked && Step(s, h, a).procs[p].why.ForChild?
    ensures (s.procs[p].status == Blocked && s.procs[p].why == Step(s, h, a).procs[p].why)
         || (a.WaitBlock? && s.harts[h].pid == p && Step(s, h, a).procs[p].why == ForChild(s.harts[h].target))
  {
  }

  lemma DeathStep(s: Sys, h: Hart, a: Action)
    requires Enabled(s, h, a) && Dies(s, h, a)
    ensures Step(s, h, a) == Goto(ExitOf(s, s.harts[h].pid), h, Idle)
  {
  }

  lemma ExitZombies(s: Sys, p: Pid, q: Pid, target: int)
    requires Shape(s) && p < NPROC && q < NPROC && !ZombieAwaited(s, q, target)
    ensures var t := ExitOf(s, p); |t.procs| == NPROC && (ZombieAwaited(t, q, target) <==> Awaited(s, q, target, p))
  {
    var t := ExitOf(s, p);
    assert forall c :: 0 <= c < NPROC ==> t.procs[c].parent == s.procs[c].parent;
    assert t.procs[p].status == Zombie;
    if Awaited(s, q, target, p) {
      assert Awaited(t, q, target, p);
    }
    forall c | 0 <= c < NPROC && c != p && Awaited(t, q, target, c)
      ensures t.procs[c].status != Zombie
    {
      assert Awaited(s, q, target, c);
    }
  }

  lemma NonDeathKeeps(s: Sys, h: Hart, a: Action)
    requires Inv(s) && Enabled(s, h, a) && !Dies(s, h, a) && NoneLost(s) && ChecksHold(s)
    ensures NoneLost(Step(s, h, a)) && ChecksHold(Step(s, h, a))
  {
    var t := Step(s, h, a);
    NoNewZombies(s, h, a);
    forall p | 0 <= p < |t.procs| && t.procs[p].status == Blocked && t.procs[p].why.ForChild?
      ensures !ZombieAwaited(t, p, t.procs[p].why.target)
    {
      NewSleepers(s, h, a, p);
      SameZombies(s, t, p, t.procs[p].why.target);
    }
    forall g | g in t.harts && t.harts[g].Checked?
      ensures !ZombieAwaited(t, t.harts[g].pid, t.harts[g].target)
    {
      CheckedBefore(s, h, a, g);
      SameZombies(s, t, t.harts[g].pid, t.harts[g].target);
    }
  }

  lemma CheckedBefore(s: Sys, h: Hart, a: Action, g: Hart)
    requires Inv(s) && Enabled(s, h, a) && ChecksHold(s)
    requires g in Step(s, h, a).harts && Step(s, h, a).harts[g].Checked?
    ensures var st := Step(s, h, a).harts[g]; !ZombieAwaited(s, st.pid, st.target)
  {
  }

  /** A death wakes a sleeping parent, and a death that no check has missed leaves every check standing. */
  lemma DeathKeeps(s: Sys, h: Hart, a: Action)
    requires Inv(s) && Enabled(s, h, a) && Dies(s, h, a) && NoneLost(s) && ChecksHold(s) && !LateExit(s, h, a)
    ensures NoneLost(Step(s, h, a)) && ChecksHold(Step(s, h, a))
  {
    DeathStep(s, h, a);
    var d := s.harts[h].pid;
    var e, t := ExitOf(s, d), Step(s, h, a);
    forall p | 0 <= p < NPROC && t.procs[p].status == Blocked && t.procs[p].why.ForChild?
      ensures !ZombieAwaited(t, p, t.procs[p].why.target)
    {
      NewSleepers(s, h, a, p);
      ExitZombies(s, d, p, t.procs[p].why.target);
      assert s.procs[d].parent != Child(p);
      assert ZombieAwaited(t, p, t.procs[p].why.target) == ZombieAwaited(e, p, t.procs[p].why.target);
    }
    forall g | g in t.harts && t.harts[g].Checked?
      ensures !ZombieAwaited(t, t.harts[g].pid, t.harts[g].target)
    {
      assert g != h && t.harts[g] == s.harts[g];
      ExitZombies(s, d, t.harts[g].pid, t.harts[g].target);
      assert ZombieAwaited(t, t.harts[g].pid, t.harts[g].target) == ZombieAwaited(e, t.harts[g].pid, t.harts[g].target);
    }
  }

  /** Exactly the deaths a check has missed break it: when the parent then blocks, its wake-up is lost. */
  lemma ChecksBrokenIff(s: Sys, h: Hart)
    requires Inv(s) && Enabled(s, h, Exit) && NoneLost(s) && ChecksHold(s)
    ensures ChecksHold(Step(s, h, Exit)) <==> !DiesUnseen(s, s.harts[h].pid)
  {
    var d, t := s.harts[h].pid, Step(s, h, Exit);
    if DiesUnseen(s, d) {
      var g :| g in s.harts && s.harts[g].Checked? && Awaited(s, s.harts[g].pid, s.harts[g].target, d);
      ExitZombies(s, d, s.harts[g].pid, s.harts[g].target);
      assert t.harts[g] == s.harts[g];
      assert ZombieAwaited(t, s.harts[g].pid, s.harts[g].target) == ZombieAwaited(ExitOf(s, d), s.harts[g].pid,
        s.harts[g].target);
    } else {
      DeathKeeps(s, h, Exit);
    }
  }

  /** Blocking loses a wake-up exactly when the check no longer holds. */
  lemma BlockLosesIff(s: Sys, h: Hart)
    requires Inv(s) && Enabled(s, h, WaitBlock) && NoneLost(s)
    ensures NoneLost(Step(s, h, WaitBlock)) <==> !ZombieAwaited(s, s.harts[h].pid, s.harts[h].target)
  {
    var p, target, t := s.harts[h].pid, s.harts[h].target, Step(s, h, WaitBlock);
    SameProcs(s, t, p, target);
    forall q | 0 <= q < NPROC && q != p && t.procs[q].status == Blocked && t.procs[q].why.ForChild?
      ensures !ZombieAwaited(t, q, t.procs[q].why.target)
    {
      SameProcs(s, t, q, t.procs[q].why.target);
    }
  }

  lemma SameProcs(s: Sys, t: Sys, p: Pid, target: int)
    requires |t.procs| == |s.procs|
    requires forall c :: 0 <= c < |s.procs| ==>
      (t.procs[c].status == Zombie <==> s.procs[c].status == Zombie) && t.procs[c].parent == s.procs[c].parent
    ensures ZombieAwaited(t, p, target) <==> ZombieAwaited(s, p, target)
  {
    forall c | 0 <= c < |s.procs|
      ensures Awaited(t, p, target, c) <==> Awaited(s, p, target, c)
    {
    }
  }

  // ---------------------------------------------------------------- runs

  /** In runs without a late exit no wake-up is ever lost. */
  lemma {:induction false} NoLostWakeup(states: seq<Sys>, moves: seq<Move>, i: nat)
    requires Run(states, moves) && i < |states|
    requires forall n :: 0 <= n < i ==> !LateExit(states[n], moves[n].hart, moves[n].action)
    ensures NoneLost(states[i]) && ChecksHold(states[i])
  {
    if i > 0 {
      NoLostWakeup(states, moves, i - 1);
      RunInv(states, moves, i - 1);
      if Dies(states[i - 1], moves[i - 1].hart, moves[i - 1].action) {
        DeathKeeps(states[i - 1], moves[i - 1].hart, moves[i - 1].action);
      } else {
        NonDeathKeeps(states[i - 1], moves[i - 1].hart, moves[i - 1].action);
      }
    }
  }

  /** With a single hart there are no late exits, so wait is free of lost wake-ups. */
  lemma {:induction false} OneHartLosesNone(states: seq<Sys>, moves: seq<Move>, i: nat, h: Hart)
    requires Run(states, moves) && i < |states| && states[0].harts.Keys == {h}
    ensures NoneLost(states[i]) && ChecksHold(states[i]) && states[i].harts.Keys == {h}
  {
    if i > 0 {
      OneHartLosesNone(states, moves, i - 1, h);
      RunInv(states, moves, i - 1);
      var s, a := states[i - 1], moves[i - 1].action;
      assert moves[i - 1].hart == h;
      KeysKept(s, h, a);
      if Dies(s, h, a) {
        DeathKeeps(s, h, a);
      } else {
        NonDeathKeeps(s, h, a);
      }
    }
  }

  lemma KeysKept(s: Sys, h: Hart, a: Action)
    requires Enabled(s, h, a)
    ensures Step(s, h, a).harts.Keys == s.harts.Keys
  {
  }

  // ---------------------------------------------------------------- a run that loses one

  function Slots(): (procs: seq<Proc>)
    ensures |procs| == NPROC && procs[0] == Proc(Ready, Orphan, 0, Nothing)
    ensures forall i :: 1 <= i < NPROC ==> procs[i] == Proc(Free, Orphan, 0, Nothing)
  {
    [Proc(Ready, Orphan, 0, Nothing)] + seq(NPROC - 1, _ => Proc(Free, Orphan, 0, Nothing))
  }

  function Boot(): Sys {
    Sys(Slots(), [0], seq(NSEM, _ => Sem(false, 0, [])), map[0 := Idle, 1 := Idle])
  }

  /** A run, one step longer. */
  lemma Extend(states: seq<Sys>, moves: seq<Move>, h: Hart, a: Action) returns (ss: seq<Sys>, ms: seq<Move>)
    requires Run(states, moves) && Enabled(states[|moves|], h, a) && Orderly(states[|moves|], h, a)
    ensures Run(ss, ms) && ss[|ms|] == Step(states[|moves|], h, a)
  {
    ss, ms := states + [Step(states[|moves|], h, a)], moves + [Move(h, a)];
    forall n | 0 <= n < |ms|
      ensures Enabled(ss[n], ms[n].hart, ms[n].action) && Orderly(ss[n], ms[n].hart, ms[n].action)
      ensures ss[n + 1] == Step(ss[n], ms[n].hart, ms[n].action)
    {
    }
  }

  /** The processes and harts after process 0 forked process 1 and both run. */
  ghost predicate BothRun(s: Sys) {
    && Shape(s) && s.ready == [] && s.harts == map[0 := Exec(0), 1 := Exec(1)]
    && s.procs[0].status == Running && s.procs[0].parent == Orphan
    && s.procs[1].status == Running && s.procs[1].parent == Child(0)
    && (forall i :: 2 <= i < NPROC ==> s.procs[i].status == Free && s.procs[i].parent == Orphan)
    && (forall j :: 0 <= j < NSEM ==> s.sems[j] == Sem(false, 0, []))
  }

  lemma ForkFromOne(s: Sys)
    requires Shape(s) && s.harts == map[0 := Exec(0), 1 := Idle] && s.ready == []
    requires s.procs == Slots()[0 := Proc(Running, Orphan, 0, Nothing)]
    requires forall j :: 0 <= j < NSEM ==> s.sems[j] == Sem(false, 0, [])
    ensures Enabled(s, 0, Fork) && Enabled(Step(s, 0, Fork), 1, Dispatch)
    ensures BothRun(Step(Step(s, 0, Fork), 1, Dispatch))
  {
    assert s.procs[0].status == Running && s.procs[1].status == Free;
    var c := FirstFree(s.procs, 0);
    assert c == 1;
    var t := Step(s, 0, Fork);
    assert t.ready == [1];
  }

  lemma ReachBothRun() returns (states: seq<Sys>, moves: seq<Move>)
    ensures Run(states, moves) && BothRun(states[|moves|])
  {
    states, moves := Booted();
    ForkFromOne(states[|moves|]);
    states, moves := Extend(states, moves, 0, Fork);
    states, moves := Extend(states, moves, 1, Dispatch);
  }

  lemma Booted() returns (states: seq<Sys>, moves: seq<Move>)
    ensures Run(states, moves) && Shape(states[|moves|])
    ensures var s := states[|moves|];
      && s.harts == map[0 := Exec(0), 1 := Idle] && s.ready == []
      && s.procs == Slots()[0 := Proc(Running, Orphan, 0, Nothing)]
      && forall j :: 0 <= j < NSEM ==> s.sems[j] == Sem(false, 0, [])
  {
    var s0 := Boot();
    assert Init(s0);
    states, moves := Extend([s0], [], 0, Dispatch);
  }

  lemma SearchThenDeath(s: Sys)
    requires BothRun(s)
    ensures Enabled(s, 0, Wait(-1)) && Enabled(Step(s, 0, Wait(-1)), 1, Exit)
    ensures var u := Step(Step(s, 0, Wait(-1)), 1, Exit);
      && Orderly(Step(s, 0, Wait(-1)), 1, Exit) && Enabled(u, 0, WaitBlock) && Asleep(Step(u, 0, WaitBlock))
  {
    var t := Step(s, 0, Wait(-1));
    assert t == Goto(s, 0, Checked(0, -1));
    var u := Step(t, 1, Exit);
    assert u == Goto(SetStatus(t, 1, Zombie), 1, Idle);
  }

  /** The child is dead, the parent sleeps for it, and every hart idles over an empty queue. */
  ghost predicate Asleep(s: Sys) {
    && Shape(s) && s.harts == map[0 := Idle, 1 := Idle] && s.ready == []
    && s.procs[0].status == Blocked && Awaited(s, 0, -1, 1) && s.procs[1].status == Zombie && !NoneLost(s)
  }

  lemma NothingMoves(s: Sys)
    requires Asleep(s)
    ensures forall h, a :: !Enabled(s, h, a)
  {
  }

  /**
   Two harts: the parent finds no dead child, the child exits, the parent blocks.  From then on no step
   is possible at all: the parent sleeps for good and the machine never shuts down.
   */
  lemma LostWakeup() returns (states: seq<Sys>, moves: seq<Move>)
    ensures Run(states, moves)
    ensures !NoneLost(states[|moves|])
    ensures forall h, a :: !Enabled(states[|moves|], h, a)
  {
    states, moves := ReachBothRun();
    SearchThenDeath(states[|moves|]);
    states, moves := Extend(states, moves, 0, Wait(-1));
    states, moves := Extend(states, moves, 1, Exit);
    states, moves := Extend(states, moves, 0, WaitBlock);
    NothingMoves(states[|moves|]);
  }

  // ---------------------------------------------------------------- a run that ends in two queues

  lemma SleepOnNewSem(s: Sys)
    requires BothRun(s)
    ensures Enabled(s, 0, SemNew(0)) && Enabled(Step(s, 0, SemNew(0)), 0, SemP(0))
    ensures var t := Step(Step(s, 0, SemNew(0)), 0, SemP(0));
      && Shape(t) && t.harts == map[0 := Idle, 1 := Exec(1)] && t.ready == [] && t.sems[0].queue == [0]
      && t.procs[0].status == Blocked && t.procs[0].parent == Orphan && t.procs[1] == s.procs[1]
  {
    assert FirstUnused(s.sems, 0) == 0;
    var u := Step(s, 0, SemNew(0));
    assert u.sems[0] == Sem(true, 0, []);
  }

  /**
   The parent makes a semaphore and sleeps on it, the child exits: the parent is in the ready queue and in the
   semaphore's queue at once.
   */
  lemma TwoQueues() returns (states: seq<Sys>, moves: seq<Move>)
    ensures Run(states, moves) && Enabled(states[|moves|], 1, Exit)
    ensures var t := Step(states[|moves|], 1, Exit); 0 in t.ready && |t.sems| == NSEM && 0 in t.sems[0].queue && !Inv(t)
  {
    states, moves := ReachBothRun();
    SleepOnNewSem(states[|moves|]);
    states, moves := Extend(states, moves, 0, SemNew(0));
    states, moves := Extend(states, moves, 0, SemP(0));
    RunInv(states, moves, |moves|);
    ExitWakesSleeper(states[|moves|]);
  }

  lemma ExitWakesSleeper(s: Sys)
    requires Inv(s) && s.harts == map[0 := Idle, 1 := Exec(1)] && s.ready == [] && s.sems[0].queue == [0]
    requires s.procs[0].status == Blocked && s.procs[0].parent == Orphan && s.procs[1].parent == Child(0)
    requires Enabled(s, 1, Exit)
    ensures var t := Step(s, 1, Exit); 0 in t.ready && |t.sems| == NSEM && 0 in t.sems[0].queue && !Inv(t)
  {
    assert s.sems[0].queue[0] == 0;
    assert ParentOnSemaphore(s, 1);
    ExitKeepsIff(s, 1);
  }
}
