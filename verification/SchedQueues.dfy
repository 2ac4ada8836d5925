/** Queue discipline: what every step of the scheduler keeps about the ready queue and the semaphore queues. */
module SchedQueues {
  import opened Config
  import opened Sequences
  import opened Sched

  predicate Active(st: HartState) {
    st.Exec? || st.Checked?
  }

  predicate OnHart(harts: map<Hart, HartState>, p: Pid) {
    exists h :: h in harts && Active(harts[h]) && harts[h].pid == p
  }

  /** The ready queue holds READY processes, once each, none of them running. */
  predicate ReadyOk(s: Sys)
    requires Shape(s)
  {
    && Distinct(s.ready)
    && forall i :: 0 <= i < |s.ready| ==> s.procs[s.ready[i]].status == Ready && !OnHart(s.harts, s.ready[i])
  }

  /** A semaphore's queue holds processes BLOCKED on that semaphore, once each. */
  predicate SemOk(s: Sys, j: nat)
    requires Shape(s) && j < NSEM
  {
    && Distinct(s.sems[j].queue)
    && (!s.sems[j].inUse ==> s.sems[j].queue == [])
    && forall i :: 0 <= i < |s.sems[j].queue| ==>
         s.procs[s.sems[j].queue[i]].status == Blocked && s.procs[s.sems[j].queue[i]].why == ForSem(j)
  }

  predicate SemsOk(s: Sys)
    requires Shape(s)
  {
    forall j :: 0 <= j < NSEM ==> SemOk(s, j)
  }

  predicate HartsOk(s: Sys)
    requires Shape(s)
  {
    && (forall h :: h in s.harts && Active(s.harts[h]) ==>
          s.procs[s.harts[h].pid].status == Ready || s.procs[s.harts[h].pid].status == Running)
    && (forall g, h ::
          g in s.harts && h in s.harts && Active(s.harts[g]) && Active(s.harts[h]) && g != h ==>
            s.harts[g].pid != s.harts[h].pid)
  }

  /** A BLOCKED process waits for a child or is queued on the semaphore it waits for. */
  predicate Justified(why: Why, sems: seq<Sem>, p: Pid) {
    why.ForChild? || (why.ForSem? && why.sid < |sems| && p in sems[why.sid].queue)
  }

  predicate BlockedOk(s: Sys)
    requires Shape(s)
  {
    forall p :: 0 <= p < NPROC && s.procs[p].status == Blocked ==> Justified(s.procs[p].why, s.sems, p)
  }

  predicate TicksOk(s: Sys) {
    forall p :: 0 <= p < |s.procs| ==> s.procs[p].ticks < TIME_SLICE_LEN
  }

  predicate Inv(s: Sys) {
    Shape(s) && ReadyOk(s) && SemsOk(s) && HartsOk(s) && BlockedOk(s) && TicksOk(s)
  }

  lemma InitInv(s: Sys)
    requires Init(s)
    ensures Inv(s)
  {
    forall i | 0 <= i < |s.ready|
      ensures s.procs[s.ready[i]].status == Ready
    {
      assert s.ready[i] in s.ready;
    }
  }

  // ---------------------------------------------------------------- two ways into the ready queue

  /** The process of hart h goes to the end of the ready queue and the hart to the scheduler. */
  lemma Retire(s: Sys, h: Hart, ticks: nat)
    requires Inv(s) && h in s.harts && s.harts[h].Exec? && ticks < TIME_SLICE_LEN
    ensures var p := s.harts[h].pid;
      p !in s.ready &&
      Inv(Goto(s.(procs := s.procs[p := Proc(Ready, s.procs[p].parent, ticks, Nothing)], ready := s.ready + [p]), h,
               Idle))
  {
    var p := s.harts[h].pid;
    assert OnHart(s.harts, p);
    var t := Goto(s.(procs := s.procs[p := Proc(Ready, s.procs[p].parent, ticks, Nothing)], ready := s.ready + [p]), h,
                  Idle);
    assert forall q: Pid :: OnHart(t.harts, q) ==> OnHart(s.harts, q);
    assert !OnHart(t.harts, p);
    forall j | 0 <= j < NSEM
      ensures SemOk(t, j)
    {
      assert SemOk(s, j);
    }
  }

  /** A BLOCKED process that is in no semaphore queue any more joins the ready queue. */
  lemma Wake(s: Sys, p: Pid)
    requires Shape(s) && ReadyOk(s) && SemsOk(s) && HartsOk(s) && TicksOk(s)
    requires p < NPROC && s.procs[p].status == Blocked
    requires forall q ::
      0 <= q < NPROC && q != p && s.procs[q].status == Blocked ==> Justified(s.procs[q].why, s.sems, q)
    requires forall j :: 0 <= j < NSEM ==> p !in s.sems[j].queue
    ensures p !in s.ready && Inv(SetStatus(s, p, Ready).(ready := s.ready + [p]))
  {
    var t := SetStatus(s, p, Ready).(ready := s.ready + [p]);
    assert !OnHart(s.harts, p);
    forall j | 0 <= j < NSEM
      ensures SemOk(t, j)
    {
      assert SemOk(s, j);
    }
  }

  /** A hart drops its process, which takes on a status outside both queues. */
  lemma Abandon(s: Sys, h: Hart, st: Status, why: Why)
    requires Inv(s) && h in s.harts && Active(s.harts[h])
    requires st == Zombie || (st == Blocked && why.ForChild?)
    ensures var p := s.harts[h].pid;
      Inv(Goto(s.(procs := s.procs[p := s.procs[p].(status := st, why := why)]), h, Idle))
  {
    var p := s.harts[h].pid;
    var t := Goto(s.(procs := s.procs[p := s.procs[p].(status := st, why := why)]), h, Idle);
    assert OnHart(s.harts, p);
    assert forall q: Pid :: OnHart(t.harts, q) ==> OnHart(s.harts, q);
    forall j | 0 <= j < NSEM
      ensures SemOk(t, j)
    {
      assert SemOk(s, j);
    }
  }

  // ---------------------------------------------------------------- every action

  lemma ForkKeeps(s: Sys, h: Hart)
    requires Inv(s) && Enabled(s, h, Fork)
    ensures Inv(Step(s, h, Fork))
  {
    var c := FirstFree(s.procs, 0);
    assert c !in s.ready;
    var t := Step(s, h, Fork);
    assert t.procs == s.procs[c := Proc(Ready, Child(s.harts[h].pid), s.procs[c].ticks, Nothing)];
    assert !OnHart(s.harts, c);
    forall j | 0 <= j < NSEM
      ensures SemOk(t, j)
    {
      assert SemOk(s, j);
    }
  }

  lemma InsertsAtEnd(s: Sys, p: Pid)
    requires p < |s.procs| && p !in s.ready
    ensures Insert(SetStatus(s, p, Ready), p) == SetStatus(s, p, Ready).(ready := s.ready + [p])
  {
    var once := SetStatus(s, p, Ready);
    assert SetStatus(once, p, Ready).procs == once.procs;
  }

  lemma YieldKeeps(s: Sys, h: Hart)
    requires Inv(s) && Enabled(s, h, Yield)
    ensures Inv(Step(s, h, Yield))
  {
    Retire(s, h, s.procs[s.harts[h].pid].ticks);
    InsertsAtEnd(s, s.harts[h].pid);
  }

  lemma TickKeeps(s: Sys, h: Hart)
    requires Inv(s) && Enabled(s, h, Tick)
    ensures Inv(Step(s, h, Tick))
  {
    var p := s.harts[h].pid;
    if s.procs[p].ticks + 1 >= TIME_SLICE_LEN {
      Retire(s, h, 0);
      InsertsAtEnd(s.(procs := s.procs[p := s.procs[p].(ticks := 0)]), p);
      assert s.procs[p := s.procs[p].(ticks := 0)][p := Proc(Ready, s.procs[p].parent, 0, Nothing)]
          == s.procs[p := Proc(Ready, s.procs[p].parent, 0, Nothing)];
    } else {
      var t := Step(s, h, Tick);
      forall j | 0 <= j < NSEM
        ensures SemOk(t, j)
      {
        assert SemOk(s, j);
      }
    }
  }

  lemma ExecImageKeeps(s: Sys, h: Hart)
    requires Inv(s) && Enabled(s, h, ExecImage)
    ensures Inv(Step(s, h, ExecImage))
  {
    var t := Step(s, h, ExecImage);
    forall j | 0 <= j < NSEM
      ensures SemOk(t, j)
    {
      assert SemOk(s, j);
    }
  }

  lemma SemNewKeeps(s: Sys, h: Hart, init: int)
    requires Inv(s) && Enabled(s, h, SemNew(init))
    ensures Inv(Step(s, h, SemNew(init)))
  {
    var t, i := Step(s, h, SemNew(init)), FirstUnused(s.sems, 0);
    forall j | 0 <= j < NSEM
      ensures SemOk(t, j)
    {
      assert SemOk(s, j);
    }
    if i < NSEM {
      assert SemOk(s, i);
    }
  }

  lemma SemMember(s: Sys, j: nat, p: Pid)
    requires Shape(s) && SemsOk(s) && j < NSEM && p in s.sems[j].queue
    ensures p < NPROC && s.procs[p].status == Blocked && s.procs[p].why == ForSem(j)
  {
    assert SemOk(s, j);
    var i :| 0 <= i < |s.sems[j].queue| && s.sems[j].queue[i] == p;
  }

  lemma ReadyMember(s: Sys, p: Pid)
    requires Shape(s) && ReadyOk(s) && p in s.ready
    ensures p < NPROC && s.procs[p].status == Ready && !OnHart(s.harts, p)
  {
    var i :| 0 <= i < |s.ready| && s.ready[i] == p;
  }

  /** A change of one semaphore's value alone. */
  lemma ValueMoves(s: Sys, sid: nat, value: int)
    requires Inv(s) && sid < NSEM
    ensures Inv(s.(sems := s.sems[sid := s.sems[sid].(value := value)]))
  {
    var t := s.(sems := s.sems[sid := s.sems[sid].(value := value)]);
    forall j | 0 <= j < NSEM
      ensures SemOk(t, j)
    {
      assert SemOk(s, j);
    }
    forall q | 0 <= q < NPROC && t.procs[q].status == Blocked
      ensures Justified(t.procs[q].why, t.sems, q)
    {
      assert Justified(s.procs[q].why, s.sems, q);
    }
  }

  lemma JoinSem(s: Sys, h: Hart, sid: nat)
    requires Inv(s) && h in s.harts && s.harts[h].Exec? && sid < NSEM && s.sems[sid].inUse
    ensures var p := s.harts[h].pid;
      SemsOk(Goto(Block(s.(sems := s.sems[sid := s.sems[sid].(queue := s.sems[sid].queue + [p])]), p, ForSem(sid)), h,
                  Idle))
  {
    var p := s.harts[h].pid;
    var t := Goto(Block(s.(sems := s.sems[sid := s.sems[sid].(queue := s.sems[sid].queue + [p])]), p, ForSem(sid)), h,
                  Idle);
    forall j | 0 <= j < NSEM
      ensures SemOk(t, j)
    {
      assert SemOk(s, j);
      assert p !in s.sems[j].queue;
    }
  }

  lemma SemPKeeps(s: Sys, h: Hart, sid: nat)
    requires Inv(s) && Enabled(s, h, SemP(sid)) && !BadSem(s, sid)
    ensures Inv(Step(s, h, SemP(sid)))
  {
    var t, p := Step(s, h, SemP(sid)), s.harts[h].pid;
    if s.sems[sid].value > 0 {
      ValueMoves(s, sid, s.sems[sid].value - 1);
    } else {
      JoinSem(s, h, sid);
      assert OnHart(s.harts, p);
      assert forall q: Pid :: OnHart(t.harts, q) ==> OnHart(s.harts, q);
      forall q | 0 <= q < NPROC && t.procs[q].status == Blocked
        ensures Justified(t.procs[q].why, t.sems, q)
      {
        if q != p {
          assert Justified(s.procs[q].why, s.sems, q);
        }
      }
    }
  }

  lemma SemVKeeps(s: Sys, h: Hart, sid: nat)
    requires Inv(s) && Enabled(s, h, SemV(sid)) && !BadSem(s, sid)
    ensures Inv(Step(s, h, SemV(sid)))
  {
    var sem := s.sems[sid];
    assert SemOk(s, sid);
    if sem.queue == [] {
      var t := Step(s, h, SemV(sid));
      forall j | 0 <= j < NSEM
        ensures SemOk(t, j)
      {
        assert SemOk(s, j);
      }
    } else {
      var p := sem.queue[0];
      var u := s.(sems := s.sems[sid := sem.(queue := sem.queue[1..])]);
      Unqueue(s, sid);
      Wake(u, p);
    }
  }

  lemma Unqueue(s: Sys, sid: nat)
    requires Inv(s) && sid < NSEM && s.sems[sid].queue != []
    ensures var sem := s.sems[sid]; var p := sem.queue[0];
      var u := s.(sems := s.sems[sid := sem.(queue := sem.queue[1..])]);
      && Shape(u) && ReadyOk(u) && SemsOk(u) && HartsOk(u) && TicksOk(u) && s.procs[p].status == Blocked
      && (forall q :: 0 <= q < NPROC && q != p && u.procs[q].status == Blocked ==> Justified(u.procs[q].why, u.sems, q))
      && (forall j :: 0 <= j < NSEM ==> p !in u.sems[j].queue)
  {
    var sem := s.sems[sid];
    var p := sem.queue[0];
    var u := s.(sems := s.sems[sid := sem.(queue := sem.queue[1..])]);
    assert SemOk(s, sid);
    forall j | 0 <= j < NSEM
      ensures SemOk(u, j) && p !in u.sems[j].queue
    {
      assert SemOk(s, j);
    }
    forall q | 0 <= q < NPROC && q != p && u.procs[q].status == Blocked
      ensures Justified(u.procs[q].why, u.sems, q)
    {
      assert Justified(s.procs[q].why, s.sems, q);
      assert sem.queue == [p] + sem.queue[1..];
    }
  }

  lemma ExitKeeps(s: Sys, h: Hart)
    requires Inv(s) && h in s.harts && s.harts[h].Exec? && !ParentOnSemaphore(s, s.harts[h].pid)
    ensures Inv(Goto(ExitOf(s, s.harts[h].pid), h, Idle))
  {
    var p := s.harts[h].pid;
    Abandon(s, h, Zombie, Nothing);
    var u := Goto(SetStatus(s, p, Zombie), h, Idle);
    var parent := s.procs[p].parent;
    if parent.Child? && u.procs[parent.of].status == Blocked {
      Wake(u, parent.of);
      var t := SetStatus(u, parent.of, Ready);
      assert SetStatus(t, parent.of, Ready) == t;
    }
  }

  lemma DispatchKeeps(s: Sys, h: Hart)
    requires Inv(s) && Enabled(s, h, Dispatch)
    ensures Inv(Step(s, h, Dispatch))
  {
    var t, p := Step(s, h, Dispatch), s.ready[0];
    forall i | 0 <= i < |t.ready|
      ensures t.procs[t.ready[i]].status == Ready && !OnHart(t.harts, t.ready[i])
    {
      assert t.ready[i] == s.ready[i + 1];
    }
    forall j | 0 <= j < NSEM
      ensures SemOk(t, j)
    {
      assert SemOk(s, j);
    }
    assert !OnHart(s.harts, p);
  }

  lemma StepKeeps(s: Sys, h: Hart, a: Action)
    requires Inv(s) && Enabled(s, h, a) && Orderly(s, h, a)
    ensures Inv(Step(s, h, a))
  {
    match a
    case Fork => ForkKeeps(s, h);
    case Yield => YieldKeeps(s, h);
    case Tick => TickKeeps(s, h);
    case ExecImage => ExecImageKeeps(s, h);
    case SemNew(init) => SemNewKeeps(s, h, init);
    case SemP(sid) => if BadSem(s, sid) { ExitKeeps(s, h); } else { SemPKeeps(s, h, sid); }
    case SemV(sid) => if BadSem(s, sid) { ExitKeeps(s, h); } else { SemVKeeps(s, h, sid); }
    case Wait(target) => HartMoves(s, h, Step(s, h, a).harts[h]);
    case WaitBlock => Abandon(s, h, Blocked, ForChild(s.harts[h].target));
    case Exit => ExitKeeps(s, h);
    case Dispatch => DispatchKeeps(s, h);
    case Shutdown => HartMoves(s, h, Halted);
  }

  lemma HartMoves(s: Sys, h: Hart, st: HartState)
    requires Inv(s) && h in s.harts
    requires Active(st) ==> Active(s.harts[h]) && st.pid == s.harts[h].pid
    ensures Inv(Goto(s, h, st)) && (st == s.harts[h] ==> Goto(s, h, st) == s)
  {
    var t := Goto(s, h, st);
    assert forall q: Pid :: OnHart(t.harts, q) ==> OnHart(s.harts, q);
    forall j | 0 <= j < NSEM
      ensures SemOk(t, j)
    {
      assert SemOk(s, j);
    }
  }

  // ---------------------------------------------------------------- runs

  lemma {:induction false} RunInv(states: seq<Sys>, moves: seq<Move>, i: nat)
    requires Run(states, moves) && i < |states|
    ensures Inv(states[i])
  {
    if i == 0 {
      InitInv(states[0]);
    } else {
      RunInv(states, moves, i - 1);
      StepKeeps(states[i - 1], moves[i - 1].hart, moves[i - 1].action);
    }
  }

  /** The queue a process sits in, if any: the ready queue or one of the semaphores. */
  predicate InQueue(s: Sys, q: int, p: Pid) {
    if q == -1 then p in s.ready else 0 <= q < |s.sems| && p in s.sems[q].queue
  }

  /**
   In every reachable state no process is in two queues or twice in one, a process in the ready queue
   is READY, one queued on a semaphore is BLOCKED, and a process on a hart is in no queue.
   */
  lemma QueueDiscipline(states: seq<Sys>, moves: seq<Move>, i: nat, p: Pid, q: int)
    requires Run(states, moves) && i < |states| && InQueue(states[i], q, p)
    ensures forall r :: InQueue(states[i], r, p) ==> r == q
    ensures p < |states[i].procs| && states[i].procs[p].status == (if q == -1 then Ready else Blocked)
    ensures !OnHart(states[i].harts, p)
    ensures Distinct(states[i].ready) && forall j :: 0 <= j < |states[i].sems| ==> Distinct(states[i].sems[j].queue)
  {
    RunInv(states, moves, i);
    var s := states[i];
    if q == -1 {
      ReadyMember(s, p);
    } else {
      SemMember(s, q, p);
      assert forall h :: h in s.harts && Active(s.harts[h]) ==> s.harts[h].pid != p;
    }
    forall r | InQueue(s, r, p)
      ensures r == q
    {
      if r == -1 {
        ReadyMember(s, p);
      } else {
        SemMember(s, r, p);
      }
    }
    forall j | 0 <= j < NSEM
      ensures Distinct(s.sems[j].queue)
    {
      assert SemOk(s, j);
    }
  }

  /**
   An exit keeps the queue discipline exactly when the parent is not queued on a semaphore: otherwise
   the parent becomes READY and joins the ready queue while the semaphore still holds it.
   */
  lemma ExitKeepsIff(s: Sys, h: Hart)
    requires Inv(s) && Enabled(s, h, Exit)
    ensures Inv(Step(s, h, Exit)) <==> !ParentOnSemaphore(s, s.harts[h].pid)
  {
    var p := s.harts[h].pid;
    if ParentOnSemaphore(s, p) {
      var j :| 0 <= j < NSEM && s.procs[p].parent.of in s.sems[j].queue;
      var parent := s.procs[p].parent.of;
      assert SemOk(s, j);
      var i :| 0 <= i < |s.sems[j].queue| && s.sems[j].queue[i] == parent;
      var t := Step(s, h, Exit);
      assert p != parent;
      assert t.sems == s.sems && t.procs[parent].status == Ready;
      assert Shape(t) ==> !SemOk(t, j);
    } else {
      ExitKeeps(s, h);
    }
  }

  /** A machine that shuts down has no process left that could run. */
  lemma ShutdownOnlyWhenDone(states: seq<Sys>, moves: seq<Move>, i: nat)
    requires Run(states, moves) && i < |moves| && moves[i].action.Shutdown?
    ensures AllDone(states[i]) && states[i].ready == []
    ensures forall h :: h in states[i].harts ==> !Active(states[i].harts[h])
    ensures forall j :: 0 <= j < NSEM ==> states[i].sems[j].queue == []
    ensures states[i + 1] == states[i].(harts := states[i].harts[moves[i].hart := Halted])
  {
    RunInv(states, moves, i);
    var s := states[i];
    forall j | 0 <= j < NSEM
      ensures s.sems[j].queue == []
    {
      if s.sems[j].queue != [] {
        SemMember(s, j, s.sems[j].queue[0]);
      }
    }
  }
}
