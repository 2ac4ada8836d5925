/**
 The scheduler as the C code has it: one queue_next link per process, shared by the ready queue and
 every semaphore queue, relinked in place.  Each operation performs exactly the step of the state
 machine in module Sched that bears its name.
 */
module SchedKernel {
  import opened Config
  import opened Sequences
  import opened Sched
  import opened SchedQueues
  import opened SchedScan

  datatype Link = Null | To(pid: Pid)

  /** A row of sem_table. */
  datatype SemRow = SemRow(inUse: bool, value: int, waitQueue: Link)

  /** Following queue_next from `head` visits `q` and ends. */
  predicate Chain(head: Link, next: seq<Link>, q: seq<Pid>)
    decreases |q|
  {
    if q == [] then head == Null
    else head == To(q[0]) && q[0] < |next| && Chain(next[q[0]], next, q[1..])
  }

  /** Relinking a process that is not in the queue leaves the queue alone. */
  lemma {:induction false} ChainFrame(head: Link, next: seq<Link>, q: seq<Pid>, p: Pid, l: Link)
    requires Chain(head, next, q) && p < |next| && p !in q
    ensures Chain(head, next[p := l], q)
    decreases |q|
  {
    if q != [] {
      ChainFrame(next[q[0]], next, q[1..], p, l);
    }
  }

  lemma {:induction false} ChainAt(head: Link, next: seq<Link>, q: seq<Pid>, i: nat)
    requires Chain(head, next, q) && i < |q|
    ensures q[i] < |next| && next[q[i]] == if i + 1 < |q| then To(q[i + 1]) else Null
    ensures head == To(q[0])
    decreases |q|
  {
    if i > 0 {
      ChainAt(next[q[0]], next, q[1..], i - 1);
    } else if |q| > 1 {
      assert Chain(next[q[0]], next, q[1..]);
    }
  }

  /** The last process is linked to a new one whose own link is cleared. */
  lemma {:induction false} ChainAppend(head: Link, next: seq<Link>, q: seq<Pid>, p: Pid)
    requires Chain(head, next, q) && q != [] && Distinct(q) && p < |next| && p !in q
    ensures q[|q| - 1] < |next|
    ensures Chain(head, next[q[|q| - 1] := To(p)][p := Null], q + [p])
    decreases |q|
  {
    ChainAt(head, next, q, |q| - 1);
    var next' := next[q[|q| - 1] := To(p)][p := Null];
    if |q| == 1 {
      assert (q + [p])[1..] == [p];
      assert Chain(Null, next', []);
      assert Chain(To(p), next', [p]);
    } else {
      ChainAppend(next[q[0]], next, q[1..], p);
      assert (q + [p])[1..] == q[1..] + [p];
    }
  }

  class Kernel {
    const procs: array<Proc>        // `why` is bookkeeping
    const next: array<Link>         // queue_next
    const semTable: array<SemRow>
    var readyHead: Link             // ready_queue_head
    var harts: map<Hart, HartState> // current[]
    ghost var abs: Sys

    ghost predicate SemsMatch()
      reads this, semTable, next
    {
      && semTable.Length == |abs.sems|
      && forall j :: 0 <= j < semTable.Length ==> SemMatches(semTable[j], abs.sems[j], next[..])
    }

    static ghost predicate SemMatches(row: SemRow, sem: Sem, links: seq<Link>) {
      row.inUse == sem.inUse && row.value == sem.value && Chain(row.waitQueue, links, sem.queue)
    }

    ghost predicate Linked()
      reads this, procs, next, semTable
    {
      && procs.Length == next.Length == NPROC && semTable.Length == NSEM
      && abs.procs == procs[..] && abs.harts == harts
      && Chain(readyHead, next[..], abs.ready)
      && SemsMatch()
    }

    ghost predicate Valid()
      reads this, procs, next, semTable
    {
      Linked() && Inv(abs)
    }

    /** init_proc_pool on a machine with the given harts: all slots free, no semaphore in use, nothing queued. */
    constructor (cores: set<Hart>)
      ensures Valid() && Init(abs) && Packed(abs) && abs.ready == [] && harts.Keys == cores
      ensures fresh(procs) && fresh(next) && fresh(semTable)
      ensures forall i :: 0 <= i < NPROC ==> abs.procs[i] == Proc(Free, Orphan, 0, Nothing)
    {
      var slots := new Proc[NPROC](_ => Proc(Free, Orphan, 0, Nothing));
      var links := new Link[NPROC](_ => Null);
      var rows := new SemRow[NSEM](_ => SemRow(false, 0, Null));
      var idle := map h | h in cores :: Idle;
      procs, next, semTable, readyHead, harts := slots, links, rows, Null, idle;
      abs := Sys(slots[..], [], seq(NSEM, _ => Sem(false, 0, [])), idle);
      new;
      InitInv(abs);
    }

    /** load_user_program and insert_to_ready_queue at boot; `loaded` is false when alloc_process finds no slot. */
    method Load() returns (loaded: bool)
      requires Valid() && Init(abs)
      modifies this, procs, next
      ensures Valid() && Init(abs) && harts == old(harts)
      ensures (loaded <==> FirstFree(old(abs).procs, 0) < NPROC) && (old(Packed(abs)) ==> Packed(abs))
      ensures abs.ready == old(abs).ready + if loaded then [FirstFree(old(abs).procs, 0)] else []
    {
      var i := AllocSlot();
      if i == NPROC {
        return false;
      }
      assert i !in abs.ready;
      NeverInTwo(abs);
      ghost var before := abs;
      procs[i] := Proc(Ready, Orphan, 0, Nothing);
      abs := abs.(procs := abs.procs[i := procs[i]]);
      InsertToReadyQueue(i);
      LoadedInit(before, abs, i);
      InitInv(abs);
      return true;
    }

    /** insert_to_ready_queue, for a process that waits in no semaphore queue. */
    method InsertToReadyQueue(p: Pid)
      requires Linked() && p < NPROC
      requires QueuesApart(abs) && forall j :: 0 <= j < |abs.sems| ==> p !in abs.sems[j].queue
      modifies this, procs, next
      ensures Linked() && abs == Insert(old(abs), p)
    {
      if procs[p].status == Zombie || procs[p].status == Free {
        return;
      }
      if readyHead == Null {
        procs[p] := procs[p].(status := Ready, why := Nothing);
        SetLink(p, Null);
        readyHead := To(p);
        abs := Insert(abs, p);
        assert Chain(Null, next[..], []);
        assert abs.ready == [p];
        return;
      }
      var cur, found := ScanReady(p);
      if found {
        return;
      }
      ChainAppend(readyHead, next[..], abs.ready, p);
      assert cur in abs.ready;
      SemChainsFrame(cur, To(p), p, Null);
      ghost var linked := next[..][cur := To(p)][p := Null];
      next[cur] := To(p);
      procs[p] := procs[p].(status := Ready, why := Nothing);
      next[p] := Null;
      assert next[..] == linked;
      abs := Insert(abs, p);
    }

    /** The walk of insert_to_ready_queue: stops at p, or at the last process of the queue. */
    method ScanReady(p: Pid) returns (cur: Pid, found: bool)
      requires Linked() && readyHead != Null
      ensures abs.ready != [] && (found <==> p in abs.ready)
      ensures !found ==> cur == abs.ready[|abs.ready| - 1] && cur < NPROC
    {
      ghost var q := abs.ready;
      ChainAt(readyHead, next[..], q, 0);
      cur := readyHead.pid;
      ghost var i := 0;
      while next[cur] != Null
        invariant 0 <= i < |q| && cur == q[i] && cur < NPROC && p !in q[..i]
        decreases |q| - i
      {
        if cur == p {
          return cur, true;
        }
        ChainAt(readyHead, next[..], q, i);
        ChainAt(readyHead, next[..], q, i + 1);
        cur, i := next[cur].pid, i + 1;
      }
      ChainAt(readyHead, next[..], q, i);
      assert q == q[..i] + [cur];
      return cur, cur == p;
    }

    /** Two relinkings outside the semaphore queues leave them as they are. */
    lemma SemChainsFrame(a: Pid, la: Link, b: Pid, lb: Link)
      requires SemsMatch() && a < next.Length && b < next.Length
      requires forall j :: 0 <= j < |abs.sems| ==> a !in abs.sems[j].queue && b !in abs.sems[j].queue
      ensures forall j :: 0 <= j < |abs.sems| ==> SemMatches(semTable[j], abs.sems[j], next[..][a := la][b := lb])
    {
      forall j | 0 <= j < |abs.sems|
        ensures SemMatches(semTable[j], abs.sems[j], next[..][a := la][b := lb])
      {
        ChainFrame(semTable[j].waitQueue, next[..], abs.sems[j].queue, a, la);
        ChainFrame(semTable[j].waitQueue, next[..][a := la], abs.sems[j].queue, b, lb);
      }
    }

    /** proc->queue_next = l, for a process in no queue. */
    method SetLink(p: Pid, l: Link)
      requires Linked() ||
        (procs.Length == next.Length == NPROC && SemsMatch() && Chain(readyHead, next[..], abs.ready))
      requires p < next.Length && p !in abs.ready && forall j :: 0 <= j < |abs.sems| ==> p !in abs.sems[j].queue
      modifies next
      ensures next[..] == old(next[..])[p := l]
      ensures SemsMatch() && Chain(readyHead, next[..], abs.ready)
    {
      SemChainsFrame(p, l, p, l);
      ChainFrame(readyHead, next[..], abs.ready, p, l);
      ghost var links := next[..][p := l];
      next[p] := l;
      assert next[..] == links && links[p := l] == links;
    }

    /** The walk of do_semP to the end of a non-empty wait queue. */
    method LastWaiter(sid: nat) returns (cur: Pid)
      requires Linked() && sid < NSEM && semTable[sid].waitQueue != Null
      ensures sid < |abs.sems| && abs.sems[sid].queue != []
      ensures cur == abs.sems[sid].queue[|abs.sems[sid].queue| - 1] && cur < NPROC
    {
      ghost var q := abs.sems[sid].queue;
      var head := semTable[sid].waitQueue;
      assert SemMatches(semTable[sid], abs.sems[sid], next[..]);
      ChainAt(head, next[..], q, 0);
      cur := head.pid;
      ghost var i := 0;
      while next[cur] != Null
        invariant 0 <= i < |q| && cur == q[i] && cur < NPROC
        decreases |q| - i
      {
        ChainAt(head, next[..], q, i);
        ChainAt(head, next[..], q, i + 1);
        cur, i := next[cur].pid, i + 1;
      }
      ChainAt(head, next[..], q, i);
    }

    // -------------------------------------------------------------- system calls and interrupts

    /** sys_user_yield */
    method Yield(h: Hart)
      requires Valid() && Enabled(abs, h, Sched.Action.Yield)
      modifies this, procs, next
      ensures Valid() && abs == Step(old(abs), h, Sched.Action.Yield)
    {
      StepKeeps(abs, h, Sched.Action.Yield);
      var p := harts[h].pid;
      OutsideQueues(h);
      SetStatusTo(p, Ready);
      InsertToReadyQueue(p);
      GoIdle(h);
    }

    /** A process on a hart is in no queue. */
    lemma OutsideQueues(h: Hart)
      requires Valid() && h in abs.harts && Active(abs.harts[h])
      ensures var p := abs.harts[h].pid;
        p < NPROC && p !in abs.ready && forall j :: 0 <= j < |abs.sems| ==> p !in abs.sems[j].queue
      ensures QueuesApart(abs)
    {
      var p := abs.harts[h].pid;
      assert OnHart(abs.harts, p);
      forall j | 0 <= j < |abs.sems|
        ensures p !in abs.sems[j].queue
      {
        if p in abs.sems[j].queue {
          SemMember(abs, j, p);
        }
      }
      NeverInTwo(abs);
    }

    method SetStatusTo(p: Pid, st: Status)
      requires Linked() && p < NPROC
      modifies procs, this`abs
      ensures Linked() && abs == SetStatus(old(abs), p, st)
    {
      procs[p] := procs[p].(status := st, why := Nothing);
      abs := SetStatus(abs, p, st);
    }

    /** schedule() takes over: the hart leaves the process it ran. */
    method GoIdle(h: Hart)
      requires Linked()
      modifies this`harts, this`abs
      ensures Linked() && abs == Goto(old(abs), h, Idle)
    {
      harts := harts[h := Idle];
      abs := Goto(abs, h, Idle);
    }

    /** rrsched */
    method Tick(h: Hart)
      requires Valid() && Enabled(abs, h, Sched.Action.Tick)
      modifies this, procs, next
      ensures Valid() && abs == Step(old(abs), h, Sched.Action.Tick)
    {
      StepKeeps(abs, h, Sched.Action.Tick);
      var p := harts[h].pid;
      OutsideQueues(h);
      var t := procs[p].ticks + 1;
      if t >= TIME_SLICE_LEN {
        procs[p] := procs[p].(ticks := 0);
        abs := abs.(procs := abs.procs[p := abs.procs[p].(ticks := 0)]);
        SetStatusTo(p, Ready);
        InsertToReadyQueue(p);
        GoIdle(h);
      } else {
        procs[p] := procs[p].(ticks := t);
        abs := abs.(procs := abs.procs[p := abs.procs[p].(ticks := t)]);
      }
    }

    /** The process-table part of do_fork: alloc_process takes the first FREE slot. */
    method Fork(h: Hart) returns (child: Pid)
      requires Valid() && Enabled(abs, h, Sched.Action.Fork)
      modifies this, procs, next
      ensures Valid() && abs == Step(old(abs), h, Sched.Action.Fork)
      ensures child == FirstFree(old(abs).procs, 0)
    {
      StepKeeps(abs, h, Sched.Action.Fork);
      NeverInTwo(abs);
      child := AllocSlot();
      forall j | 0 <= j < |abs.sems|
        ensures child !in abs.sems[j].queue
      {
        if child in abs.sems[j].queue {
          SemMember(abs, j, child);
        }
      }
      var slot := Proc(Ready, Child(harts[h].pid), procs[child].ticks, Nothing);
      procs[child] := slot;
      abs := abs.(procs := abs.procs[child := slot]);
      InsertToReadyQueue(child);
    }

    method AllocSlot() returns (i: nat)
      requires Linked()
      ensures i == FirstFree(abs.procs, 0)
    {
      i := 0;
      while i < NPROC && procs[i].status != Free
        invariant 0 <= i <= NPROC && FirstFree(abs.procs, 0) == FirstFree(abs.procs, i)
      {
        i := i + 1;
      }
    }

    /** do_semNew: -1 when all semaphores are in use. */
    method SemNew(h: Hart, init: int) returns (sid: int)
      requires Valid() && Enabled(abs, h, Sched.Action.SemNew(init))
      modifies this`abs, semTable
      ensures Valid() && abs == Step(old(abs), h, Sched.Action.SemNew(init))
      ensures sid == if FirstUnused(old(abs).sems, 0) < NSEM then FirstUnused(old(abs).sems, 0) else -1
    {
      StepKeeps(abs, h, Sched.Action.SemNew(init));
      var i := 0;
      while i < NSEM && semTable[i].inUse
        invariant 0 <= i <= NSEM && FirstUnused(abs.sems, 0) == FirstUnused(abs.sems, i)
        invariant Linked() && abs == old(abs) && next[..] == old(next[..])
      {
        assert SemMatches(semTable[i], abs.sems[i], next[..]);
        i := i + 1;
      }
      if i == NSEM {
        return -1;
      }
      assert SemMatches(semTable[i], abs.sems[i], next[..]);
      SetSem(i, SemRow(true, init, Null), Sem(true, init, []));
      return i;
    }

    method SetSem(i: nat, row: SemRow, ghost sem: Sem)
      requires Linked() && i < NSEM && SemMatches(row, sem, next[..])
      modifies this`abs, semTable
      ensures Linked() && abs == old(abs).(sems := old(abs).sems[i := sem])
      ensures semTable[i] == row
    {
      forall j | 0 <= j < NSEM
        ensures SemMatches(semTable[j], abs.sems[j], next[..])
      {
      }
      semTable[i] := row;
      abs := abs.(sems := abs.sems[i := sem]);
    }

    /** do_semP */
    method SemP(h: Hart, sid: nat)
      requires Valid() && Enabled(abs, h, Sched.Action.SemP(sid)) && Orderly(abs, h, Sched.Action.SemP(sid))
      modifies this, procs, next, semTable
      ensures Valid() && abs == Step(old(abs), h, Sched.Action.SemP(sid))
    {
      StepKeeps(abs, h, Sched.Action.SemP(sid));
      var p := harts[h].pid;
      if sid >= NSEM {
        KillCurrent(h);
        return;
      }
      assert SemMatches(semTable[sid], abs.sems[sid], next[..]);
      if !semTable[sid].inUse {
        KillCurrent(h);
        return;
      }
      if semTable[sid].value > 0 {
        SetSem(sid, semTable[sid].(value := semTable[sid].value - 1), abs.sems[sid].(value := abs.sems[sid].value - 1));
        return;
      }
      Enqueue(h, sid);
      procs[p] := procs[p].(status := Blocked, why := ForSem(sid));
      abs := Block(abs, p, ForSem(sid));
      GoIdle(h);
    }

    /** The tail insertion of do_semP. */
    method Enqueue(h: Hart, sid: nat)
      requires Valid() && h in harts && Active(harts[h]) && sid < NSEM
      modifies this`abs, next, semTable
      ensures Linked()
      ensures var sem := old(abs).sems[sid];
        abs == old(abs).(sems := old(abs).sems[sid := sem.(queue := sem.queue + [harts[h].pid])])
    {
      var p := harts[h].pid;
      ghost var q := abs.sems[sid].queue;
      OutsideQueues(h);
      SetLink(p, Null);
      assert SemMatches(semTable[sid], abs.sems[sid], next[..]);
      if semTable[sid].waitQueue == Null {
        assert q == [];
        assert Chain(Null, next[..], []);
        assert Chain(To(p), next[..], [p]);
        SetSem(sid, semTable[sid].(waitQueue := To(p)), abs.sems[sid].(queue := q + [p]));
      } else {
        var last := LastWaiter(sid);
        AppendLink(sid, last, p);
      }
    }

    /** p->queue_next = current, for the last process p of one wait queue. */
    method AppendLink(sid: nat, last: Pid, p: Pid)
      requires Linked() && Inv(abs) && sid < NSEM && p < NPROC && next[p] == Null
      requires abs.sems[sid].queue != [] && last == abs.sems[sid].queue[|abs.sems[sid].queue| - 1] && last < NPROC
      requires p !in abs.ready && forall j :: 0 <= j < |abs.sems| ==> p !in abs.sems[j].queue
      modifies this`abs, next
      ensures Linked()
      ensures var sem := old(abs).sems[sid];
        abs == old(abs).(sems := old(abs).sems[sid := sem.(queue := sem.queue + [p])])
    {
      ghost var q, links := abs.sems[sid].queue, next[..][last := To(p)];
      assert SemMatches(semTable[sid], abs.sems[sid], next[..]) && SemOk(abs, sid);
      ChainAppend(semTable[sid].waitQueue, next[..], q, p);
      assert links[p := Null] == links;
      SemMember(abs, sid, last);
      ChainFrame(readyHead, next[..], abs.ready, last, To(p));
      forall j | 0 <= j < NSEM && j != sid
        ensures SemMatches(semTable[j], abs.sems[j], links)
      {
        assert SemMatches(semTable[j], abs.sems[j], next[..]);
        if last in abs.sems[j].queue {
          SemMember(abs, j, last);
        }
        ChainFrame(semTable[j].waitQueue, next[..], abs.sems[j].queue, last, To(p));
      }
      next[last] := To(p);
      assert next[..] == links;
      abs := abs.(sems := abs.sems[sid := abs.sems[sid].(queue := q + [p])]);
    }

    /** do_semV */
    method SemV(h: Hart, sid: nat)
      requires Valid() && Enabled(abs, h, Sched.Action.SemV(sid)) && Orderly(abs, h, Sched.Action.SemV(sid))
      modifies this, procs, next, semTable
      ensures Valid() && abs == Step(old(abs), h, Sched.Action.SemV(sid))
    {
      StepKeeps(abs, h, Sched.Action.SemV(sid));
      if sid >= NSEM {
        KillCurrent(h);
        return;
      }
      assert SemMatches(semTable[sid], abs.sems[sid], next[..]);
      if !semTable[sid].inUse {
        KillCurrent(h);
        return;
      }
      var row := semTable[sid].(value := semTable[sid].value + 1);
      if row.waitQueue == Null {
        assert abs.sems[sid].queue == [];
        SetSem(sid, row, abs.sems[sid].(value := abs.sems[sid].value + 1));
      } else {
        WakeFirst(sid);
      }
    }

    /** The first process of a wait queue goes to the ready queue; the value stays as it is. */
    method WakeFirst(sid: nat)
      requires Valid() && sid < NSEM && abs.sems[sid].inUse && abs.sems[sid].queue != []
      modifies this, procs, next, semTable
      ensures Linked()
      ensures var p, s := old(abs).sems[sid].queue[0], old(abs);
        abs == Insert(s.(sems := s.sems[sid := s.sems[sid].(queue := s.sems[sid].queue[1..])]), p)
    {
      assert SemMatches(semTable[sid], abs.sems[sid], next[..]);
      var p := semTable[sid].waitQueue.pid;
      assert p == abs.sems[sid].queue[0];
      Unqueue(abs, sid);
      NeverInTwo(abs);
      SetSem(sid, SemRow(true, semTable[sid].value, next[p]), abs.sems[sid].(queue := abs.sems[sid].queue[1..]));
      assert p !in abs.ready;
      SetLink(p, Null);
      InsertToReadyQueue(p);
    }

    /** sys_user_exit and kill_current_process */
    method KillCurrent(h: Hart)
      requires Valid() && Enabled(abs, h, Sched.Action.Exit) && Orderly(abs, h, Sched.Action.Exit)
      modifies this, procs, next
      ensures Valid() && abs == Step(old(abs), h, Sched.Action.Exit)
    {
      StepKeeps(abs, h, Sched.Action.Exit);
      var p := harts[h].pid;
      NeverInTwo(abs);
      var parent := procs[p].parent;
      SetStatusTo(p, Zombie);
      if parent.Child? && procs[parent.of].status == Blocked {
        SetStatusTo(parent.of, Ready);
        InsertToReadyQueue(parent.of);
      }
      GoIdle(h);
    }

    /** The dispatching branch of schedule(). */
    method Dispatch(h: Hart)
      requires Valid() && Enabled(abs, h, Sched.Action.Dispatch)
      modifies this, procs, next
      ensures Valid() && abs == Step(old(abs), h, Sched.Action.Dispatch)
    {
      StepKeeps(abs, h, Sched.Action.Dispatch);
      NeverInTwo(abs);
      ghost var q := abs.ready;
      var p := readyHead.pid;
      readyHead := next[p];
      abs := abs.(ready := q[1..]);
      assert p !in q[1..];
      forall j | 0 <= j < |abs.sems|
        ensures p !in abs.sems[j].queue
      {
        if p in abs.sems[j].queue {
          SemMember(old(abs), j, p);
        }
      }
      SetLink(p, Null);
      SetStatusTo(p, Running);
      harts := harts[h := Exec(p)];
      abs := Goto(abs, h, Exec(p));
    }

    /** The search of sys_user_wait: the process number it reports, -1 for a bad one, or none yet. */
    method WaitCheck(h: Hart, target: int) returns (done: bool, pid: int)
      requires Valid() && Enabled(abs, h, Wait(target))
      modifies this`harts, this`abs
      ensures Valid() && abs == Step(old(abs), h, Wait(target))
      ensures done <==>
        BadTarget(old(abs), old(harts[h].pid), target) || ZombieAwaited(old(abs), old(harts[h].pid), target)
      ensures done && BadTarget(old(abs), old(harts[h].pid), target) ==> pid == -1
      ensures done && !BadTarget(old(abs), old(harts[h].pid), target) ==>
        0 <= pid < NPROC && Awaited(old(abs), old(harts[h].pid), target, pid) && old(abs).procs[pid].status == Zombie
    {
      StepKeeps(abs, h, Wait(target));
      var p := harts[h].pid;
      if target == -1 {
        var i := FirstZombieChild(p);
        if i < NPROC {
          assert Awaited(abs, p, -1, i);
          return true, i;
        }
      } else if target < 0 || target >= NPROC || procs[target].parent != Child(p) {
        return true, -1;
      } else if procs[target].status == Zombie {
        assert Awaited(abs, p, target, target);
        return true, target;
      }
      assert !ZombieAwaited(abs, p, target);
      harts := harts[h := Checked(p, target)];
      abs := Goto(abs, h, Checked(p, target));
      return false, 0;
    }

    method FirstZombieChild(p: Pid) returns (i: nat)
      requires Linked()
      ensures i <= NPROC
      ensures i < NPROC ==> procs[i].parent == Child(p) && procs[i].status == Zombie
      ensures forall c :: 0 <= c < i ==> !(procs[c].parent == Child(p) && procs[c].status == Zombie)
    {
      i := 0;
      while i < NPROC && !(procs[i].parent == Child(p) && procs[i].status == Zombie)
        invariant 0 <= i <= NPROC
        invariant forall c :: 0 <= c < i ==> !(procs[c].parent == Child(p) && procs[c].status == Zombie)
      {
        i := i + 1;
      }
    }

    /** sys_user_wait after a fruitless search. */
    method WaitBlock(h: Hart)
      requires Valid() && Enabled(abs, h, Sched.Action.WaitBlock)
      modifies this, procs
      ensures Valid() && abs == Step(old(abs), h, Sched.Action.WaitBlock)
    {
      StepKeeps(abs, h, Sched.Action.WaitBlock);
      var p, target := harts[h].pid, harts[h].target;
      procs[p] := procs[p].(status := Blocked, why := ForChild(target));
      abs := Block(abs, p, ForChild(target));
      GoIdle(h);
    }

    /** all_process_done */
    method AllProcessDone() returns (done: bool)
      requires Linked()
      ensures done <==> AllDone(abs)
    {
      var i := 0;
      while i < NPROC
        invariant 0 <= i <= NPROC
        invariant forall c :: 0 <= c < i ==> procs[c].status == Free || procs[c].status == Zombie
      {
        if procs[i].status != Free && procs[i].status != Zombie {
          assert abs.procs[i] == procs[i];
          return false;
        }
        i := i + 1;
      }
      return true;
    }
  }

  predicate QueuesApart(s: Sys) {
    && Distinct(s.ready)
    && forall j, i :: 0 <= j < |s.sems| && 0 <= i < |s.sems[j].queue| ==> s.sems[j].queue[i] !in s.ready
  }

  lemma NeverInTwo(s: Sys)
    requires Inv(s)
    ensures QueuesApart(s)
  {
    forall j, i | 0 <= j < |s.sems| && 0 <= i < |s.sems[j].queue|
      ensures s.sems[j].queue[i] !in s.ready
    {
      SemMember(s, j, s.sems[j].queue[i]);
    }
  }

  /** One more process loaded at boot. */
  lemma LoadedInit(s: Sys, t: Sys, i: Pid)
    requires Init(s) && i < NPROC && i !in s.ready
    requires t == s.(procs := s.procs[i := Proc(Ready, Orphan, 0, Nothing)], ready := s.ready + [i])
    ensures Init(t)
  {
  }
}
