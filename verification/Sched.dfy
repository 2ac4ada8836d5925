/**
 Process scheduling: the ready queue, semaphores, wait and exit (kernel/sched.c, kernel/process.c,
 kernel/syscall.c, kernel/strap.c) as a state machine over any number of harts.

 A system call is one step, except that schedule() is a step of its own - it runs after the queue
 lock was released - and that sys_user_wait tests the children and marks the caller BLOCKED in two
 steps, as the C code does without a lock.  schedule() never returns to its caller, so a process
 that blocks goes on in user mode when it is dispatched again.
 */
module Sched {
  import opened Config

  const NSEM := 32
  const TIME_SLICE_LEN := 2

  type Pid = nat
  type Hart = nat

  datatype Status = Free | Ready | Running | Blocked | Zombie

  datatype Parent = Orphan | Child(of: Pid)

  /** What a BLOCKED process waits for; the kernel does not record it. */
  datatype Why = Nothing | ForChild(target: int) | ForSem(sid: nat)

  datatype Sem = Sem(inUse: bool, value: int, queue: seq<Pid>)

  datatype Proc = Proc(status: Status, parent: Parent, ticks: nat, why: Why)

  datatype HartState =
    | Exec(pid: Pid)                       // in user mode, or in a system call
    | Checked(pid: Pid, target: int)       // sys_user_wait found no ZOMBIE child, is about to block
    | Idle                                 // in the loop of schedule()
    | Halted

  datatype Sys = Sys(procs: seq<Proc>, ready: seq<Pid>, sems: seq<Sem>, harts: map<Hart, HartState>)

  datatype Action =
    | Fork
    | Yield
    | Tick
    | ExecImage                            // do_exec: the status becomes READY, the process goes on
    | SemNew(init: int)
    | SemP(sid: nat)
    | SemV(sid: nat)
    | Wait(target: int)
    | WaitBlock
    | Exit                                 // sys_user_exit, kill_current_process
    | Dispatch
    | Shutdown

  predicate Shape(s: Sys) {
    && |s.procs| == NPROC && |s.sems| == NSEM
    && (forall i :: 0 <= i < |s.ready| ==> s.ready[i] < NPROC)
    && (forall h :: h in s.harts && (s.harts[h].Exec? || s.harts[h].Checked?) ==> s.harts[h].pid < NPROC)
    && (forall j, i :: 0 <= j < NSEM && 0 <= i < |s.sems[j].queue| ==> s.sems[j].queue[i] < NPROC)
    && (forall i :: 0 <= i < NPROC && s.procs[i].parent.Child? ==> s.procs[i].parent.of < NPROC)
  }

  // ---------------------------------------------------------------- pieces of the steps

  function SetStatus(s: Sys, p: Pid, st: Status): Sys
    requires p < |s.procs|
  {
    s.(procs := s.procs[p := s.procs[p].(status := st, why := Nothing)])
  }

  function Block(s: Sys, p: Pid, why: Why): Sys
    requires p < |s.procs|
  {
    s.(procs := s.procs[p := s.procs[p].(status := Blocked, why := why)])
  }

  function Goto(s: Sys, h: Hart, st: HartState): Sys {
    s.(harts := s.harts[h := st])
  }

  /** insert_to_ready_queue */
  function Insert(s: Sys, p: Pid): Sys
    requires p < |s.procs|
  {
    if s.procs[p].status == Zombie || s.procs[p].status == Free || p in s.ready then s
    else SetStatus(s, p, Ready).(ready := s.ready + [p])
  }

  /** The end of sys_user_exit and kill_current_process: a BLOCKED parent is woken. */
  function ExitOf(s: Sys, p: Pid): Sys
    requires Shape(s) && p < NPROC
  {
    var dead := SetStatus(s, p, Zombie);
    var parent := s.procs[p].parent;
    if parent.Child? && dead.procs[parent.of].status == Blocked then
      Insert(SetStatus(dead, parent.of, Ready), parent.of)
    else dead
  }

  /** alloc_process takes the first FREE slot. */
  function FirstFree(procs: seq<Proc>, from: nat): (i: nat)
    requires from <= |procs|
    ensures from <= i <= |procs|
    ensures i < |procs| ==> procs[i].status == Free
    ensures forall j :: from <= j < i ==> procs[j].status != Free
    decreases |procs| - from
  {
    if from == |procs| || procs[from].status == Free then from else FirstFree(procs, from + 1)
  }

  function FirstUnused(sems: seq<Sem>, from: nat): (i: nat)
    requires from <= |sems|
    ensures from <= i <= |sems|
    ensures i < |sems| ==> !sems[i].inUse
    ensures forall j :: from <= j < i ==> sems[j].inUse
    decreases |sems| - from
  {
    if from == |sems| || !sems[from].inUse then from else FirstUnused(sems, from + 1)
  }

  predicate IsChild(s: Sys, c: Pid, p: Pid) {
    c < |s.procs| && s.procs[c].parent == Child(p)
  }

  /** A child whose death wait(target) by p would report. */
  predicate Awaited(s: Sys, p: Pid, target: int, c: Pid) {
    IsChild(s, c, p) && (target == -1 || target == c)
  }

  predicate ZombieAwaited(s: Sys, p: Pid, target: int) {
    exists c :: 0 <= c < |s.procs| && Awaited(s, p, target, c) && s.procs[c].status == Zombie
  }

  predicate BadTarget(s: Sys, p: Pid, target: int) {
    target != -1 && (target < 0 || target >= |s.procs| || !IsChild(s, target, p))
  }

  predicate BadSem(s: Sys, sid: nat) {
    sid >= |s.sems| || !s.sems[sid].inUse
  }

  predicate AllDone(s: Sys) {
    forall i :: 0 <= i < |s.procs| ==> s.procs[i].status == Free || s.procs[i].status == Zombie
  }

  // ---------------------------------------------------------------- the steps

  predicate Enabled(s: Sys, h: Hart, a: Action) {
    && Shape(s) && h in s.harts
    && match a
       case Dispatch => s.harts[h].Idle? && s.ready != []
       case Shutdown => s.harts[h].Idle? && s.ready == [] && AllDone(s)
       case WaitBlock => s.harts[h].Checked?
       case Fork => s.harts[h].Exec? && FirstFree(s.procs, 0) < NPROC
       case _ => s.harts[h].Exec?
  }

  function SemPStep(s: Sys, h: Hart, p: Pid, sid: nat): Sys
    requires Shape(s) && p < NPROC && !BadSem(s, sid)
  {
    var sem := s.sems[sid];
    if sem.value > 0 then s.(sems := s.sems[sid := sem.(value := sem.value - 1)])
    else Goto(Block(s.(sems := s.sems[sid := sem.(queue := sem.queue + [p])]), p, ForSem(sid)), h, Idle)
  }

  function SemVStep(s: Sys, sid: nat): Sys
    requires Shape(s) && !BadSem(s, sid)
  {
    var sem := s.sems[sid];
    if sem.queue == [] then s.(sems := s.sems[sid := sem.(value := sem.value + 1)])
    else Insert(s.(sems := s.sems[sid := sem.(queue := sem.queue[1..])]), sem.queue[0])
  }

  function Step(s: Sys, h: Hart, a: Action): Sys
    requires Enabled(s, h, a)
  {
    var st := s.harts[h];
    match a
    case Fork =>
      var c := FirstFree(s.procs, 0);
      Insert(s.(procs := s.procs[c := Proc(Ready, Child(st.pid), s.procs[c].ticks, Nothing)]), c)
    case Yield => Goto(Insert(SetStatus(s, st.pid, Ready), st.pid), h, Idle)
    case Tick =>
      var t := s.procs[st.pid].ticks + 1;
      if t >= TIME_SLICE_LEN then
        Goto(Insert(SetStatus(s.(procs := s.procs[st.pid := s.procs[st.pid].(ticks := 0)]), st.pid, Ready), st.pid), h,
             Idle)
      else s.(procs := s.procs[st.pid := s.procs[st.pid].(ticks := t)])
    case ExecImage => SetStatus(s, st.pid, Ready)
    case SemNew(init) =>
      var i := FirstUnused(s.sems, 0);
      if i < NSEM then s.(sems := s.sems[i := Sem(true, init, [])]) else s
    case SemP(sid) => if BadSem(s, sid) then Goto(ExitOf(s, st.pid), h, Idle) else SemPStep(s, h, st.pid, sid)
    case SemV(sid) => if BadSem(s, sid) then Goto(ExitOf(s, st.pid), h, Idle) else SemVStep(s, sid)
    case Wait(target) =>
      if BadTarget(s, st.pid, target) || ZombieAwaited(s, st.pid, target) then s
        else Goto(s, h, Checked(st.pid, target))
    case WaitBlock => Goto(Block(s, st.pid, ForChild(st.target)), h, Idle)
    case Exit => Goto(ExitOf(s, st.pid), h, Idle)
    case Dispatch => Goto(SetStatus(s, s.ready[0], Running).(ready := s.ready[1..]), h, Exec(s.ready[0]))
    case Shutdown => Goto(s, h, Halted)
  }

  // ---------------------------------------------------------------- runs

  ghost predicate Init(s: Sys) {
    && Shape(s)
    && (forall i ::
          0 <= i < NPROC ==>
          s.procs[i] == Proc(Free, Orphan, 0, Nothing) || s.procs[i] == Proc(Ready, Orphan, 0, Nothing))
    && (forall i :: 0 <= i < NPROC ==> (s.procs[i].status == Ready <==> i in s.ready))
    && (forall i, j :: 0 <= i < j < |s.ready| ==> s.ready[i] != s.ready[j])
    && (forall j :: 0 <= j < NSEM ==> s.sems[j] == Sem(false, 0, []))
    && (forall h :: h in s.harts ==> s.harts[h].Idle?)
  }

  datatype Move = Move(hart: Hart, action: Action)

  predicate Dies(s: Sys, h: Hart, a: Action) {
    a.Exit? || (a.SemP? && BadSem(s, a.sid)) || (a.SemV? && BadSem(s, a.sid))
  }

  /** sys_user_exit wakes a BLOCKED parent whatever it waits for; the queues survive only if that is not a semaphore. */
  predicate ParentOnSemaphore(s: Sys, p: Pid) {
    && p < |s.procs| && s.procs[p].parent.Child? && s.procs[p].parent.of < |s.procs|
    && exists j :: 0 <= j < |s.sems| && s.procs[p].parent.of in s.sems[j].queue
  }

  predicate Orderly(s: Sys, h: Hart, a: Action) {
    h in s.harts && (Dies(s, h, a) && s.harts[h].Exec? ==> !ParentOnSemaphore(s, s.harts[h].pid))
  }

  ghost predicate Run(states: seq<Sys>, moves: seq<Move>) {
    && |states| == |moves| + 1 && Init(states[0])
    && forall i :: 0 <= i < |moves| ==>
         && Enabled(states[i], moves[i].hart, moves[i].action)
         && Orderly(states[i], moves[i].hart, moves[i].action)
         && states[i + 1] == Step(states[i], moves[i].hart, moves[i].action)
  }
}
