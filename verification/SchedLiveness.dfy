/** Semaphore conservation and order, and bounded waiting in the ready queue, over every run. */
module SchedLiveness {
  import opened Sched
  import opened SchedQueues

  // ---------------------------------------------------------------- semaphores

  /** What a step of the system does to one semaphore. */
  datatype SemAct = DoP(pid: Pid) | DoV | Neither

  function SemNext(a: Sem, act: SemAct): Sem {
    match act
    case DoP(p) => if a.value > 0 then a.(value := a.value - 1) else a.(queue := a.queue + [p])
    case DoV => if a.queue == [] then a.(value := a.value + 1) else a.(queue := a.queue[1..])
    case Neither => a
  }

  function ActOn(s: Sys, m: Move, sid: nat): SemAct {
    if m.action == SemP(sid) && m.hart in s.harts && s.harts[m.hart].Exec? then DoP(s.harts[m.hart].pid)
    else if m.action == SemV(sid) then DoV else Neither
  }

  function CountP(acts: seq<SemAct>): nat {
    if acts == [] then 0 else CountP(acts[..|acts| - 1]) + if acts[|acts| - 1].DoP? then 1 else 0
  }

  function CountV(acts: seq<SemAct>): nat {
    if acts == [] then 0 else CountV(acts[..|acts| - 1]) + if acts[|acts| - 1].DoV? then 1 else 0
  }

  ghost predicate SemHistory(sems: seq<Sem>, acts: seq<SemAct>) {
    |sems| == |acts| + 1 && forall n :: 0 <= n < |acts| ==> sems[n + 1] == SemNext(sems[n], acts[n])
  }

  /** The processes put to sleep, and those woken, in order. */
  ghost function Sleepers(sems: seq<Sem>, acts: seq<SemAct>): seq<Pid>
    requires |sems| == |acts| + 1
    decreases |acts|
  {
    if acts == [] then [] else
      var n := |acts| - 1;
      Sleepers(sems[..n + 1], acts[..n]) + if acts[n].DoP? && sems[n].value <= 0 then [acts[n].pid] else []
  }

  ghost function Woken(sems: seq<Sem>, acts: seq<SemAct>): seq<Pid>
    requires |sems| == |acts| + 1
    decreases |acts|
  {
    if acts == [] then [] else
      var n := |acts| - 1;
      Woken(sems[..n + 1], acts[..n]) + if acts[n].DoV? && sems[n].queue != [] then [sems[n].queue[0]] else []
  }

  lemma {:induction false} HistoryConserves(sems: seq<Sem>, acts: seq<SemAct>)
    requires SemHistory(sems, acts)
    ensures var a, b := sems[0], sems[|acts|];
      && b.inUse == a.inUse
      && a.value - |a.queue| + CountV(acts) == b.value - |b.queue| + CountP(acts)
      && a.queue + Sleepers(sems, acts) == Woken(sems, acts) + b.queue
    decreases |acts|
  {
    if acts != [] {
      var n := |acts| - 1;
      HistoryConserves(sems[..n + 1], acts[..n]);
      assert sems[..n + 1][0] == sems[0] && sems[..n + 1][n] == sems[n];
      OrderKept(sems[0].queue, Sleepers(sems[..n + 1], acts[..n]), Woken(sems[..n + 1], acts[..n]), sems[n], acts[n]);
    }
  }

  /** One P appends to the sleepers and the queue; one V moves the head of the queue to the woken. */
  lemma OrderKept(start: seq<Pid>, slept: seq<Pid>, woken: seq<Pid>, c: Sem, act: SemAct)
    requires start + slept == woken + c.queue
    ensures start + (slept + if act.DoP? && c.value <= 0 then [act.pid] else [])
         == (woken + if act.DoV? && c.queue != [] then [c.queue[0]] else []) + SemNext(c, act).queue
  {
    if act.DoP? && c.value <= 0 {
      assert start + (slept + [act.pid]) == (start + slept) + [act.pid] == woken + (c.queue + [act.pid]);
    } else if act.DoV? && c.queue != [] {
      assert c.queue == [c.queue[0]] + c.queue[1..];
      assert woken + c.queue == (woken + [c.queue[0]]) + c.queue[1..];
      assert slept + [] == slept;
    } else {
      assert slept + [] == slept && woken + [] == woken;
    }
  }

  lemma {:induction false} HistoryNonNegative(sems: seq<Sem>, acts: seq<SemAct>)
    requires SemHistory(sems, acts) && sems[0].value >= 0 && (sems[0].queue != [] ==> sems[0].value == 0)
    ensures sems[|acts|].value >= 0 && (sems[|acts|].queue != [] ==> sems[|acts|].value == 0)
    decreases |acts|
  {
    if acts != [] {
      HistoryNonNegative(sems[..|acts|], acts[..|acts| - 1]);
    }
  }

  /** Every step of the system is one P, one V or nothing to a semaphore that exists. */
  lemma SemStep(s: Sys, m: Move, sid: nat)
    requires Enabled(s, m.hart, m.action) && sid < NSEM && s.sems[sid].inUse
    ensures var t := Step(s, m.hart, m.action); sid < |t.sems| && t.sems[sid] == SemNext(s.sems[sid], ActOn(s, m, sid))
  {
  }

  ghost function SemStates(states: seq<Sys>, i: nat, j: nat, sid: nat): (r: seq<Sem>)
    requires i <= j < |states| && forall n :: i <= n <= j ==> sid < |states[n].sems|
    ensures |r| == j - i + 1 && forall n :: 0 <= n <= j - i ==> r[n] == states[i + n].sems[sid]
  {
    seq(j - i + 1, n requires 0 <= n <= j - i => states[i + n].sems[sid])
  }

  ghost function SemActs(states: seq<Sys>, moves: seq<Move>, i: nat, j: nat, sid: nat): (r: seq<SemAct>)
    requires i <= j < |states| && j <= |moves|
    ensures |r| == j - i && forall n :: 0 <= n < j - i ==> r[n] == ActOn(states[i + n], moves[i + n], sid)
  {
    seq(j - i, n requires 0 <= n < j - i => ActOn(states[i + n], moves[i + n], sid))
  }

  lemma {:induction false} StaysInUse(states: seq<Sys>, moves: seq<Move>, i: nat, n: nat, sid: nat)
    requires Run(states, moves) && i <= n < |states| && sid < NSEM
    requires |states[i].sems| == NSEM && states[i].sems[sid].inUse
    ensures |states[n].sems| == NSEM && states[n].sems[sid].inUse
    ensures n < |moves| ==>
      |states[n + 1].sems| == NSEM &&
      states[n + 1].sems[sid] == SemNext(states[n].sems[sid], ActOn(states[n], moves[n], sid))
    decreases n - i
  {
    RunInv(states, moves, n);
    if i < n {
      StaysInUse(states, moves, i, n - 1, sid);
    }
    if n < |moves| {
      RunInv(states, moves, n + 1);
      SemStep(states[n], moves[n], sid);
    }
  }

  /**
   Conservation: over any stretch of any run every V adds one to value minus queue length, every P
   takes one away, and sleepers are woken in the order in which they went to sleep.
   */
  lemma SemConservation(states: seq<Sys>, moves: seq<Move>, i: nat, j: nat, sid: nat)
    requires Run(states, moves) && i <= j <= |moves| && sid < NSEM && |states[i].sems| == NSEM &&
      states[i].sems[sid].inUse
    ensures forall n :: i <= n <= j ==> sid < |states[n].sems|
    ensures var sems, acts := SemStates(states, i, j, sid), SemActs(states, moves, i, j, sid);
      var a, b := states[i].sems[sid], states[j].sems[sid];
      && a.value - |a.queue| + CountV(acts) == b.value - |b.queue| + CountP(acts)
      && a.queue + Sleepers(sems, acts) == Woken(sems, acts) + b.queue
      && (a.value >= 0 && (a.queue != [] ==> a.value == 0) ==> b.value >= 0 && (b.queue != [] ==> b.value == 0))
  {
    forall n | i <= n <= j
      ensures |states[n].sems| == NSEM
      ensures n < |moves| ==>
        |states[n + 1].sems| == NSEM &&
        states[n + 1].sems[sid] == SemNext(states[n].sems[sid], ActOn(states[n], moves[n], sid))
    {
      StaysInUse(states, moves, i, n, sid);
    }
    var sems, acts := SemStates(states, i, j, sid), SemActs(states, moves, i, j, sid);
    assert SemHistory(sems, acts);
    HistoryConserves(sems, acts);
    if sems[0].value >= 0 && (sems[0].queue != [] ==> sems[0].value == 0) {
      HistoryNonNegative(sems, acts);
    }
  }

  // ---------------------------------------------------------------- bounded waiting

  function Count(bs: seq<bool>): (n: nat)
    ensures n <= |bs|
  {
    if bs == [] then 0 else Count(bs[..|bs| - 1]) + if bs[|bs| - 1] then 1 else 0
  }

  lemma {:induction false} CountMonotone(a: seq<bool>, b: seq<bool>)
    requires |a| == |b| && forall n :: 0 <= n < |a| && a[n] ==> b[n]
    ensures Count(a) <= Count(b)
  {
    if a != [] {
      CountMonotone(a[..|a| - 1], b[..|b| - 1]);
    }
  }

  /** A dispatch takes the head of the queue; any other step leaves the queue alone or adds at its end. */
  predicate QueueNext(q: seq<Pid>, dispatch: bool, r: seq<Pid>) {
    if dispatch then q != [] && r == q[1..] else q <= r
  }

  ghost predicate QueueTrace(qs: seq<seq<Pid>>, ds: seq<bool>) {
    |qs| == |ds| + 1 && forall n :: 0 <= n < |ds| ==> QueueNext(qs[n], ds[n], qs[n + 1])
  }

  lemma {:induction false} PlaceAfter(qs: seq<seq<Pid>>, ds: seq<bool>, k: nat)
    requires QueueTrace(qs, ds)
    requires k < |qs[0]| && Count(ds) <= k
    ensures k - Count(ds) < |qs[|ds|]| && qs[|ds|][k - Count(ds)] == qs[0][k]
    decreases |ds|
  {
    if ds != [] {
      var n := |ds| - 1;
      PlaceAfter(qs[..n + 1], ds[..n], k);
      assert QueueNext(qs[n], ds[n], qs[n + 1]);
    }
  }

  lemma Placed(qs: seq<seq<Pid>>, ds: seq<bool>, first: seq<Pid>, last: seq<Pid>, k: nat)
    requires QueueTrace(qs, ds) && qs[0] == first && qs[|ds|] == last
    requires k < |first| && Count(ds) <= k
    ensures k - Count(ds) < |last| && last[k - Count(ds)] == first[k]
  {
    PlaceAfter(qs, ds, k);
  }

  ghost predicate CreditTrace(cs: seq<int>, ts: seq<bool>, ds: seq<bool>) {
    && |cs| == |ts| + 1 == |ds| + 1
    && forall n :: 0 <= n < |ts| ==>
         cs[n + 1] + (if ts[n] then 1 else 0) <= cs[n] + (if ds[n] then TIME_SLICE_LEN else 0)
  }

  lemma {:induction false} CreditSpent(cs: seq<int>, ts: seq<bool>, ds: seq<bool>)
    requires CreditTrace(cs, ts, ds)
    ensures Count(ts) + cs[|ts|] <= TIME_SLICE_LEN * Count(ds) + cs[0]
    decreases |ts|
  {
    if ts != [] {
      var n := |ts| - 1;
      CreditSpent(cs[..n + 1], ts[..n], ds[..n]);
    }
  }

  function Dispatches(moves: seq<Move>): (r: seq<bool>)
    ensures |r| == |moves| && forall n :: 0 <= n < |moves| ==> r[n] == moves[n].action.Dispatch?
  {
    seq(|moves|, n requires 0 <= n < |moves| => moves[n].action.Dispatch?)
  }

  function By(moves: seq<Move>, h: Hart, a: Action): (r: seq<bool>)
    ensures |r| == |moves| && forall n :: 0 <= n < |moves| ==> r[n] == (moves[n] == Move(h, a))
  {
    seq(|moves|, n requires 0 <= n < |moves| => moves[n] == Move(h, a))
  }

  lemma QueueStep(s: Sys, h: Hart, a: Action)
    requires Enabled(s, h, a)
    ensures QueueNext(s.ready, a.Dispatch?, Step(s, h, a).ready)
    ensures a.Dispatch? ==> h in Step(s, h, a).harts && Step(s, h, a).harts[h] == Exec(s.ready[0])
  {
  }

  /** A process at place k never moves back: after d <= k dispatches by any harts it is at place k - d. */
  lemma NeverMovesBack(states: seq<Sys>, moves: seq<Move>, i: nat, j: nat, k: nat)
    requires Run(states, moves) && i <= j <= |moves| && k < |states[i].ready|
    requires Count(Dispatches(moves[i..j])) <= k
    ensures var d := Count(Dispatches(moves[i..j]));
      k - d < |states[j].ready| && states[j].ready[k - d] == states[i].ready[k]
  {
    var qs, ds := RunQueues(states, moves, i, j);
    Placed(qs, ds, states[i].ready, states[j].ready, k);
  }

  /** The dispatch that follows k others puts the process from place k on a hart. */
  lemma DispatchedInTurn(states: seq<Sys>, moves: seq<Move>, i: nat, j: nat, k: nat)
    requires Run(states, moves) && i <= j < |moves| && k < |states[i].ready|
    requires Count(Dispatches(moves[i..j])) == k && moves[j].action.Dispatch?
    ensures moves[j].hart in states[j + 1].harts && states[j + 1].harts[moves[j].hart] == Exec(states[i].ready[k])
  {
    NeverMovesBack(states, moves, i, j, k);
    RunStep(states, moves, j);
  }

  lemma RunQueues(states: seq<Sys>, moves: seq<Move>, i: nat, j: nat) returns (qs: seq<seq<Pid>>, ds: seq<bool>)
    requires Run(states, moves) && i <= j <= |moves|
    ensures QueueTrace(qs, ds) && ds == Dispatches(moves[i..j]) && |ds| == j - i
    ensures qs[0] == states[i].ready && qs[j - i] == states[j].ready
  {
    qs, ds := ReadyStates(states, i, j), Dispatches(moves[i..j]);
    forall n | 0 <= n < |ds|
      ensures QueueNext(qs[n], ds[n], qs[n + 1])
    {
      RunStep(states, moves, i + n);
    }
  }

  ghost function ReadyStates(states: seq<Sys>, i: nat, j: nat): (r: seq<seq<Pid>>)
    requires i <= j < |states|
    ensures |r| == j - i + 1 && forall n :: 0 <= n <= j - i ==> r[n] == states[i + n].ready
  {
    seq(j - i + 1, n requires 0 <= n <= j - i => states[i + n].ready)
  }

  lemma RunStep(states: seq<Sys>, moves: seq<Move>, n: nat)
    requires Run(states, moves) && n < |moves|
    ensures QueueNext(states[n].ready, moves[n].action.Dispatch?, states[n + 1].ready)
    ensures moves[n].action.Dispatch? ==>
      states[n].ready != [] && moves[n].hart in states[n + 1].harts &&
        states[n + 1].harts[moves[n].hart] == Exec(states[n].ready[0])
  {
    QueueStep(states[n], moves[n].hart, moves[n].action);
  }

  /** Timer ticks the process on hart h may still take before rrsched retires it. */
  function Credit(s: Sys, h: Hart): int {
    if h in s.harts && s.harts[h].Exec? && s.harts[h].pid < |s.procs|
    then TIME_SLICE_LEN - s.procs[s.harts[h].pid].ticks else 0
  }

  lemma CreditStep(s: Sys, g: Hart, a: Action, h: Hart)
    requires Inv(s) && Enabled(s, g, a) && Orderly(s, g, a)
    ensures Credit(Step(s, g, a), h) + (if g == h && a.Tick? then 1 else 0)
         <= Credit(s, h) + (if g == h && a.Dispatch? then TIME_SLICE_LEN else 0)
  {
    if g == h {
      CreditOwn(s, h, a);
    } else {
      StepKeeps(s, g, a);
      CreditOther(s, g, a, h);
    }
  }

  lemma CreditOwn(s: Sys, h: Hart, a: Action)
    requires Inv(s) && Enabled(s, h, a) && Orderly(s, h, a)
    ensures Credit(Step(s, h, a), h) + (if a.Tick? then 1 else 0)
         <= Credit(s, h) + (if a.Dispatch? then TIME_SLICE_LEN else 0)
  {
    StepKeeps(s, h, a);
  }

  lemma CreditOther(s: Sys, g: Hart, a: Action, h: Hart)
    requires Inv(s) && Enabled(s, g, a) && g != h && Shape(Step(s, g, a))
    ensures Credit(Step(s, g, a), h) == Credit(s, h)
  {
    if h in s.harts && s.harts[h].Exec? {
      TicksKept(s, g, a, h);
    }
  }

  /** No step of another hart changes the tick count of a running process. */
  lemma TicksKept(s: Sys, g: Hart, a: Action, h: Hart)
    requires Inv(s) && Enabled(s, g, a) && h in s.harts && s.harts[h].Exec? && g != h
    ensures Step(s, g, a).procs[s.harts[h].pid].ticks == s.procs[s.harts[h].pid].ticks
  {
  }

  /** While a process waits at place k, no hart takes more than TIME_SLICE_LEN * (k + 1) timer ticks. */
  lemma BoundedWaiting(states: seq<Sys>, moves: seq<Move>, i: nat, j: nat, k: nat, h: Hart)
    requires Run(states, moves) && i <= j <= |moves| && k < |states[i].ready|
    requires Count(Dispatches(moves[i..j])) <= k
    ensures Count(By(moves[i..j], h, Tick)) <= TIME_SLICE_LEN * (k + 1)
  {
    var part := moves[i..j];
    RunCredits(states, moves, i, j, h);
    CreditSpent(Credits(states, i, j, h), By(part, h, Tick), By(part, h, Dispatch));
    CountMonotone(By(part, h, Dispatch), Dispatches(part));
    CreditRange(states, moves, i, h);
    CreditRange(states, moves, j, h);
  }

  ghost function Credits(states: seq<Sys>, i: nat, j: nat, h: Hart): (r: seq<int>)
    requires i <= j < |states|
    ensures |r| == j - i + 1 && forall n :: 0 <= n <= j - i ==> r[n] == Credit(states[i + n], h)
  {
    seq(j - i + 1, n requires 0 <= n <= j - i => Credit(states[i + n], h))
  }

  lemma RunCredits(states: seq<Sys>, moves: seq<Move>, i: nat, j: nat, h: Hart)
    requires Run(states, moves) && i <= j <= |moves|
    ensures CreditTrace(Credits(states, i, j, h), By(moves[i..j], h, Tick), By(moves[i..j], h, Dispatch))
  {
    forall n | i <= n < j
      ensures Credit(states[n + 1], h) + (if moves[n] == Move(h, Tick) then 1 else 0)
           <= Credit(states[n], h) + (if moves[n] == Move(h, Dispatch) then TIME_SLICE_LEN else 0)
    {
      RunCredit(states, moves, n, h);
    }
    var cs := Credits(states, i, j, h);
    forall n | 0 <= n < j - i
      ensures cs[n + 1] + (if By(moves[i..j], h, Tick)[n] then 1 else 0)
           <= cs[n] + (if By(moves[i..j], h, Dispatch)[n] then TIME_SLICE_LEN else 0)
    {
      assert moves[i..j][n] == moves[i + n];
    }
  }

  lemma RunCredit(states: seq<Sys>, moves: seq<Move>, n: nat, h: Hart)
    requires Run(states, moves) && n < |moves|
    ensures Credit(states[n + 1], h) + (if moves[n] == Move(h, Tick) then 1 else 0)
         <= Credit(states[n], h) + (if moves[n] == Move(h, Dispatch) then TIME_SLICE_LEN else 0)
  {
    RunInv(states, moves, n);
    CreditStep(states[n], moves[n].hart, moves[n].action, h);
  }

  lemma CreditRange(states: seq<Sys>, moves: seq<Move>, n: nat, h: Hart)
    requires Run(states, moves) && n < |states|
    ensures 0 <= Credit(states[n], h) <= TIME_SLICE_LEN
  {
    RunInv(states, moves, n);
  }
}
