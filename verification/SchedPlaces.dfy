/** Where every process is, in every state of every run: no process is ever forgotten. */
module SchedPlaces {
  import opened Config
  import opened Sequences
  import opened Sched
  import opened SchedQueues
  import opened SchedLiveness

  /** A READY process is in the ready queue or on a hart, a RUNNING one on a hart. */
  predicate HasPlace(s: Sys, p: Pid)
    requires p < |s.procs|
  {
    && (s.procs[p].status == Ready ==> p in s.ready || OnHart(s.harts, p))
    && (s.procs[p].status == Running ==> OnHart(s.harts, p))
  }

  predicate AllPlaced(s: Sys) {
    forall p :: 0 <= p < |s.procs| ==> HasPlace(s, p)
  }

  lemma StaysOnHart(s: Sys, t: Sys, h: Hart, p: Pid)
    requires OnHart(s.harts, p) && (forall g :: g in s.harts && g != h ==> g in t.harts && t.harts[g] == s.harts[g])
    requires h in s.harts && Active(s.harts[h]) && s.harts[h].pid == p ==>
      h in t.harts && Active(t.harts[h]) && t.harts[h].pid == p
    ensures OnHart(t.harts, p)
  {
    var g :| g in s.harts && Active(s.harts[g]) && s.harts[g].pid == p;
    assert g in t.harts && Active(t.harts[g]) && t.harts[g].pid == p;
  }

  lemma PlacedStep(s: Sys, h: Hart, a: Action, p: Pid)
    requires Inv(s) && AllPlaced(s) && Enabled(s, h, a) && Orderly(s, h, a) && p < NPROC
    requires |Step(s, h, a).procs| == NPROC
    ensures HasPlace(Step(s, h, a), p)
  {
    var t := Step(s, h, a);
    assert HasPlace(s, p);
    QueueStep(s, h, a);
    if OnHart(s.harts, p) {
      if Active(s.harts[h]) && s.harts[h].pid == p {
        OwnPlace(s, h, a);
      } else {
        StaysOnHart(s, t, h, p);
      }
    } else {
      OtherPlace(s, h, a, p);
    }
  }

  /** The process on the hart that takes the step. */
  lemma OwnPlace(s: Sys, h: Hart, a: Action)
    requires Inv(s) && Enabled(s, h, a) && Orderly(s, h, a) && Active(s.harts[h])
    requires |Step(s, h, a).procs| == NPROC
    ensures HasPlace(Step(s, h, a), s.harts[h].pid)
  {
    var t, p := Step(s, h, a), s.harts[h].pid;
    assert OnHart(s.harts, p);
    assert p !in s.ready;
    if h in t.harts && Active(t.harts[h]) && t.harts[h].pid == p {
      assert OnHart(t.harts, p);
    }
  }

  /** A process on no hart. */
  lemma OtherPlace(s: Sys, h: Hart, a: Action, p: Pid)
    requires Inv(s) && p < NPROC && HasPlace(s, p) && Enabled(s, h, a) && Orderly(s, h, a) && !OnHart(s.harts, p)
    requires |Step(s, h, a).procs| == NPROC
    ensures HasPlace(Step(s, h, a), p)
  {
    var t := Step(s, h, a);
    if a.Dispatch? && p == s.ready[0] {
      assert t.harts[h] == Exec(p);
    }
  }

  lemma {:induction false} RunPlaced(states: seq<Sys>, moves: seq<Move>, i: nat)
    requires Run(states, moves) && i < |states|
    ensures AllPlaced(states[i])
  {
    RunInv(states, moves, i);
    if i > 0 {
      RunInv(states, moves, i - 1);
      RunPlaced(states, moves, i - 1);
      forall p | 0 <= p < NPROC
        ensures HasPlace(states[i], p)
      {
        PlacedStep(states[i - 1], moves[i - 1].hart, moves[i - 1].action, p);
      }
    }
  }

  predicate InNoSem(s: Sys, p: Pid) {
    forall j :: 0 <= j < |s.sems| ==> p !in s.sems[j].queue
  }

  /**
   In every reachable state the status of a process says where it is: READY on a hart or in the ready queue but not
   both, RUNNING on a hart, BLOCKED in the queue of the semaphore it waits for or waiting for a child, and FREE or
   ZOMBIE in no queue and on no hart.
   */
  lemma WhereItIs(states: seq<Sys>, moves: seq<Move>, i: nat, p: Pid)
    requires Run(states, moves) && i < |states| && p < NPROC
    ensures var s := states[i];
      p < |s.procs| && match s.procs[p].status
        case Ready => (p in s.ready <==> !OnHart(s.harts, p)) && InNoSem(s, p)
        case Running => OnHart(s.harts, p) && p !in s.ready && InNoSem(s, p)
        case Blocked =>
          && !OnHart(s.harts, p) && p !in s.ready
          && forall j :: 0 <= j < |s.sems| ==> (p in s.sems[j].queue <==> s.procs[p].why == ForSem(j))
        case _ => !OnHart(s.harts, p) && p !in s.ready && InNoSem(s, p)
  {
    RunInv(states, moves, i);
    RunPlaced(states, moves, i);
    var s := states[i];
    assert HasPlace(s, p);
    if p in s.ready {
      ReadyMember(s, p);
    }
    forall j | 0 <= j < NSEM && p in s.sems[j].queue
      ensures s.procs[p].status == Blocked && s.procs[p].why == ForSem(j)
    {
      SemMember(s, j, p);
    }
    if s.procs[p].status == Blocked {
      assert Justified(s.procs[p].why, s.sems, p);
    }
  }

  /** Once every process is done, every idle hart can shut the machine down. */
  lemma ShutdownPossible(states: seq<Sys>, moves: seq<Move>, i: nat, h: Hart)
    requires Run(states, moves) && i < |states| && h in states[i].harts && states[i].harts[h].Idle?
    ensures AllDone(states[i]) ==> Enabled(states[i], h, Shutdown)
  {
    RunInv(states, moves, i);
    if states[i].ready != [] {
      ReadyMember(states[i], states[i].ready[0]);
    }
  }

  // ---------------------------------------------------------------- no READY process waits for ever

  lemma {:induction false} NthOf(ds: seq<bool>, k: nat) returns (n: nat)
    requires k < Count(ds)
    ensures n < |ds| && ds[n] && Count(ds[..n]) == k
    decreases |ds|
  {
    var m := |ds| - 1;
    if k < Count(ds[..m]) {
      n := NthOf(ds[..m], k);
      assert ds[..m][..n] == ds[..n];
    } else {
      n := m;
    }
  }

  lemma {:induction false} Pigeons(q: seq<nat>, n: nat)
    requires Distinct(q) && forall i :: 0 <= i < |q| ==> q[i] < n
    ensures |q| <= n
    decreases n
  {
    assert |q| > 0 ==> q[0] < n;
    if n > 0 && n - 1 in q {
      var i :| 0 <= i < |q| && q[i] == n - 1;
      WithoutMembers(q, i);
      Pigeons(Without(q, i), n - 1);
    } else if n > 0 {
      Pigeons(q, n - 1);
    }
  }

  ghost predicate DispatchedAt(states: seq<Sys>, moves: seq<Move>, n: nat, p: Pid) {
    && n < |moves| && n + 1 < |states| && moves[n].action.Dispatch?
    && moves[n].hart in states[n + 1].harts && states[n + 1].harts[moves[n].hart] == Exec(p)
    && p < |states[n + 1].procs| && states[n + 1].procs[p].status == Running
  }

  /**
   A READY process that is on no hart runs at the latest with the NPROC-th dispatch; until it does, no hart takes more
   than TIME_SLICE_LEN * NPROC timer ticks.
   */
  lemma ReadyRuns(states: seq<Sys>, moves: seq<Move>, i: nat, j: nat, p: Pid) returns (n: nat)
    requires Run(states, moves) && i <= j <= |moves| && p < NPROC && |states[i].procs| == NPROC
    requires states[i].procs[p].status == Ready && !OnHart(states[i].harts, p)
    ensures if i <= n < j then DispatchedAt(states, moves, n, p)
            else
              && Count(Dispatches(moves[i..j])) < NPROC
              && forall h :: Count(By(moves[i..j], h, Tick)) <= TIME_SLICE_LEN * NPROC
  {
    WhereItIs(states, moves, i, p);
    RunInv(states, moves, i);
    var k :| 0 <= k < |states[i].ready| && states[i].ready[k] == p;
    Pigeons(states[i].ready, NPROC);
    if Count(Dispatches(moves[i..j])) > k {
      n := TurnComes(states, moves, i, j, k);
    } else {
      n := j;
      forall h: Hart
        ensures Count(By(moves[i..j], h, Tick)) <= TIME_SLICE_LEN * NPROC
      {
        BoundedWaiting(states, moves, i, j, k, h);
      }
    }
  }

  lemma TurnComes(states: seq<Sys>, moves: seq<Move>, i: nat, j: nat, k: nat) returns (n: nat)
    requires Run(states, moves) && i <= j <= |moves| && k < |states[i].ready|
    requires Count(Dispatches(moves[i..j])) > k
    ensures i <= n < j && DispatchedAt(states, moves, n, states[i].ready[k])
  {
    var ds := Dispatches(moves[i..j]);
    var m := NthOf(ds, k);
    n := i + m;
    UpToTurn(moves, i, j, n, ds[..m]);
    DispatchedInTurn(states, moves, i, n, k);
    Starts(states, moves, n);
  }

  lemma UpToTurn(moves: seq<Move>, i: nat, j: nat, n: nat, before: seq<bool>)
    requires i <= n < j <= |moves| && before == Dispatches(moves[i..j])[..n - i]
    ensures Dispatches(moves[i..n]) == before && moves[n].action.Dispatch? == Dispatches(moves[i..j])[n - i]
  {
    assert moves[i..j][n - i] == moves[n];
  }

  lemma Starts(states: seq<Sys>, moves: seq<Move>, n: nat)
    requires Run(states, moves) && n < |moves| && moves[n].action.Dispatch?
    ensures states[n].ready != [] && DispatchedAt(states, moves, n, states[n].ready[0])
  {
  }
}
