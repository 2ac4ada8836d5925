/**
 all_process_done reads the process table slot by slot, without a lock, while other harts run.  Slots are taken from
 the front and never given back, so a child always lies behind its parent and the scan, which runs upwards, cannot
 be overtaken.
 */
module SchedScan {
  import opened Config
  import opened Sched
  import opened SchedQueues

  predicate Quiet(p: Proc) {
    p.status == Free || p.status == Zombie
  }

  /** The slots in use come first. */
  predicate Packed(s: Sys) {
    forall i, j :: 0 <= i < j < |s.procs| && s.procs[i].status == Free ==> s.procs[j].status == Free
  }

  /** Slot k was read in state times[k] and found quiet: a scan that answers yes. */
  ghost predicate Scanned(states: seq<Sys>, times: seq<nat>) {
    && |times| == NPROC && (forall k, l :: 0 <= k < l < NPROC ==> times[k] <= times[l])
    && forall k ::
      0 <= k < NPROC ==> times[k] < |states| && |states[times[k]].procs| == NPROC && Quiet(states[times[k]].procs[k])
  }

  /** Only a fork ends a slot's rest, and in a packed table it takes a slot behind the one that forks. */
  lemma OnlyForkStirs(s: Sys, h: Hart, a: Action, k: nat)
    requires Inv(s) && Enabled(s, h, a) && Orderly(s, h, a) && k < NPROC && Quiet(s.procs[k])
    requires var t := Step(s, h, a); |t.procs| == NPROC && !Quiet(t.procs[k])
    ensures a.Fork? && k == FirstFree(s.procs, 0) && s.harts[h].pid < NPROC && !Quiet(s.procs[s.harts[h].pid])
    ensures Packed(s) ==> s.harts[h].pid < k
  {
    QueuedNotQuiet(s);
  }

  lemma QueuedNotQuiet(s: Sys)
    requires Inv(s)
    ensures forall i :: 0 <= i < |s.ready| ==> !Quiet(s.procs[s.ready[i]])
    ensures forall j, i :: 0 <= j < NSEM && 0 <= i < |s.sems[j].queue| ==> !Quiet(s.procs[s.sems[j].queue[i]])
  {
    forall i | 0 <= i < |s.ready|
      ensures !Quiet(s.procs[s.ready[i]])
    {
      ReadyMember(s, s.ready[i]);
    }
    forall j, i | 0 <= j < NSEM && 0 <= i < |s.sems[j].queue|
      ensures !Quiet(s.procs[s.sems[j].queue[i]])
    {
      SemMember(s, j, s.sems[j].queue[i]);
    }
  }

  lemma PackedStep(s: Sys, h: Hart, a: Action)
    requires Inv(s) && Enabled(s, h, a) && Orderly(s, h, a) && Packed(s)
    ensures Packed(Step(s, h, a))
  {
    var t := Step(s, h, a);
    StepKeeps(s, h, a);
    forall j | 0 <= j < NPROC && s.procs[j].status == Free && t.procs[j].status != Free
      ensures a.Fork? && j == FirstFree(s.procs, 0)
    {
      FreeEnds(s, h, a, j);
    }
    forall i | 0 <= i < NPROC && t.procs[i].status == Free
      ensures s.procs[i].status == Free
    {
      NoneFreed(s, h, a, i);
    }
  }

  lemma NoneFreed(s: Sys, h: Hart, a: Action, i: nat)
    requires Shape(s) && Enabled(s, h, a) && i < NPROC
    requires var t := Step(s, h, a); |t.procs| == NPROC && t.procs[i].status == Free
    ensures s.procs[i].status == Free
  {
  }

  lemma FreeEnds(s: Sys, h: Hart, a: Action, j: nat)
    requires Inv(s) && Enabled(s, h, a) && Orderly(s, h, a) && j < NPROC && s.procs[j].status == Free
    requires var t := Step(s, h, a); |t.procs| == NPROC && t.procs[j].status != Free
    ensures a.Fork? && j == FirstFree(s.procs, 0)
  {
    if Quiet(Step(s, h, a).procs[j]) {
      assert Step(s, h, a).procs[j].status == Zombie;
    } else {
      OnlyForkStirs(s, h, a, j);
    }
  }

  lemma {:induction false} PackedRun(states: seq<Sys>, moves: seq<Move>, i: nat)
    requires Run(states, moves) && Packed(states[0]) && i < |states|
    ensures Packed(states[i])
  {
    if i > 0 {
      PackedRun(states, moves, i - 1);
      RunInv(states, moves, i - 1);
      PackedStep(states[i - 1], moves[i - 1].hart, moves[i - 1].action);
    }
  }

  ghost predicate QuietUpTo(s: Sys, k: nat) {
    |s.procs| == NPROC && forall p :: 0 <= p <= k && p < NPROC ==> Quiet(s.procs[p])
  }

  /** While the first slots rest nobody can stir them: whoever forks lies behind them. */
  lemma RestGoesOn(s: Sys, h: Hart, a: Action, k: nat)
    requires Inv(s) && Enabled(s, h, a) && Orderly(s, h, a) && Packed(s) && k < NPROC && QuietUpTo(s, k)
    ensures QuietUpTo(Step(s, h, a), k)
  {
    StepKeeps(s, h, a);
    var t := Step(s, h, a);
    forall p | 0 <= p <= k
      ensures Quiet(t.procs[p])
    {
      if !Quiet(t.procs[p]) {
        OnlyForkStirs(s, h, a, p);
        assert false;
      }
    }
  }

  lemma RunStep(states: seq<Sys>, moves: seq<Move>, i: nat)
    requires Run(states, moves) && i < |moves|
    ensures Enabled(states[i], moves[i].hart, moves[i].action) && Orderly(states[i], moves[i].hart, moves[i].action)
    ensures states[i + 1] == Step(states[i], moves[i].hart, moves[i].action)
  {
  }

  lemma RestOneMore(states: seq<Sys>, moves: seq<Move>, i: nat, k: nat)
    requires Run(states, moves) && Packed(states[0]) && i < |moves| && k < NPROC && QuietUpTo(states[i], k)
    ensures QuietUpTo(states[i + 1], k)
  {
    RunInv(states, moves, i);
    PackedRun(states, moves, i);
    RunStep(states, moves, i);
    RestGoesOn(states[i], moves[i].hart, moves[i].action, k);
  }

  /** The slots the scan has passed never stir again. */
  lemma {:induction false} PassedForGood(states: seq<Sys>, moves: seq<Move>, times: seq<nat>, k: nat, m: nat)
    requires Run(states, moves) && Packed(states[0]) && Scanned(states, times) && k < NPROC && times[k] <= m < |states|
    ensures QuietUpTo(states[m], k)
    decreases k, m
  {
    if times[k] < m {
      PassedForGood(states, moves, times, k, m - 1);
      RestOneMore(states, moves, m - 1, k);
    } else if k > 0 {
      PassedForGood(states, moves, times, k - 1, m);
    }
  }

  /**
   A scan that finds every slot FREE or ZOMBIE, each at its own time and whatever the other harts do meanwhile, is
   right: from its end on no process can run, now or ever.
   */
  lemma ScanIsRight(states: seq<Sys>, moves: seq<Move>, times: seq<nat>, m: nat)
    requires Run(states, moves) && Packed(states[0]) && Scanned(states, times) && times[NPROC - 1] <= m < |states|
    ensures AllDone(states[m]) && states[m].ready == []
  {
    RunInv(states, moves, m);
    QueuedNotQuiet(states[m]);
    assert states[m].ready == [] || !Quiet(states[m].procs[states[m].ready[0]]);
    PassedForGood(states, moves, times, NPROC - 1, m);
  }
}
