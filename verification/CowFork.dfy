/** Which heap pages a fork shares: its filter is an array of 32 ints of which 32 bytes are cleared. */
module CowFork {
  import opened PmmSpec
  import opened Cow
  import opened CowInvariant
  import opened CowSteps

  /**
   In every run, when do_fork ends the child has exactly the mapped heap pages of the parent that are neither
   reclaimed nor marked by accident; a heap of up to eight pages is shared in full.
   */
  lemma SharedPages(states: seq<System>, moves: seq<Move>, i: nat, u: Vpn)
    requires Run(states, moves) && i < |moves| && EndsFork(states[i], moves[i].hart, moves[i].action)
    ensures var pid, child := states[i].harts[moves[i].hart].pid, states[i].harts[moves[i].hart].phase.child;
      var heap, pt := states[i].mem.heaps[pid], states[i].mem.pt;
      var due := HEAP_BOTTOM <= u < heap.top && u !in heap.freed && Slot(pid, u) in pt;
      && (Slot(child, u) in states[i + 1].mem.pt <==> due && u !in heap.stale)
      && (heap.top <= HEAP_BOTTOM + CLEARED ==> (Slot(child, u) in states[i + 1].mem.pt <==> due))
  {
    RunInv(states, moves, i);
    assert HartInv(states[i].mem, states[i].harts[moves[i].hart]);
  }

  // ---------------------------------------------------------------- a run in which a ninth page is lost

  function Boot(n: nat): System {
    System(Mem(Pmm(seq(n, _ => 0), seq(n, i => i)), seq(n, _ => Zeroes()), {}, map[],
               map[0 := Heap(HEAP_BOTTOM, [], {})], {0}, {}), map[0 := Idle])
  }

  lemma BootRuns(n: nat)
    ensures Init(Boot(n))
  {
    var pm := Boot(n).mem.pm;
    forall p: nat | p < n
      ensures p in pm.free
    {
      assert pm.free[p] == p;
    }
  }

  /** Process 0 runs and has the first k heap pages; n - k pages are free. */
  ghost predicate HasPages(s: System, k: nat, n: nat) {
    && 0 in s.harts && s.harts[0] == User(0) && s.mem.used == {0}
    && 0 in s.mem.heaps && s.mem.heaps[0] == Heap(HEAP_BOTTOM + k, [], {})
    && k <= n && |s.mem.pm.free| == n - k && |s.mem.frames| == |s.mem.pm.count|
    && forall u: nat :: Slot(0, u) in s.mem.pt <==> HEAP_BOTTOM <= u < HEAP_BOTTOM + k
  }

  lemma AllocTaken(s: System, k: nat, n: nat)
    requires HasPages(s, k, n) && k < n && CanTake(s.mem)
    ensures Enabled(s, 0, SysAlloc)
    ensures var t := Apply(s, 0, SysAlloc);
      && Enabled(t, 0, Proceed(Zeroes())) && HasPages(Apply(t, 0, Proceed(Zeroes())), k + 1, n)
  {
    var t := Apply(s, 0, SysAlloc);
    assert t == System(TakePage(s.mem), s.harts[0 := Busy(0, AllocHeld(s.mem.pm.free[0]))]);
    assert Slot(0, HEAP_BOTTOM + k) !in t.mem.pt;
  }

  lemma {:induction false} Pages(n: nat, k: nat) returns (states: seq<System>, moves: seq<Move>)
    requires k <= n
    ensures Run(states, moves) && HasPages(states[|moves|], k, n)
  {
    if k == 0 {
      BootRuns(n);
      states, moves := Then([Boot(n)], [], 0, Dispatch(0));
    } else {
      states, moves := Pages(n, k - 1);
      RunInv(states, moves, |moves|);
      assert states[|moves|].mem.pm.free[0] in states[|moves|].mem.pm.free;
      AllocTaken(states[|moves|], k - 1, n);
      states, moves := Then(states, moves, 0, SysAlloc);
      states, moves := Then(states, moves, 0, Proceed(Zeroes()));
    }
  }

  const NINTH: Vpn := HEAP_BOTTOM + 8

  /** do_fork at page v of a heap of nine, with the ninth marked in its filter. */
  ghost predicate MidFork(s: System, v: Vpn) {
    && 0 in s.harts && s.harts[0] == Busy(0, ForkLook(1, v)) && HEAP_BOTTOM <= v <= NINTH + 1
    && 0 in s.mem.heaps && s.mem.heaps[0] == Heap(NINTH + 1, [], {NINTH})
    && forall u: nat :: HEAP_BOTTOM <= u <= NINTH ==> Slot(0, u) in s.mem.pt
  }

  lemma Skip(s: System)
    requires Inv(s) && MidFork(s, NINTH)
    ensures Enabled(s, 0, Proceed(Zeroes())) && MidFork(Apply(s, 0, Proceed(Zeroes())), NINTH + 1)
  {
    assert HartInv(s.mem, s.harts[0]);
    assert NINTH in s.mem.heaps[0].stale;
  }

  lemma Share(s: System, v: Vpn)
    requires Inv(s) && MidFork(s, v) && v < NINTH
    ensures Enabled(s, 0, Proceed(Zeroes()))
    ensures var t := Apply(s, 0, Proceed(Zeroes()));
      Enabled(t, 0, Proceed(Zeroes())) && var u := Apply(t, 0, Proceed(Zeroes()));
      Enabled(u, 0, Proceed(Zeroes())) && MidFork(Apply(u, 0, Proceed(Zeroes())), v + 1)
  {
    assert HartInv(s.mem, s.harts[0]);
    var p := s.mem.pt[Slot(0, v)].page;
    var t := System(SetPte(s.mem, Slot(1, v), Pte(p, false, true, false)), s.harts[0 := Busy(0, ForkProtect(1, v, p))]);
    assert Apply(s, 0, Proceed(Zeroes())) == t;
    var u := System(SetPte(t.mem, Slot(0, v), t.mem.pt[Slot(0, v)].(w := false, cow := true)),
                    t.harts[0 := Busy(0, ForkCount(1, v, p))]);
    assert Apply(t, 0, Proceed(Zeroes())) == u;
  }

  lemma ForkBegins() returns (states: seq<System>, moves: seq<Move>)
    ensures Run(states, moves) && MidFork(states[|moves|], HEAP_BOTTOM)
  {
    states, moves := Pages(9, 9);
    states, moves := Then(states, moves, 0, Fork(1, {NINTH}));
  }

  lemma ForkNext(states: seq<System>, moves: seq<Move>, v: Vpn) returns (ss: seq<System>, ms: seq<Move>)
    requires Run(states, moves) && MidFork(states[|moves|], v) && v <= NINTH
    ensures Run(ss, ms) && MidFork(ss[|ms|], v + 1)
  {
    RunInv(states, moves, |moves|);
    if v == NINTH {
      Skip(states[|moves|]);
      ss, ms := Then(states, moves, 0, Proceed(Zeroes()));
    } else {
      Share(states[|moves|], v);
      ss, ms := Then(states, moves, 0, Proceed(Zeroes()));
      ss, ms := Then(ss, ms, 0, Proceed(Zeroes()));
      ss, ms := Then(ss, ms, 0, Proceed(Zeroes()));
    }
  }

  lemma {:induction false} ForkOn(v: Vpn) returns (states: seq<System>, moves: seq<Move>)
    requires HEAP_BOTTOM <= v <= NINTH + 1
    ensures Run(states, moves) && MidFork(states[|moves|], v)
  {
    if v == HEAP_BOTTOM {
      states, moves := ForkBegins();
    } else {
      states, moves := ForkOn(v - 1);
      states, moves := ForkNext(states, moves, v - 1);
    }
  }

  /** A run: the parent has nine heap pages and has reclaimed none; the child is forked without the ninth. */
  lemma PageLost() returns (states: seq<System>, moves: seq<Move>)
    ensures Run(states, moves)
    ensures var m := states[|moves|].mem;
      && 0 in m.heaps && 1 in m.heaps && m.heaps[0].freed == [] && m.heaps[1] == m.heaps[0]
      && Slot(0, NINTH) in m.pt && Slot(1, NINTH) !in m.pt
  {
    states, moves := ForkOn(NINTH + 1);
    var s := states[|moves|];
    RunInv(states, moves, |moves|);
    assert HartInv(s.mem, s.harts[0]);
    assert !Forkable(s.mem, 0, NINTH);
    states, moves := Then(states, moves, 0, Proceed(Zeroes()));
  }
}
