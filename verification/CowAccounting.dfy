/** What the invariant says about every reachable state: page_ref_count, writable pages and the free list. */
module CowAccounting {
  import opened Config
  import opened Sequences
  import opened PmmSpec
  import opened Cow
  import opened CowInvariant
  import opened CowSteps

  ghost function Mappings(pt: map<Slot, Pte>, p: Page): set<Slot> {
    set x | x in pt && pt[x].page == p
  }

  /** Entries between user_vm_map_cow and inc_page_ref, or between free_page and the clearing of the entry. */
  ghost function Pending(pt: map<Slot, Pte>, p: Page): set<Slot> {
    set x | x in pt && pt[x].page == p && !pt[x].counted
  }

  /**
   At every step of every run, whatever the harts are in the middle of: the count of a page plus the
   entries not yet (or no longer) counted equals the entries that map it plus the references held by
   harts and by the kernel.  The count stays at most NPROC, so the 16-bit counter never wraps.
   */
  lemma CountExact(states: seq<System>, moves: seq<Move>, i: nat, p: Page)
    requires Run(states, moves) && i < |states| && p < |states[i].mem.pm.count|
    ensures var s := states[i];
      && s.mem.pm.count[p] + |Pending(s.mem.pt, p)|
         == |Mappings(s.mem.pt, p)| + |HartRefs(s.harts, p)| + (if p in s.mem.kernel then 1 else 0)
      && s.mem.pm.count[p] <= NPROC
  {
    RunInv(states, moves, i);
    var s := states[i];
    CountBound(s, p);
    assert Mappings(s.mem.pt, p) == PteRefs(s.mem.pt, p) + Pending(s.mem.pt, p);
    assert PteRefs(s.mem.pt, p) !! Pending(s.mem.pt, p);
  }

  /** A writable entry shares its page only while a hart is still settling one of the two entries. */
  lemma WritableAlone(states: seq<System>, moves: seq<Move>, i: nat, x: Slot, y: Slot)
    requires Run(states, moves) && i < |states|
    requires x != y && x in states[i].mem.pt && y in states[i].mem.pt
    requires states[i].mem.pt[x].w && states[i].mem.pt[x].page == states[i].mem.pt[y].page
    ensures exists h :: h in states[i].harts && (Unsettled(states[i].harts[h], x) || Unsettled(states[i].harts[h], y))
  {
    RunInv(states, moves, i);
    var s := states[i];
    if !s.mem.pt[x].counted {
      var h :| h in s.harts && Unsettled(s.harts[h], x);
    } else {
      assert !s.mem.pt[y].counted;
      var h :| h in s.harts && Unsettled(s.harts[h], y);
    }
  }

  predicate IsClearing(st: HartState, x: Slot) {
    st == Busy(x.pid, Clearing(x.vpn))
  }

  /**
   The free list holds every page exactly when its count is zero, once each; and an entry maps a free
   page exactly when a hart has freed the page and not yet cleared the entry, and nobody else holds it.
   */
  lemma FreePages(states: seq<System>, moves: seq<Move>, i: nat)
    requires Run(states, moves) && i < |states|
    ensures var s := states[i];
      && Distinct(s.mem.pm.free)
      && (forall p: nat :: p < |s.mem.pm.count| ==> (p in s.mem.pm.free <==> s.mem.pm.count[p] == 0))
      && (forall x :: x in s.mem.pt && s.mem.pt[x].page < |s.mem.pm.count| ==>
            (s.mem.pt[x].page in s.mem.pm.free <==>
               s.mem.pm.count[s.mem.pt[x].page] == 0 && exists h :: h in s.harts && IsClearing(s.harts[h], x)))
  {
    RunInv(states, moves, i);
    var s := states[i];
    forall x | x in s.mem.pt && s.mem.pm.count[s.mem.pt[x].page] == 0
      ensures exists h :: h in s.harts && IsClearing(s.harts[h], x)
    {
      var p := s.mem.pt[x].page;
      assert x !in PteRefs(s.mem.pt, p) by {
        if x in PteRefs(s.mem.pt, p) {
          OneEntry(s.mem, s.harts, x, p);
        }
      }
      var h :| h in s.harts && Unsettled(s.harts[h], x);
      assert HartInv(s.mem, s.harts[h]);
      if !s.harts[h].phase.Clearing? {
        ParentCounted(s, h, x);
      }
      assert IsClearing(s.harts[h], x);
    }
  }

  lemma ParentCounted(s: System, h: Hart, x: Slot)
    requires Inv(s) && h in s.harts && Unsettled(s.harts[h], x) && !s.harts[h].phase.Clearing?
    ensures x in s.mem.pt && s.mem.pt[x].page < |s.mem.pm.count| && s.mem.pm.count[s.mem.pt[x].page] >= 1
  {
    assert HartInv(s.mem, s.harts[h]);
    var parent := Slot(s.harts[h].pid, x.vpn);
    OneEntry(s.mem, s.harts, parent, s.mem.pt[parent].page);
  }

  /** free_page is only ever reached with a count above zero, so no page enters the free list twice. */
  lemma ReleasedWhileCounted(s: System, h: Hart, a: Action, p: Page)
    requires Inv(s) && Enabled(s, h, a)
    requires
      || (a.KernelGive? && p == a.page)
      || (a.SysFree? && Slot(s.harts[h].pid, a.vpn) in s.mem.pt && p == s.mem.pt[Slot(s.harts[h].pid, a.vpn)].page)
      || (a.Proceed? && s.harts[h].phase.Dropping? && p == s.harts[h].phase.src)
    ensures p < |s.mem.pm.count| && s.mem.pm.count[p] > 0 && p !in s.mem.pm.free
  {
    assert HartInv(s.mem, s.harts[h]);
    if a.SysFree? {
      var x := Slot(s.harts[h].pid, a.vpn);
      UserCounted(s, h, x);
      OneEntry(s.mem, s.harts, x, p);
    } else if a.Proceed? {
      OneHart(s.mem, s.harts, h, p);
    }
  }

  // ---------------------------------------------------------------- the two windows are real

  function Boot(): System {
    System(Mem(Pmm([0], [0]), [Zeroes()], {}, map[], map[0 := Heap(HEAP_BOTTOM, [], {})], {0}, {}), map[0 := Idle])
  }

  /** One hart, one page: process 0 allocates it. */
  lemma OnePageMapped() returns (states: seq<System>, moves: seq<Move>)
    ensures Run(states, moves)
    ensures var s := states[|moves|];
      && s.harts == map[0 := User(0)]
      && s.mem == Mem(Pmm([1], []), [Zeroes()], {}, map[Slot(0, HEAP_BOTTOM) := Fresh(0)],
                      map[0 := Heap(HEAP_BOTTOM + 1, [], {})], {0}, {})
  {
    var s0 := Boot();
    var s1 := Apply(s0, 0, Dispatch(0));
    var s2 := Apply(s1, 0, SysAlloc);
    var s3 := Apply(s2, 0, Proceed(Zeroes()));
    states := [s0, s1, s2, s3];
    moves := [Move(0, Dispatch(0)), Move(0, SysAlloc), Move(0, Proceed(Zeroes()))];
    assert states[|moves|] == s3;
  }

  /** user_vm_unmap frees before it clears: the page is on the free list and still mapped. */
  lemma FreeWhileMapped() returns (states: seq<System>, moves: seq<Move>)
    ensures Run(states, moves)
    ensures var s := states[|moves|]; exists x :: x in s.mem.pt && s.mem.pt[x].page in s.mem.pm.free
  {
    states, moves := OnePageMapped();
    states, moves := Then(states, moves, 0, SysFree(HEAP_BOTTOM, Zeroes()));
    var s := states[|moves|];
    assert Slot(0, HEAP_BOTTOM) in s.mem.pt && s.mem.pt[Slot(0, HEAP_BOTTOM)].page in s.mem.pm.free;
  }

  /** do_fork maps the child before it protects the parent: a page is writable and mapped twice for a moment. */
  lemma SharedWhileWritable() returns (states: seq<System>, moves: seq<Move>)
    ensures Run(states, moves)
    ensures var s := states[|moves|];
      exists x, y :: x != y && x in s.mem.pt && y in s.mem.pt && s.mem.pt[x].w && s.mem.pt[x].page == s.mem.pt[y].page
  {
    states, moves := OnePageMapped();
    states, moves := Then(states, moves, 0, Fork(1, {}));
    states, moves := Then(states, moves, 0, Proceed(Zeroes()));
    var s, x, y := states[|moves|], Slot(0, HEAP_BOTTOM), Slot(1, HEAP_BOTTOM);
    assert x != y && x in s.mem.pt && y in s.mem.pt && s.mem.pt[x].w && s.mem.pt[x].page == s.mem.pt[y].page;
  }
}
