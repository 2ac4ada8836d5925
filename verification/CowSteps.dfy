/** Every step of the copy-on-write machine keeps its invariant, whatever the other harts are doing. */
module CowSteps {
  import opened Config
  import opened PmmSpec
  import opened Cow
  import opened CowInvariant

  // ---------------------------------------------------------------- putting a step together

  ghost predicate LeavesAlone(m: Mem, n: Mem, st: HartState) {
    (st.User? ==> st.pid in n.heaps) && (st.Busy? ==> Undisturbed(m, n, st.pid, st.phase))
  }

  lemma Others(m: Mem, n: Mem, harts: map<Hart, HartState>, h: Hart, st: HartState)
    requires HartsInv(m, harts) && h in harts && HartInv(n, st)
    requires forall g :: g in harts && g != h ==> LeavesAlone(m, n, harts[g])
    ensures HartsInv(n, harts[h := st])
  {
    forall g | g in harts && g != h
      ensures HartInv(n, harts[g])
    {
      assert HartInv(m, harts[g]) && LeavesAlone(m, n, harts[g]);
      if harts[g].Busy? {
        PhaseStable(m, n, harts[g].pid, harts[g].phase);
      }
    }
  }

  lemma StillExclusive(harts: map<Hart, HartState>, h: Hart, st: HartState)
    requires Exclusive(harts) && h in harts
    requires forall g :: g in harts && g != h ==> Apart(harts[g], st)
    ensures Exclusive(harts[h := st])
  {
  }

  /** Counts after one hart moved on, one entry was written and one page had its count changed. */
  lemma StillCounted(m: Mem, n: Mem, harts: map<Hart, HartState>, harts': map<Hart, HartState>)
    requires Counts(m, harts) && Consistent(n.pm)
    requires |n.pm.count| == |m.pm.count|
    requires forall p: nat ::
      p < |m.pm.count| ==> n.pm.count[p] + Refs(m, harts, p) == m.pm.count[p] + Refs(n, harts', p)
    requires forall p :: p in n.kernel && p < |n.pm.count| ==> n.pm.count[p] == 1
    ensures Counts(n, harts')
  {
  }

  lemma SameRefs(m: Mem, harts: map<Hart, HartState>, h: Hart, st: HartState, p: Page)
    requires h in harts && (Holds(harts[h], p) <==> Holds(st, p))
    ensures Refs(m, harts[h := st], p) == Refs(m, harts, p)
  {
    HartRefsAt(harts, h, st, p);
    assert HartRefs(harts[h := st], p) == HartRefs(harts, p);
  }

  lemma StillUncounted(pt: map<Slot, Pte>, harts: map<Hart, HartState>, h: Hart, st: HartState)
    requires Uncounted(pt, harts) && h in harts
    requires forall x :: x in pt && Unsettled(harts[h], x) ==> Unsettled(st, x)
    ensures Uncounted(pt, harts[h := st])
  {
    var harts' := harts[h := st];
    forall x | x in pt && !pt[x].counted
      ensures exists g :: g in harts' && Unsettled(harts'[g], x)
    {
      var g :| g in harts && Unsettled(harts[g], x);
      assert g in harts' && Unsettled(harts'[g], x);
    }
  }

  // ---------------------------------------------------------------- steps that leave the memory alone

  /** A step that changes nothing but the hart's own position. */
  lemma QuietStep(s: System, h: Hart, n: Mem, st: HartState)
    requires Inv(s) && h in s.harts
    requires n == s.mem.(dead := n.dead)
    requires HartInv(n, st)
    requires forall p :: Holds(s.harts[h], p) <==> Holds(st, p)
    requires forall x :: x in s.mem.pt && Unsettled(s.harts[h], x) ==> Unsettled(st, x)
    requires forall g :: g in s.harts && g != h ==> Apart(s.harts[g], st)
    ensures Inv(System(n, s.harts[h := st]))
  {
    var m, harts := s.mem, s.harts;
    StillExclusive(harts, h, st);
    StillUncounted(m.pt, harts, h, st);
    assert HartsInv(n, harts[h := st]) by { QuietOthers(m, n, harts, h, st); }
    forall p: nat | p < |m.pm.count|
      ensures Refs(n, harts[h := st], p) == Refs(m, harts, p)
    {
      SameRefs(m, harts, h, st, p);
    }
    StillCounted(m, n, harts, harts[h := st]);
  }

  lemma QuietOthers(m: Mem, n: Mem, harts: map<Hart, HartState>, h: Hart, st: HartState)
    requires HartsInv(m, harts) && h in harts && HartInv(n, st)
    requires n == m.(dead := n.dead)
    ensures HartsInv(n, harts[h := st])
  {
    forall g | g in harts && g != h
      ensures HartInv(n, harts[g])
    {
      assert HartInv(m, harts[g]);
      if harts[g].Busy? {
        assert Undisturbed(m, n, harts[g].pid, harts[g].phase);
        PhaseStable(m, n, harts[g].pid, harts[g].phase);
      }
    }
  }

  lemma DispatchInv(s: System, h: Hart, pid: Pid)
    requires Inv(s) && Enabled(s, h, Dispatch(pid))
    ensures Inv(Apply(s, h, Dispatch(pid)))
  {
    QuietStep(s, h, s.mem, User(pid));
  }

  lemma LeaveInv(s: System, h: Hart, dies: bool)
    requires Inv(s) && Enabled(s, h, Leave(dies))
    ensures Inv(Apply(s, h, Leave(dies)))
  {
    QuietStep(s, h, if dies then s.mem.(dead := s.mem.dead + {s.harts[h].pid}) else s.mem, Idle);
  }

  lemma LoadInv(s: System, h: Hart, vpn: Vpn, off: nat)
    requires Inv(s) && Enabled(s, h, Load(vpn, off))
    ensures Inv(Apply(s, h, Load(vpn, off)))
  {
    assert s.harts[h := s.harts[h]] == s.harts;
  }

  /** A process in user mode has no entry that the counts miss. */
  lemma UserCounted(s: System, h: Hart, x: Slot)
    requires Uncounted(s.mem.pt, s.harts) && Exclusive(s.harts) && HartsInv(s.mem, s.harts)
    requires h in s.harts && s.harts[h].User? && x in s.mem.pt && x.pid == s.harts[h].pid
    ensures s.mem.pt[x].counted
  {
    forall g | g in s.harts
      ensures !Unsettled(s.harts[g], x)
    {
      assert HartInv(s.mem, s.harts[g]) && HartInv(s.mem, s.harts[h]);
      assert g != h ==> Apart(s.harts[g], s.harts[h]);
    }
  }

  lemma TrapStoreInv(s: System, h: Hart, vpn: Vpn)
    requires Inv(s) && Enabled(s, h, TrapStore(vpn))
    ensures Inv(Apply(s, h, TrapStore(vpn)))
  {
    var x := Slot(s.harts[h].pid, vpn);
    if x in s.mem.pt {
      UserCounted(s, h, x);
    }
    var st := Busy(x.pid, if x in s.mem.pt then Fault(vpn, s.mem.pt[x].page) else Demand(vpn));
    forall g | g in s.harts && g != h
      ensures Apart(s.harts[g], st)
    {
      assert Apart(s.harts[g], s.harts[h]);
    }
    QuietStep(s, h, s.mem, st);
  }

  lemma FaultInv(s: System, h: Hart, junk: Frame)
    requires Inv(s) && Enabled(s, h, Proceed(junk)) && s.harts[h].phase.Fault?
    ensures Inv(Apply(s, h, Proceed(junk)))
  {
    var m, st := s.mem, s.harts[h];
    assert HartInv(m, st);
    OneEntry(m, s.harts, Slot(st.pid, st.phase.vpn), st.phase.src);
    var st' := Step(m, st, Proceed(junk)).1;
    forall g | g in s.harts && g != h
      ensures Apart(s.harts[g], st')
    {
      assert Apart(s.harts[g], st);
    }
    QuietStep(s, h, m, st');
  }

  lemma ForkSkipInv(s: System, h: Hart, junk: Frame)
    requires Inv(s) && Enabled(s, h, Proceed(junk)) && s.harts[h].phase.ForkLook?
    requires s.harts[h].phase.v < s.mem.heaps[s.harts[h].pid].top
    requires !Forkable(s.mem, s.harts[h].pid, s.harts[h].phase.v)
    ensures Inv(Apply(s, h, Proceed(junk)))
  {
    var m, st := s.mem, s.harts[h];
    assert HartInv(m, st);
    var child, v := st.phase.child, st.phase.v;
    var st' := Busy(st.pid, ForkLook(child, v + 1));
    assert SharedBelow(m, st.pid, child, v + 1) by {
      forall u: nat
        ensures Slot(child, u) in m.pt <==> HEAP_BOTTOM <= u < v + 1 && Forkable(m, st.pid, u)
      {
        assert Slot(child, u) in m.pt <==> HEAP_BOTTOM <= u < v && Forkable(m, st.pid, u);
      }
    }
    forall g | g in s.harts && g != h
      ensures Apart(s.harts[g], st')
    {
      assert Apart(s.harts[g], st);
    }
    QuietStep(s, h, m, st');
  }

  lemma FreeUnmappedInv(s: System, h: Hart, vpn: Vpn, junk: Frame)
    requires Inv(s) && Enabled(s, h, SysFree(vpn, junk)) && Slot(s.harts[h].pid, vpn) !in s.mem.pt
    ensures Inv(Apply(s, h, SysFree(vpn, junk)))
  {
    QuietStep(s, h, s.mem.(dead := s.mem.dead + {s.harts[h].pid}), Idle);
  }

  // ---------------------------------------------------------------- taking a page

  /** Another hart's alloc_page disturbs nobody: the page it takes has no reference. */
  lemma TakeUndisturbs(s: System, n: Mem, g: Hart)
    requires Inv(s) && g in s.harts && CanTake(s.mem)
    requires n == TakePage(s.mem).(kernel := n.kernel)
    ensures LeavesAlone(s.mem, n, s.harts[g])
  {
    var m, st := s.mem, s.harts[g];
    assert HartInv(m, st);
    assert m.pm.free[0] in m.pm.free && m.pm.count[m.pm.free[0]] == 0;
    if st.Busy? {
      match st.phase
      case Copying(vpn, src, dst, _) => OneEntry(m, s.harts, Slot(st.pid, vpn), src);
      case Dropping(_, src) => OneHart(m, s.harts, g, src);
      case _ =>
    }
  }

  lemma TakeRefs(s: System, h: Hart, st: HartState, p: Page)
    requires Inv(s) && CanTake(s.mem) && h in s.harts && p < |s.mem.pm.count|
    requires forall q :: !Holds(s.harts[h], q) && (Holds(st, q) <==> q == s.mem.pm.free[0])
    ensures Take(s.mem.pm).count[p] + Refs(s.mem, s.harts, p) ==
      s.mem.pm.count[p] + Refs(TakePage(s.mem), s.harts[h := st], p)
  {
    var q := s.mem.pm.free[0];
    assert q in s.mem.pm.free && s.mem.pm.count[q] == 0;
    HartRefsAt(s.harts, h, st, p);
    assert h !in HartRefs(s.harts, p);
    assert PteRefs(TakePage(s.mem).pt, p) == PteRefs(s.mem.pt, p);
    if p != q {
      assert HartRefs(s.harts[h := st], p) == HartRefs(s.harts, p);
    }
  }

  lemma TakeStep(s: System, h: Hart, st: HartState)
    requires Inv(s) && CanTake(s.mem) && h in s.harts && !s.harts[h].Idle?
    requires HartInv(TakePage(s.mem), st) && st.Busy? && st.pid == s.harts[h].pid
    requires forall q :: !Holds(s.harts[h], q) && (Holds(st, q) <==> q == s.mem.pm.free[0])
    requires !DropsOne(st) && !Forking(st)
    requires forall x :: !Unsettled(s.harts[h], x)
    ensures Inv(System(TakePage(s.mem), s.harts[h := st]))
  {
    var m, n, harts := s.mem, TakePage(s.mem), s.harts;
    TakeKeepsConsistent(m.pm);
    forall g | g in harts && g != h
      ensures LeavesAlone(m, n, harts[g]) && Apart(harts[g], st)
    {
      TakeUndisturbs(s, n, g);
      assert Apart(harts[g], harts[h]);
    }
    Others(m, n, harts, h, st);
    StillExclusive(harts, h, st);
    StillUncounted(m.pt, harts, h, st);
    forall p: nat | p < |m.pm.count|
      ensures n.pm.count[p] + Refs(m, harts, p) == m.pm.count[p] + Refs(n, harts[h := st], p)
    {
      TakeRefs(s, h, st, p);
    }
    StillCounted(m, n, harts, harts[h := st]);
  }

  lemma SysAllocInv(s: System, h: Hart)
    requires Inv(s) && Enabled(s, h, SysAlloc)
    ensures Inv(Apply(s, h, SysAlloc))
  {
    TakeStep(s, h, Busy(s.harts[h].pid, AllocHeld(s.mem.pm.free[0])));
  }

  lemma DemandInv(s: System, h: Hart, junk: Frame)
    requires Inv(s) && Enabled(s, h, Proceed(junk)) && s.harts[h].phase.Demand?
    ensures Inv(Apply(s, h, Proceed(junk)))
  {
    assert HartInv(s.mem, s.harts[h]);
    TakeStep(s, h, Busy(s.harts[h].pid, DemandHeld(s.harts[h].phase.vpn, s.mem.pm.free[0])));
  }

  lemma SharedInv(s: System, h: Hart, junk: Frame)
    requires Inv(s) && Enabled(s, h, Proceed(junk)) && s.harts[h].phase.Shared?
    ensures Inv(Apply(s, h, Proceed(junk)))
  {
    var m, st := s.mem, s.harts[h];
    assert HartInv(m, st);
    OneEntry(m, s.harts, Slot(st.pid, st.phase.vpn), st.phase.src);
    assert m.pm.free[0] in m.pm.free && m.pm.count[m.pm.free[0]] == 0;
    TakeStep(s, h, Busy(st.pid, Copying(st.phase.vpn, st.phase.src, m.pm.free[0], 0)));
  }

  lemma KernelTakeInv(s: System, h: Hart)
    requires Inv(s) && Enabled(s, h, KernelTake)
    ensures Inv(Apply(s, h, KernelTake))
  {
    var m, harts := s.mem, s.harts;
    var q := m.pm.free[0];
    var n := TakePage(m).(kernel := m.kernel + {q});
    assert harts[h := harts[h]] == harts;
    assert q in m.pm.free && m.pm.count[q] == 0;
    TakeKeepsConsistent(m.pm);
    forall g | g in harts
      ensures HartInv(n, harts[g])
    {
      TakeUndisturbs(s, n, g);
      assert HartInv(m, harts[g]);
      if harts[g].Busy? {
        PhaseStable(m, n, harts[g].pid, harts[g].phase);
      }
    }
    StillCounted(m, n, harts, harts);
  }

  // ---------------------------------------------------------------- writing a page

  /** Pages whose contents or count a hart relies on. */
  predicate Pins(st: HartState, p: Page) {
    st.Busy? &&
    match st.phase
    case Sole(_, src) => src == p
    case Copying(_, src, dst, _) => src == p || dst == p
    case DemandHeld(_, dst) => dst == p
    case AllocHeld(dst) => dst == p
    case _ => false
  }

  /** A page with a single reference that is not this hart's is pinned by nobody else. */
  lemma SingleNotPinned(s: System, g: Hart, p: Page)
    requires Inv(s) && g in s.harts && p < |s.mem.pm.count| && s.mem.pm.count[p] == 1
    requires p in s.mem.kernel || exists h :: h in s.harts && h != g && Holds(s.harts[h], p)
    ensures !Pins(s.harts[g], p)
  {
    var m, st := s.mem, s.harts[g];
    assert HartInv(m, st);
    if Pins(st, p) {
      if Holds(st, p) {
        OneHart(m, s.harts, g, p);
        if h :| h in s.harts && h != g && Holds(s.harts[h], p) {
          TwoHarts(m, s.harts, g, h, p);
        }
      } else {
        var x := Slot(st.pid, st.phase.vpn);
        assert x in PteRefs(m.pt, p);
        OneEntry(m, s.harts, x, p);
        if h :| h in s.harts && h != g && Holds(s.harts[h], p) {
          EntryAndHart(m, s.harts, x, h, p);
        }
      }
    }
  }

  /** A page some process may write is pinned by no other hart. */
  lemma WritableNotPinned(s: System, g: Hart, x: Slot)
    requires Inv(s) && g in s.harts && x in s.mem.pt && s.mem.pt[x].w && s.mem.pt[x].counted
    requires !s.harts[g].Idle? ==> s.harts[g].pid != x.pid
    ensures !Pins(s.harts[g], s.mem.pt[x].page)
  {
    var m, st, p := s.mem, s.harts[g], s.mem.pt[x].page;
    assert HartInv(m, st);
    if Pins(st, p) {
      assert x in PteRefs(m.pt, p);
      if Holds(st, p) {
        EntryAndHart(m, s.harts, x, g, p);
      }
    }
  }

  lemma WriteUndisturbs(s: System, g: Hart, p: Page, f: Frame)
    requires Inv(s) && g in s.harts && p < |s.mem.frames| && !Pins(s.harts[g], p)
    ensures LeavesAlone(s.mem, s.mem.(frames := s.mem.frames[p := f]), s.harts[g])
  {
    assert HartInv(s.mem, s.harts[g]);
  }

  lemma WriteStep(s: System, h: Hart, p: Page, f: Frame, st: HartState)
    requires Inv(s) && h in s.harts && p < |s.mem.frames|
    requires forall g :: g in s.harts && g != h ==> !Pins(s.harts[g], p) && Apart(s.harts[g], st)
    requires forall q :: Holds(s.harts[h], q) <==> Holds(st, q)
    requires forall x :: x in s.mem.pt && Unsettled(s.harts[h], x) ==> Unsettled(st, x)
    requires HartInv(s.mem.(frames := s.mem.frames[p := f]), st)
    ensures Inv(System(s.mem.(frames := s.mem.frames[p := f]), s.harts[h := st]))
  {
    var m, harts := s.mem, s.harts;
    var n := m.(frames := m.frames[p := f]);
    forall g | g in harts && g != h
      ensures LeavesAlone(m, n, harts[g])
    {
      WriteUndisturbs(s, g, p, f);
    }
    Others(m, n, harts, h, st);
    StillExclusive(harts, h, st);
    StillUncounted(m.pt, harts, h, st);
    forall q: nat | q < |m.pm.count|
      ensures Refs(n, harts[h := st], q) == Refs(m, harts, q)
    {
      SameRefs(m, harts, h, st, q);
    }
    StillCounted(m, n, harts, harts[h := st]);
  }

  lemma StoreInv(s: System, h: Hart, vpn: Vpn, off: nat, val: int)
    requires Inv(s) && Enabled(s, h, Store(vpn, off, val))
    ensures Inv(Apply(s, h, Store(vpn, off, val)))
  {
    var m, st := s.mem, s.harts[h];
    var x := Slot(st.pid, vpn);
    UserCounted(s, h, x);
    forall g | g in s.harts && g != h
      ensures !Pins(s.harts[g], m.pt[x].page) && Apart(s.harts[g], st)
    {
      assert Apart(s.harts[g], st);
      WritableNotPinned(s, g, x);
    }
    WriteStep(s, h, m.pt[x].page, m.frames[m.pt[x].page][off := val], st);
  }

  lemma CopyByteInv(s: System, h: Hart, junk: Frame)
    requires Inv(s) && Enabled(s, h, Proceed(junk)) && s.harts[h].phase.Copying? && s.harts[h].phase.done < PGSIZE
    ensures Inv(Apply(s, h, Proceed(junk)))
  {
    var m, st := s.mem, s.harts[h];
    assert HartInv(m, st);
    var Copying(vpn, src, dst, done) := st.phase;
    var f := m.frames[dst][done := m.frames[src][done]];
    assert f[..done + 1] == m.frames[src][..done + 1] by {
      assert f[..done] == m.frames[dst][..done];
    }
    var st' := Busy(st.pid, Copying(vpn, src, dst, done + 1));
    forall g | g in s.harts && g != h
      ensures !Pins(s.harts[g], dst) && Apart(s.harts[g], st')
    {
      assert Apart(s.harts[g], st) && Holds(s.harts[h], dst);
      SingleNotPinned(s, g, dst);
    }
    WriteStep(s, h, dst, f, st');
    assert Apply(s, h, Proceed(junk)) == System(m.(frames := m.frames[dst := f]), s.harts[h := st']);
  }

  lemma KernelWriteInv(s: System, h: Hart, p: Page, f: Frame)
    requires Inv(s) && Enabled(s, h, KernelWrite(p, f))
    ensures Inv(Apply(s, h, KernelWrite(p, f)))
  {
    forall g | g in s.harts
      ensures !Pins(s.harts[g], p)
    {
      SingleNotPinned(s, g, p);
    }
    var n := s.mem.(frames := s.mem.frames[p := f]);
    assert HartInv(n, s.harts[h]) by {
      assert HartInv(s.mem, s.harts[h]);
      WriteUndisturbs(s, h, p, f);
      if s.harts[h].Busy? {
        PhaseStable(s.mem, n, s.harts[h].pid, s.harts[h].phase);
      }
    }
    WriteStep(s, h, p, f, s.harts[h]);
  }

  // ---------------------------------------------------------------- giving a page up

  /** free_page by another hart: a page this hart pins keeps its contents, and its count if it must. */
  lemma DropUndisturbs(s: System, g: Hart, p: Page, junk: Frame)
    requires Inv(s) && g in s.harts && p < |s.mem.frames|
    requires Pins(s.harts[g], p) ==> s.mem.pm.count[p] >= 2
    ensures LeavesAlone(s.mem, DropPage(s.mem, p, junk), s.harts[g])
  {
    assert HartInv(s.mem, s.harts[g]);
  }

  /** A second reference to a page that another hart pins. */
  lemma PinnedTwice(s: System, g: Hart, p: Page)
    requires Inv(s) && g in s.harts && p < |s.mem.frames| && Pins(s.harts[g], p)
    requires
      || p in s.mem.kernel
      || (exists h :: h in s.harts && h != g && Holds(s.harts[h], p))
      || (exists x :: x in PteRefs(s.mem.pt, p) && x.pid != s.harts[g].pid)
    ensures s.mem.pm.count[p] >= 2
  {
    var m, st := s.mem, s.harts[g];
    assert HartInv(m, st);
    if x :| x in PteRefs(m.pt, p) && x.pid != st.pid {
      if Holds(st, p) {
        EntryAndHart(m, s.harts, x, g, p);
      } else {
        TwoEntries(m, s.harts, x, Slot(st.pid, st.phase.vpn), p);
      }
    } else if m.pm.count[p] == 1 {
      SingleNotPinned(s, g, p);
    } else if Holds(st, p) {
      OneHart(m, s.harts, g, p);
    } else {
      OneEntry(m, s.harts, Slot(st.pid, st.phase.vpn), p);
    }
  }

  lemma DroppingInv(s: System, h: Hart, junk: Frame)
    requires Inv(s) && Enabled(s, h, Proceed(junk)) && s.harts[h].phase.Dropping?
    ensures Inv(Apply(s, h, Proceed(junk)))
  {
    var m, harts, st := s.mem, s.harts, User(s.harts[h].pid);
    var p := harts[h].phase.src;
    var n := DropPage(m, p, junk);
    assert HartInv(m, harts[h]);
    OneHart(m, harts, h, p);
    ReleaseKeepsConsistentIff(m.pm, p);
    forall g | g in harts && g != h
      ensures LeavesAlone(m, n, harts[g]) && Apart(harts[g], st)
    {
      assert Apart(harts[g], harts[h]) && Holds(harts[h], p);
      if Pins(harts[g], p) {
        PinnedTwice(s, g, p);
      }
      DropUndisturbs(s, g, p, junk);
    }
    Others(m, n, harts, h, st);
    StillExclusive(harts, h, st);
    StillUncounted(m.pt, harts, h, st);
    forall q: nat | q < |m.pm.count|
      ensures n.pm.count[q] + Refs(m, harts, q) == m.pm.count[q] + Refs(n, harts[h := st], q)
    {
      HartRefsAt(harts, h, st, q);
      assert q == p <==> h in HartRefs(harts, q);
    }
    StillCounted(m, n, harts, harts[h := st]);
  }

  lemma KernelGiveInv(s: System, h: Hart, p: Page, junk: Frame)
    requires Inv(s) && Enabled(s, h, KernelGive(p, junk))
    ensures Inv(Apply(s, h, KernelGive(p, junk)))
  {
    var m, harts := s.mem, s.harts;
    var n := DropPage(m, p, junk).(kernel := m.kernel - {p});
    assert harts[h := harts[h]] == harts;
    ReleaseKeepsConsistentIff(m.pm, p);
    forall g | g in harts
      ensures HartInv(n, harts[g])
    {
      if Pins(harts[g], p) {
        PinnedTwice(s, g, p);
      }
      DropUndisturbs(s, g, p, junk);
      assert HartInv(m, harts[g]);
      if harts[g].Busy? {
        assert Undisturbed(m, n, harts[g].pid, harts[g].phase);
        PhaseStable(m, n, harts[g].pid, harts[g].phase);
      }
    }
    StillCounted(m, n, harts, harts);
  }

  function FreedMem(m: Mem, x: Slot, junk: Frame): Mem
    requires x in m.pt && m.pt[x].page < |m.pm.count| == |m.frames|
  {
    SetPte(DropPage(m, m.pt[x].page, junk), x, m.pt[x].(counted := false))
  }

  lemma FreeUndisturbs(s: System, h: Hart, g: Hart, x: Slot, junk: Frame)
    requires Inv(s) && h in s.harts && g in s.harts && g != h && s.harts[h].User?
    requires x in s.mem.pt && s.mem.pt[x].counted && x.pid == s.harts[h].pid
    ensures LeavesAlone(s.mem, FreedMem(s.mem, x, junk), s.harts[g])
  {
    var m, st, p := s.mem, s.harts[g], s.mem.pt[x].page;
    assert Apart(st, s.harts[h]) && HartInv(m, st) && HartInv(m, s.harts[h]);
    assert x in PteRefs(m.pt, p);
    if Pins(st, p) {
      PinnedTwice(s, g, p);
    }
    DropUndisturbs(s, g, p, junk);
    if st.Busy? {
      assert SameSlots(m, FreedMem(m, x, junk), st.pid);
      if Forking(st) {
        assert SameSlots(m, FreedMem(m, x, junk), st.phase.child);
      }
    }
  }

  lemma FreeCounts(m: Mem, harts: map<Hart, HartState>, h: Hart, x: Slot, junk: Frame, st: HartState)
    requires Shape(m) && Counts(m, harts) && x in m.pt && m.pt[x].counted && h in harts
    requires forall q :: !Holds(harts[h], q) && !Holds(st, q)
    ensures Counts(FreedMem(m, x, junk), harts[h := st])
  {
    var n, p := FreedMem(m, x, junk), m.pt[x].page;
    assert x in PteRefs(m.pt, p);
    OneEntry(m, harts, x, p);
    ReleaseKeepsConsistentIff(m.pm, p);
    forall q: nat | q < |m.pm.count|
      ensures n.pm.count[q] + Refs(m, harts, q) == m.pm.count[q] + Refs(n, harts[h := st], q)
    {
      SameRefs(n, harts, h, st, q);
      PteRefsAt(m.pt, x, n.pt[x], q);
      assert q == p <==> x in PteRefs(m.pt, q);
    }
    StillCounted(m, n, harts, harts[h := st]);
  }

  /** sys_user_free_page: free_page runs while the entry still maps the page. */
  lemma FreedApart(s: System, h: Hart, x: Slot, junk: Frame, st: HartState)
    requires Inv(s) && Enabled(s, h, SysFree(x.vpn, junk)) && x.pid == s.harts[h].pid && x in s.mem.pt
    requires st == Busy(x.pid, Clearing(x.vpn))
    ensures forall g :: g in s.harts && g != h ==>
      LeavesAlone(s.mem, FreedMem(s.mem, x, junk), s.harts[g]) && Apart(s.harts[g], st)
  {
    forall g | g in s.harts && g != h
      ensures LeavesAlone(s.mem, FreedMem(s.mem, x, junk), s.harts[g]) && Apart(s.harts[g], st)
    {
      assert Apart(s.harts[g], s.harts[h]);
      FreeUndisturbs(s, h, g, x, junk);
    }
  }

  lemma FreeMappedInv(s: System, h: Hart, vpn: Vpn, junk: Frame)
    requires Inv(s) && Enabled(s, h, SysFree(vpn, junk)) && Slot(s.harts[h].pid, vpn) in s.mem.pt
    ensures Inv(Apply(s, h, SysFree(vpn, junk)))
  {
    var m, harts := s.mem, s.harts;
    var x := Slot(harts[h].pid, vpn);
    var st := Busy(x.pid, Clearing(vpn));
    UserCounted(s, h, x);
    FreedInv(s, h, x, junk, FreedMem(m, x, junk), st);
    assert Apply(s, h, SysFree(vpn, junk)) == System(FreedMem(m, x, junk), harts[h := st]);
  }

  lemma FreedInv(s: System, h: Hart, x: Slot, junk: Frame, n: Mem, st: HartState)
    requires Inv(s) && Enabled(s, h, SysFree(x.vpn, junk)) && x.pid == s.harts[h].pid && x in s.mem.pt
    requires s.mem.pt[x].counted && n == FreedMem(s.mem, x, junk) && st == Busy(x.pid, Clearing(x.vpn))
    ensures Inv(System(n, s.harts[h := st]))
  {
    FreedApart(s, h, x, junk, st);
    Others(s.mem, n, s.harts, h, st);
    StillExclusive(s.harts, h, st);
    NewlyUncounted(s.mem.pt, s.harts, h, st, x);
    FreeCounts(s.mem, s.harts, h, x, junk, st);
  }

  lemma NewlyUncounted(pt: map<Slot, Pte>, harts: map<Hart, HartState>, h: Hart, st: HartState, x: Slot)
    requires Uncounted(pt, harts) && h in harts && x in pt
    requires Unsettled(st, x) && forall y :: !Unsettled(harts[h], y)
    ensures Uncounted(pt[x := pt[x].(counted := false)], harts[h := st])
  {
    var harts' := harts[h := st];
    forall y | y in pt && (y == x || !pt[y].counted)
      ensures exists g :: g in harts' && Unsettled(harts'[g], y)
    {
      if y == x {
        assert h in harts' && Unsettled(harts'[h], y);
      } else {
        var g :| g in harts && Unsettled(harts[g], y);
        assert g in harts' && Unsettled(harts'[g], y);
      }
    }
  }

  // ---------------------------------------------------------------- writing a page table entry

  /** The slots a hart may write are those of its own process and of the child it is building. */
  predicate Mine(st: HartState, x: Slot) {
    !st.Idle? && (x.pid == st.pid || (Forking(st) && x.pid == st.phase.child))
  }

  lemma PteUndisturbs(s: System, h: Hart, g: Hart, x: Slot, e: Pte)
    requires Inv(s) && g in s.harts && h in s.harts && g != h && Mine(s.harts[h], x)
    requires DropsOne(s.harts[g]) && e.counted && e.page == s.harts[g].phase.src ==> x.vpn == s.harts[g].phase.vpn
    ensures LeavesAlone(s.mem, SetPte(s.mem, x, e), s.harts[g])
  {
    var m, n := s.mem, SetPte(s.mem, x, e);
    assert Apart(s.harts[g], s.harts[h]) && HartInv(m, s.harts[g]) && HartInv(m, s.harts[h]);
    if s.harts[g].Busy? {
      assert x.pid != s.harts[g].pid;
      assert SameSlots(m, n, s.harts[g].pid);
      if Forking(s.harts[g]) {
        assert x.pid != s.harts[g].phase.child;
        assert SameSlots(m, n, s.harts[g].phase.child);
      }
    }
  }

  /** The page a hart has just taken has no other reference. */
  lemma HeldAlone(m: Mem, harts: map<Hart, HartState>, h: Hart, p: Page)
    requires Counts(m, harts) && h in harts && Holds(harts[h], p) && Held(m, p)
    ensures PteRefs(m.pt, p) == {} && HartRefs(harts, p) == {h} && p !in m.kernel
  {
    assert h in HartRefs(harts, p);
    assert |HartRefs(harts, p)| >= 1;
    assert |HartRefs(harts, p) - {h}| == |HartRefs(harts, p)| - 1;
    assert HartRefs(harts, p) - {h} == {};
  }

  function MapFresh(m: Mem, x: Slot, p: Page, heap: Heap): Mem {
    m.(pt := m.pt[x := Fresh(p)], heaps := m.heaps[x.pid := heap])
  }

  lemma MapFreshUndisturbs(s: System, h: Hart, g: Hart, x: Slot, p: Page, heap: Heap)
    requires Inv(s) && g in s.harts && h in s.harts && g != h && s.harts[h].Busy? && x.pid == s.harts[h].pid
    requires Holds(s.harts[h], p) && Held(s.mem, p)
    ensures LeavesAlone(s.mem, MapFresh(s.mem, x, p, heap), s.harts[g])
  {
    HeldAlone(s.mem, s.harts, h, p);
    assert HartInv(s.mem, s.harts[h]) && HartInv(s.mem, s.harts[g]) && Apart(s.harts[g], s.harts[h]);
    assert g !in HartRefs(s.harts, p);
    PteUndisturbs(s, h, g, x, Fresh(p));
  }

  lemma MapFreshSharing(m: Mem, x: Slot, p: Page)
    requires Sharing(m.pt) && PteRefs(m.pt, p) == {}
    ensures Sharing(m.pt[x := Fresh(p)])
  {
    var pt := m.pt[x := Fresh(p)];
    forall y | y in m.pt && m.pt[y].counted
      ensures m.pt[y].page != p
    {
      assert y !in PteRefs(m.pt, p);
    }
  }

  /** An entry that is overwritten by a counted one, or did not exist, leaves the others' bookkeeping alone. */
  lemma CountedWrite(pt: map<Slot, Pte>, harts: map<Hart, HartState>, h: Hart, st: HartState, x: Slot, e: Pte)
    requires Uncounted(pt, harts) && h in harts && e.counted
    requires forall y :: y != x && Unsettled(harts[h], y) ==> Unsettled(st, y)
    ensures Uncounted(pt[x := e], harts[h := st])
  {
    var harts' := harts[h := st];
    forall y | y in pt && y != x && !pt[y].counted
      ensures exists g :: g in harts' && Unsettled(harts'[g], y)
    {
      var g :| g in harts && Unsettled(harts[g], y);
      assert g in harts' && Unsettled(harts'[g], y);
    }
  }

  /** Mapping a held page moves its reference from the hart to the entry. */
  lemma MapFreshRefs(m: Mem, harts: map<Hart, HartState>, h: Hart, x: Slot, p: Page, heap: Heap, st: HartState, q: Page)
    requires Counts(m, harts) && h in harts && Holds(harts[h], p) && Held(m, p)
    requires forall r :: Holds(harts[h], r) <==> r == p
    requires x in m.pt ==> m.pt[x].counted && Holds(st, m.pt[x].page) && m.pt[x].page != p
    requires forall r :: Holds(st, r) ==> x in m.pt && r == m.pt[x].page
    ensures Refs(MapFresh(m, x, p, heap), harts[h := st], q) == Refs(m, harts, q)
  {
    HeldAlone(m, harts, h, p);
    HartRefsAt(harts, h, st, q);
    PteRefsAt(m.pt, x, Fresh(p), q);
    assert h in HartRefs(harts, q) <==> q == p;
    assert x in PteRefs(m.pt, q) <==> x in m.pt && m.pt[x].page == q && m.pt[x].counted;
  }

  lemma MapFreshStep(s: System, h: Hart, x: Slot, p: Page, heap: Heap, st: HartState)
    requires Inv(s) && h in s.harts && s.harts[h].Busy? && x.pid == s.harts[h].pid
    requires Holds(s.harts[h], p) && Held(s.mem, p) && (forall r :: Holds(s.harts[h], r) <==> r == p)
    requires x in s.mem.pt ==> s.mem.pt[x].counted && Holds(st, s.mem.pt[x].page) && s.mem.pt[x].page != p
    requires forall r :: Holds(st, r) ==> x in s.mem.pt && r == s.mem.pt[x].page
    requires HeapOk(heap) && BelowTop(heap, x.vpn) && s.mem.heaps[x.pid].top <= heap.top
    requires HartInv(MapFresh(s.mem, x, p, heap), st)
    requires forall g :: g in s.harts && g != h ==> Apart(s.harts[g], st)
    ensures Inv(System(MapFresh(s.mem, x, p, heap), s.harts[h := st]))
  {
    var m, harts := s.mem, s.harts;
    var n := MapFresh(m, x, p, heap);
    HeldAlone(m, harts, h, p);
    forall g | g in harts && g != h
      ensures LeavesAlone(m, n, harts[g])
    {
      MapFreshUndisturbs(s, h, g, x, p, heap);
    }
    Others(m, n, harts, h, st);
    StillExclusive(harts, h, st);
    CountedWrite(m.pt, harts, h, st, x, Fresh(p));
    MapFreshSharing(m, x, p);
    MapFreshCounts(m, harts, h, x, p, heap, st);
  }

  lemma MapFreshCounts(m: Mem, harts: map<Hart, HartState>, h: Hart, x: Slot, p: Page, heap: Heap, st: HartState)
    requires Counts(m, harts) && h in harts && Holds(harts[h], p) && Held(m, p) &&
      (forall r :: Holds(harts[h], r) <==> r == p)
    requires x in m.pt ==> m.pt[x].counted && Holds(st, m.pt[x].page) && m.pt[x].page != p
    requires forall r :: Holds(st, r) ==> x in m.pt && r == m.pt[x].page
    ensures Counts(MapFresh(m, x, p, heap), harts[h := st])
  {
    var n := MapFresh(m, x, p, heap);
    forall q: nat | q < |m.pm.count|
      ensures Refs(n, harts[h := st], q) == Refs(m, harts, q)
    {
      MapFreshRefs(m, harts, h, x, p, heap, st, q);
    }
    StillCounted(m, n, harts, harts[h := st]);
  }

  lemma CopiedInv(s: System, h: Hart, junk: Frame)
    requires Inv(s) && Enabled(s, h, Proceed(junk)) && s.harts[h].phase.Copying? && s.harts[h].phase.done >= PGSIZE
    ensures Inv(Apply(s, h, Proceed(junk)))
  {
    var m, harts := s.mem, s.harts;
    assert HartInv(m, harts[h]);
    var Copying(vpn, src, dst, done) := harts[h].phase;
    var x := Slot(harts[h].pid, vpn);
    var st := Busy(x.pid, Dropping(vpn, src));
    assert MapFresh(m, x, dst, m.heaps[x.pid]) == SetPte(m, x, Fresh(dst));
    forall g | g in harts && g != h
      ensures Apart(harts[g], st)
    {
      assert Apart(harts[g], harts[h]) && HartInv(m, harts[g]);
    }
    MapFreshStep(s, h, x, dst, m.heaps[x.pid], st);
  }

  lemma DemandHeldInv(s: System, h: Hart, junk: Frame)
    requires Inv(s) && Enabled(s, h, Proceed(junk)) && s.harts[h].phase.DemandHeld?
    ensures Inv(Apply(s, h, Proceed(junk)))
  {
    var m, harts := s.mem, s.harts;
    assert HartInv(m, harts[h]);
    var x := Slot(harts[h].pid, harts[h].phase.vpn);
    var st := User(x.pid);
    assert MapFresh(m, x, harts[h].phase.dst, m.heaps[x.pid]) == SetPte(m, x, Fresh(harts[h].phase.dst));
    forall g | g in harts && g != h
      ensures Apart(harts[g], st)
    {
      assert Apart(harts[g], harts[h]);
    }
    MapFreshStep(s, h, x, harts[h].phase.dst, m.heaps[x.pid], st);
  }

  lemma NextPageOk(heap: Heap)
    requires HeapOk(heap)
    ensures HeapOk(NextPage(heap).1) && BelowTop(NextPage(heap).1, NextPage(heap).0) && heap.top <= NextPage(heap).1.top
  {
  }

  lemma AllocMapInv(s: System, h: Hart, junk: Frame)
    requires Inv(s) && Enabled(s, h, Proceed(junk)) && s.harts[h].phase.AllocHeld?
    requires Slot(s.harts[h].pid, NextPage(s.mem.heaps[s.harts[h].pid]).0) !in s.mem.pt
    ensures Inv(Apply(s, h, Proceed(junk)))
  {
    var m, harts := s.mem, s.harts;
    assert HartInv(m, harts[h]);
    var heap := m.heaps[harts[h].pid];
    NextPageOk(heap);
    var x := Slot(harts[h].pid, NextPage(heap).0);
    var st := User(x.pid);
    forall g | g in harts && g != h
      ensures Apart(harts[g], st)
    {
      assert Apart(harts[g], harts[h]);
    }
    MapFreshStep(s, h, x, harts[h].phase.dst, NextPage(heap).1, st);
  }

  lemma HeapUndisturbs(s: System, n: Mem, h: Hart, g: Hart, pid: Pid, heap: Heap)
    requires Inv(s) && h in s.harts && g in s.harts && g != h && s.harts[h].Busy? && s.harts[h].pid == pid
    requires n == s.mem.(heaps := s.mem.heaps[pid := heap], kernel := n.kernel, dead := n.dead)
    ensures LeavesAlone(s.mem, n, s.harts[g])
  {
    assert Apart(s.harts[g], s.harts[h]) && HartInv(s.mem, s.harts[g]) && HartInv(s.mem, s.harts[h]);
  }

  lemma HeapGrows(m: Mem, pid: Pid, heap: Heap)
    requires HeapShape(m) && pid in m.heaps && HeapOk(heap) && m.heaps[pid].top <= heap.top
    ensures HeapShape(m.(heaps := m.heaps[pid := heap]))
  {
  }

  /** The page popped by sys_user_allocate_page was mapped again by a store: the process dies, its new page leaks. */
  lemma AllocKillInv(s: System, h: Hart, junk: Frame)
    requires Inv(s) && Enabled(s, h, Proceed(junk)) && s.harts[h].phase.AllocHeld?
    requires Slot(s.harts[h].pid, NextPage(s.mem.heaps[s.harts[h].pid]).0) in s.mem.pt
    ensures Inv(Apply(s, h, Proceed(junk)))
  {
    var m, harts := s.mem, s.harts;
    assert HartInv(m, harts[h]);
    var pid, p := harts[h].pid, harts[h].phase.dst;
    var heap := NextPage(m.heaps[pid]).1;
    NextPageOk(m.heaps[pid]);
    var n := m.(heaps := m.heaps[pid := heap], kernel := m.kernel + {p}, dead := m.dead + {pid});
    forall g | g in harts && g != h
      ensures LeavesAlone(m, n, harts[g])
    {
      HeapUndisturbs(s, n, h, g, pid, heap);
    }
    Others(m, n, harts, h, Idle);
    StillUncounted(m.pt, harts, h, Idle);
    KillCounts(m, n, harts, h, p);
    HeapGrows(m, pid, heap);
    assert Shape(n);
    StillExclusive(harts, h, Idle);
  }

  lemma KillCounts(m: Mem, n: Mem, harts: map<Hart, HartState>, h: Hart, p: Page)
    requires Counts(m, harts) && h in harts && Holds(harts[h], p) && Held(m, p)
    requires forall r :: Holds(harts[h], r) <==> r == p
    requires n.pm == m.pm && n.pt == m.pt && n.kernel == m.kernel + {p}
    ensures Counts(n, harts[h := Idle])
  {
    HeldAlone(m, harts, h, p);
    forall q: nat | q < |m.pm.count|
      ensures Refs(n, harts[h := Idle], q) == Refs(m, harts, q)
    {
      HartRefsAt(harts, h, Idle, q);
      assert h in HartRefs(harts, q) <==> q == p;
    }
    StillCounted(m, n, harts, harts[h := Idle]);
  }

  /** The last writer: get_page_ref returned one, so the entry becomes writable where it is. */
  lemma SoleInv(s: System, h: Hart, junk: Frame)
    requires Inv(s) && Enabled(s, h, Proceed(junk)) && s.harts[h].phase.Sole?
    ensures Inv(Apply(s, h, Proceed(junk)))
  {
    var m, harts := s.mem, s.harts;
    assert HartInv(m, harts[h]);
    var x, p := Slot(harts[h].pid, harts[h].phase.vpn), harts[h].phase.src;
    var e := m.pt[x].(w := true, cow := false);
    var n, st := SetPte(m, x, e), User(x.pid);
    assert x in PteRefs(m.pt, p);
    forall y | y in m.pt && m.pt[y].counted && m.pt[y].page == p
      ensures y == x
    {
      if y != x {
        TwoEntries(m, harts, x, y, p);
      }
    }
    EntryStep(s, h, x, e, st);
  }

  /** Rewriting the flags of a counted entry: the references stay where they are. */
  lemma EntryStep(s: System, h: Hart, x: Slot, e: Pte, st: HartState)
    requires Inv(s) && h in s.harts && x in s.mem.pt && s.mem.pt[x].counted
    requires e == s.mem.pt[x].(w := e.w, cow := !e.w)
    requires s.harts[h].Busy? && x.pid == s.harts[h].pid
    requires HartInv(SetPte(s.mem, x, e), st) && !st.Idle? && st.pid == x.pid
    requires forall p :: !Holds(s.harts[h], p) && !Holds(st, p)
    requires forall y :: Unsettled(s.harts[h], y) ==> Unsettled(st, y)
    requires Forking(st) ==> Forking(s.harts[h]) && st.phase.child == s.harts[h].phase.child
    requires e.w ==> forall y :: y in s.mem.pt && s.mem.pt[y].counted && s.mem.pt[y].page == e.page ==> y == x
    ensures Inv(System(SetPte(s.mem, x, e), s.harts[h := st]))
  {
    var m, harts := s.mem, s.harts;
    var n := SetPte(m, x, e);
    EntryOthers(s, h, x, e, st);
    Others(m, n, harts, h, st);
    StillExclusive(harts, h, st);
    CountedWrite(m.pt, harts, h, st, x, e);
    EntrySharing(m.pt, x, e);
    EntryCounts(m, harts, h, x, e, st);
  }

  lemma EntryOthers(s: System, h: Hart, x: Slot, e: Pte, st: HartState)
    requires Inv(s) && h in s.harts && x in s.mem.pt && s.mem.pt[x].counted
    requires e == s.mem.pt[x].(w := e.w, cow := !e.w)
    requires s.harts[h].Busy? && x.pid == s.harts[h].pid && !st.Idle? && st.pid == x.pid
    requires forall p :: !Holds(s.harts[h], p) && !Holds(st, p)
    requires Forking(st) ==> Forking(s.harts[h]) && st.phase.child == s.harts[h].phase.child
    ensures forall g ::
      g in s.harts && g != h ==> LeavesAlone(s.mem, SetPte(s.mem, x, e), s.harts[g]) && Apart(s.harts[g], st)
  {
    var m, harts := s.mem, s.harts;
    forall g | g in harts && g != h
      ensures LeavesAlone(m, SetPte(m, x, e), harts[g]) && Apart(harts[g], st)
    {
      assert !DropsOne(st) by { assert DropsOne(st) ==> Holds(st, st.phase.src); }
      assert Apart(harts[g], harts[h]) && HartInv(m, harts[g]);
      PteUndisturbs(s, h, g, x, e);
    }
  }

  lemma EntrySharing(pt: map<Slot, Pte>, x: Slot, e: Pte)
    requires Sharing(pt) && x in pt && pt[x].counted && e.page == pt[x].page
    requires e.w ==> forall y :: y in pt && pt[y].counted && pt[y].page == e.page ==> y == x
    ensures Sharing(pt[x := e])
  {
  }

  lemma EntryCounts(m: Mem, harts: map<Hart, HartState>, h: Hart, x: Slot, e: Pte, st: HartState)
    requires Counts(m, harts) && h in harts && x in m.pt && m.pt[x].counted && e.counted && e.page == m.pt[x].page
    requires forall p :: !Holds(harts[h], p) && !Holds(st, p)
    ensures Counts(SetPte(m, x, e), harts[h := st])
  {
    var n := SetPte(m, x, e);
    forall q: nat | q < |m.pm.count|
      ensures Refs(n, harts[h := st], q) == Refs(m, harts, q)
    {
      SameRefs(n, harts, h, st, q);
      PteRefsAt(m.pt, x, e, q);
      assert PteRefs(n.pt, q) == PteRefs(m.pt, q);
    }
    StillCounted(m, n, harts, harts[h := st]);
  }

  // ---------------------------------------------------------------- do_fork

  lemma ForkStartApart(s: System, h: Hart, child: Pid, stale: set<Vpn>, n: Mem, st: HartState)
    requires Inv(s) && Enabled(s, h, Fork(child, stale)) && st == Busy(s.harts[h].pid, ForkLook(child, HEAP_BOTTOM))
    requires var pid := s.harts[h].pid;
      n == s.mem.(used := s.mem.used + {child},
                  heaps := s.mem.heaps[pid := s.mem.heaps[pid].(stale := stale)])
    ensures forall g :: g in s.harts && g != h ==> LeavesAlone(s.mem, n, s.harts[g]) && Apart(s.harts[g], st)
  {
    forall g | g in s.harts && g != h
      ensures LeavesAlone(s.mem, n, s.harts[g]) && Apart(s.harts[g], st)
    {
      assert Apart(s.harts[g], s.harts[h]) && HartInv(s.mem, s.harts[g]);
    }
  }

  lemma ForkStartInv(s: System, h: Hart, child: Pid, stale: set<Vpn>)
    requires Inv(s) && Enabled(s, h, Fork(child, stale))
    ensures Inv(Apply(s, h, Fork(child, stale)))
  {
    var m, harts := s.mem, s.harts;
    var heap := m.heaps[harts[h].pid].(stale := stale);
    var n := m.(used := m.used + {child}, heaps := m.heaps[harts[h].pid := heap]);
    var st := Busy(harts[h].pid, ForkLook(child, HEAP_BOTTOM));
    assert Apply(s, h, Fork(child, stale)) == System(n, harts[h := st]);
    HeapGrows(m, harts[h].pid, heap);
    ForkStartApart(s, h, child, stale, n, st);
    assert HartInv(m, harts[h]);
    Others(m, n, harts, h, st);
    StillExclusive(harts, h, st);
    StillUncounted(m.pt, harts, h, st);
    forall q: nat | q < |m.pm.count|
      ensures Refs(n, harts[h := st], q) == Refs(m, harts, q)
    {
      SameRefs(m, harts, h, st, q);
    }
    StillCounted(m, n, harts, harts[h := st]);
  }

  lemma ForkProtectInv(s: System, h: Hart, junk: Frame)
    requires Inv(s) && Enabled(s, h, Proceed(junk)) && s.harts[h].phase.ForkProtect?
    ensures Inv(Apply(s, h, Proceed(junk)))
  {
    var m, harts := s.mem, s.harts;
    assert HartInv(m, harts[h]);
    var ForkProtect(child, v, p) := harts[h].phase;
    var x := Slot(harts[h].pid, v);
    var e := m.pt[x].(w := false, cow := true);
    var st := Busy(x.pid, ForkCount(child, v, p));
    assert Apply(s, h, Proceed(junk)) == System(SetPte(m, x, e), harts[h := st]);
    ForkProtected(m, x, child, v, e);
    EntryStep(s, h, x, e, st);
  }

  lemma ForkProtected(m: Mem, x: Slot, child: Pid, v: Vpn, e: Pte)
    requires x in m.pt && x.pid in m.heaps && x.pid != child && ForkInv(m, x.pid, child, v, v + 1) &&
      e.page == m.pt[x].page
    ensures ForkInv(SetPte(m, x, e), x.pid, child, v, v + 1)
  {
    var n := SetPte(m, x, e);
    forall u: nat
      ensures Slot(child, u) in n.pt <==> HEAP_BOTTOM <= u < v + 1 && Forkable(n, x.pid, u)
    {
      assert Forkable(n, x.pid, u) == Forkable(m, x.pid, u);
    }
  }

  // ---------------------------------------------------------------- no count passes NPROC

  ghost function SlotPids(xs: set<Slot>): set<Pid> {
    set x | x in xs :: x.pid
  }

  ghost function HartPids(harts: map<Hart, HartState>, hs: set<Hart>): set<Pid>
    requires forall h :: h in hs ==> h in harts && !harts[h].Idle?
  {
    set h | h in hs :: harts[h].pid
  }

  lemma {:induction false} SlotPidsSize(xs: set<Slot>, vpn: Vpn)
    requires forall x :: x in xs ==> x.vpn == vpn
    ensures |SlotPids(xs)| == |xs|
  {
    if x :| x in xs {
      SlotPidsSize(xs - {x}, vpn);
      assert SlotPids(xs) == SlotPids(xs - {x}) + {x.pid};
    }
  }

  lemma {:induction false} HartPidsSize(harts: map<Hart, HartState>, hs: set<Hart>)
    requires Exclusive(harts) && forall h :: h in hs ==> h in harts && !harts[h].Idle?
    ensures |HartPids(harts, hs)| == |hs|
  {
    if h :| h in hs {
      HartPidsSize(harts, hs - {h});
      assert HartPids(harts, hs) == HartPids(harts, hs - {h}) + {harts[h].pid};
      forall g | g in hs - {h}
        ensures harts[g].pid != harts[h].pid
      {
        assert Apart(harts[g], harts[h]);
      }
    }
  }

  lemma {:induction false} Below(xs: set<nat>, n: nat)
    requires forall x :: x in xs ==> x < n
    ensures |xs| <= n
  {
    if n > 0 {
      Below(xs - {n - 1}, n - 1);
    }
  }

  /** While some hart is giving p up, every reference to p belongs to a process of its own. */
  lemma RefsApart(s: System, p: Page, vpn: Vpn)
    requires Inv(s) && p < |s.mem.pm.count| && p !in s.mem.kernel
    requires forall x :: x in PteRefs(s.mem.pt, p) ==> x.vpn == vpn
    requires forall h :: h in HartRefs(s.harts, p) ==> DropsOne(s.harts[h]) && s.harts[h].phase.vpn == vpn
    ensures s.mem.pm.count[p] <= NPROC
  {
    var xs, hs := PteRefs(s.mem.pt, p), HartRefs(s.harts, p);
    SlotPidsSize(xs, vpn);
    HartPidsSize(s.harts, hs);
    forall h | h in hs
      ensures s.harts[h].pid !in SlotPids(xs) && s.harts[h].pid in s.mem.used
    {
      assert HartInv(s.mem, s.harts[h]);
    }
    var pids := SlotPids(xs) + HartPids(s.harts, hs);
    assert SlotPids(xs) !! HartPids(s.harts, hs);
    assert |pids| == |xs| + |hs|;
    Below(pids, NPROC);
  }

  /** page_ref_count never passes the number of process slots, so the 16-bit counter cannot wrap. */
  lemma CountBound(s: System, p: Page)
    requires Inv(s) && p < |s.mem.pm.count|
    ensures s.mem.pm.count[p] <= NPROC
  {
    var m := s.mem;
    if m.pm.count[p] > 1 {
      var xs, hs := PteRefs(m.pt, p), HartRefs(s.harts, p);
      forall h | h in hs
        ensures DropsOne(s.harts[h])
      {
        assert HartInv(m, s.harts[h]);
      }
      if h :| h in hs {
        assert HartInv(m, s.harts[h]);
        forall g | g in hs
          ensures s.harts[g].phase.vpn == s.harts[h].phase.vpn
        {
          assert g != h ==> Apart(s.harts[g], s.harts[h]);
        }
        RefsApart(s, p, s.harts[h].phase.vpn);
      } else if x :| x in xs {
        RefsApart(s, p, x.vpn);
      }
    }
  }

  // ---------------------------------------------------------------- the remaining fork steps and the unmap

  /** user_vm_map_cow on the child: the entry exists before page_ref_count knows of it. */
  lemma ForkShareInv(s: System, h: Hart, junk: Frame)
    requires Inv(s) && Enabled(s, h, Proceed(junk)) && s.harts[h].phase.ForkLook?
    requires s.harts[h].phase.v < s.mem.heaps[s.harts[h].pid].top
    requires Forkable(s.mem, s.harts[h].pid, s.harts[h].phase.v)
    ensures Inv(Apply(s, h, Proceed(junk)))
  {
    var m, pid, child, v := s.mem, s.harts[h].pid, s.harts[h].phase.child, s.harts[h].phase.v;
    var p := m.pt[Slot(pid, v)].page;
    var n, st := SetPte(m, Slot(child, v), Pte(p, false, true, false)), Busy(pid, ForkProtect(child, v, p));
    assert Apply(s, h, Proceed(junk)) == System(n, s.harts[h := st]);
    ForkShared(s, h, pid, child, v, p);
  }

  lemma ForkShared(s: System, h: Hart, pid: Pid, child: Pid, v: Vpn, p: Page)
    requires Inv(s) && h in s.harts && s.harts[h] == Busy(pid, ForkLook(child, v)) && pid in s.mem.heaps
    requires v < s.mem.heaps[pid].top && Forkable(s.mem, pid, v) && s.mem.pt[Slot(pid, v)].page == p
    ensures Inv(System(SetPte(s.mem, Slot(child, v), Pte(p, false, true, false)),
                       s.harts[h := Busy(pid, ForkProtect(child, v, p))]))
  {
    var m, harts := s.mem, s.harts;
    assert HartInv(m, harts[h]);
    var x := Slot(child, v);
    assert m.pt[Slot(pid, v)].counted by { BusyCounted(s, h, Slot(pid, v)); }
    var e := Pte(p, false, true, false);
    var n, st := SetPte(m, x, e), Busy(pid, ForkProtect(child, v, p));
    assert x !in m.pt;
    forall g | g in harts && g != h
      ensures LeavesAlone(m, n, harts[g]) && Apart(harts[g], st)
    {
      assert Apart(harts[g], harts[h]);
      PteUndisturbs(s, h, g, x, e);
    }
    ShareOnePage(m, pid, child, v, e);
    Others(m, n, harts, h, st);
    StillExclusive(harts, h, st);
    assert Uncounted(n.pt, harts[h := st]) by { AddedUncounted(m.pt, harts, h, st, x, e); }
    UncountedCounts(m, harts, h, x, e, st);
  }

  lemma BusyCounted(s: System, h: Hart, x: Slot)
    requires Uncounted(s.mem.pt, s.harts) && Exclusive(s.harts) && HartsInv(s.mem, s.harts)
    requires h in s.harts && s.harts[h].Busy? && s.harts[h].phase.ForkLook? && x in s.mem.pt && x.pid == s.harts[h].pid
    ensures s.mem.pt[x].counted
  {
    forall g | g in s.harts
      ensures !Unsettled(s.harts[g], x)
    {
      assert HartInv(s.mem, s.harts[g]) && HartInv(s.mem, s.harts[h]);
      assert g != h ==> Apart(s.harts[g], s.harts[h]);
    }
  }

  lemma ShareOnePage(m: Mem, pid: Pid, child: Pid, v: Vpn, e: Pte)
    requires pid in m.heaps && pid != child && ForkInv(m, pid, child, v, v) && v < m.heaps[pid].top
    requires Forkable(m, pid, v) && e.page == m.pt[Slot(pid, v)].page
    ensures ForkInv(SetPte(m, Slot(child, v), e), pid, child, v, v + 1)
  {
    var n := SetPte(m, Slot(child, v), e);
    forall u: nat
      ensures Slot(child, u) in n.pt <==> HEAP_BOTTOM <= u < v + 1 && Forkable(n, pid, u)
    {
      assert Slot(child, u) in m.pt <==> HEAP_BOTTOM <= u < v && Forkable(m, pid, u);
      assert Forkable(n, pid, u) == Forkable(m, pid, u);
    }
  }

  lemma AddedUncounted(pt: map<Slot, Pte>, harts: map<Hart, HartState>, h: Hart, st: HartState, x: Slot, e: Pte)
    requires Uncounted(pt, harts) && h in harts && Unsettled(st, x) && forall y :: !Unsettled(harts[h], y)
    ensures Uncounted(pt[x := e], harts[h := st])
  {
    var pt', harts' := pt[x := e], harts[h := st];
    forall y | y in pt' && !pt'[y].counted
      ensures exists g :: g in harts' && Unsettled(harts'[g], y)
    {
      if y == x {
        assert h in harts' && Unsettled(harts'[h], y);
      } else {
        assert y in pt && !pt[y].counted;
        var g :| g in harts && Unsettled(harts[g], y);
        assert g in harts' && Unsettled(harts'[g], y);
      }
    }
  }

  lemma UncountedCounts(m: Mem, harts: map<Hart, HartState>, h: Hart, x: Slot, e: Pte, st: HartState)
    requires Counts(m, harts) && h in harts && x !in m.pt && !e.counted
    requires forall p :: !Holds(harts[h], p) && !Holds(st, p)
    ensures Counts(SetPte(m, x, e), harts[h := st])
  {
    var n := SetPte(m, x, e);
    forall q: nat | q < |m.pm.count|
      ensures Refs(n, harts[h := st], q) == Refs(m, harts, q)
    {
      SameRefs(n, harts, h, st, q);
      PteRefsAt(m.pt, x, e, q);
      assert PteRefs(n.pt, q) == PteRefs(m.pt, q);
    }
    StillCounted(m, n, harts, harts[h := st]);
  }

  function CountedMem(m: Mem, x: Slot, p: Page): Mem
    requires x in m.pt && p < |m.pm.count|
  {
    SetPte(m.(pm := Retain(m.pm, p)), x, m.pt[x].(counted := true))
  }

  lemma CountChildCounts(m: Mem, harts: map<Hart, HartState>, h: Hart, x: Slot, p: Page, st: HartState)
    requires Counts(m, harts) && h in harts && x in m.pt && !m.pt[x].counted && m.pt[x].page == p && p < |m.pm.count|
    requires 0 < m.pm.count[p] <= NPROC && p !in m.kernel
    requires forall q :: !Holds(harts[h], q) && !Holds(st, q)
    ensures Counts(CountedMem(m, x, p), harts[h := st])
  {
    var n := CountedMem(m, x, p);
    RetainKeepsConsistentIff(m.pm, p);
    forall q: nat | q < |m.pm.count|
      ensures n.pm.count[q] + Refs(m, harts, q) == m.pm.count[q] + Refs(n, harts[h := st], q)
    {
      SameRefs(n, harts, h, st, q);
      PteRefsAt(m.pt, x, n.pt[x], q);
      assert x !in PteRefs(m.pt, q);
      if q != p {
        assert PteRefs(n.pt, q) == PteRefs(m.pt, q);
      }
    }
    StillCounted(m, n, harts, harts[h := st]);
  }

  /** A count that goes from two upward disturbs no hart. */
  lemma RetainKeeps(m: Mem, n: Mem, st: HartState, p: Page)
    requires HartInv(m, st) && LeavesAlone(m, n, st) && n.pm == m.pm && p < |m.pm.count|
    requires Pins(st, p) ==> m.pm.count[p] >= 2
    ensures LeavesAlone(m, n.(pm := Retain(m.pm, p)), st)
  {
  }

  lemma RetainUndisturbs(s: System, h: Hart, g: Hart, parent: Slot, x: Slot, p: Page)
    requires Inv(s) && h in s.harts && g in s.harts && g != h && Forking(s.harts[h])
    requires CowAt(s.mem, parent, p) && parent.pid == s.harts[h].pid && p < |s.mem.pm.count|
    requires x in s.mem.pt && x.pid == s.harts[h].phase.child && s.mem.pt[x].page == p && x.vpn == parent.vpn
    ensures LeavesAlone(s.mem, CountedMem(s.mem, x, p), s.harts[g])
  {
    var m, st := s.mem, s.harts[g];
    var e := m.pt[x].(counted := true);
    assert HartInv(m, st) && Apart(st, s.harts[h]);
    assert parent in PteRefs(m.pt, p);
    if Pins(st, p) {
      PinnedTwice(s, g, p);
    }
    PteUndisturbs(s, h, g, x, e);
    RetainKeeps(m, SetPte(m, x, e), st, p);
    assert CountedMem(m, x, p) == SetPte(m, x, e).(pm := Retain(m.pm, p));
  }

  lemma ForkCountOthers(s: System, h: Hart, n: Mem, st: HartState)
    requires Inv(s) && h in s.harts && s.harts[h].Busy? && s.harts[h].phase.ForkCount?
    requires var ForkCount(child, v, p) := s.harts[h].phase;
      p < |s.mem.pm.count| && Slot(child, v) in s.mem.pt
      && n == CountedMem(s.mem, Slot(child, v), p) && st == Busy(s.harts[h].pid, ForkLook(child, v + 1))
    ensures HartsInv(n, s.harts[h := st]) && Exclusive(s.harts[h := st])
  {
    var m, harts := s.mem, s.harts;
    assert HartInv(m, harts[h]);
    var ForkCount(child, v, p) := harts[h].phase;
    var pid := harts[h].pid;
    forall g | g in harts && g != h
      ensures LeavesAlone(m, n, harts[g]) && Apart(harts[g], st)
    {
      assert Apart(harts[g], harts[h]);
      RetainUndisturbs(s, h, g, Slot(pid, v), Slot(child, v), p);
    }
    assert ForkInv(n, pid, child, v + 1, v + 1) by {
      forall u: nat
        ensures Slot(child, u) in n.pt <==> HEAP_BOTTOM <= u < v + 1 && Forkable(n, pid, u)
      {
        assert Forkable(n, pid, u) == Forkable(m, pid, u);
      }
    }
    Others(m, n, harts, h, st);
    StillExclusive(harts, h, st);
  }

  /** inc_page_ref: the child's entry now counts. */
  lemma ForkCountInv(s: System, h: Hart, junk: Frame)
    requires Inv(s) && Enabled(s, h, Proceed(junk)) && s.harts[h].phase.ForkCount?
    ensures Inv(Apply(s, h, Proceed(junk)))
  {
    var ForkCount(child, v, p) := s.harts[h].phase;
    var pid := s.harts[h].pid;
    assert Apply(s, h, Proceed(junk)) ==
      System(CountedMem(s.mem, Slot(child, v), p), s.harts[h := Busy(pid, ForkLook(child, v + 1))]);
    ForkCounted(s, h, pid, child, v, p);
  }

  lemma ForkCounted(s: System, h: Hart, pid: Pid, child: Pid, v: Vpn, p: Page)
    requires Inv(s) && h in s.harts && s.harts[h] == Busy(pid, ForkCount(child, v, p))
    requires p < |s.mem.pm.count| && Slot(child, v) in s.mem.pt
    ensures Inv(System(CountedMem(s.mem, Slot(child, v), p), s.harts[h := Busy(pid, ForkLook(child, v + 1))]))
  {
    CountedShape(s.mem, Slot(child, v), p);
    ChildEntry(s, h, pid, child, v, p);
    ChildCounts(s, h, pid, child, v, p);
    ForkCountOthers(s, h, CountedMem(s.mem, Slot(child, v), p), Busy(pid, ForkLook(child, v + 1)));
  }

  lemma ChildEntry(s: System, h: Hart, pid: Pid, child: Pid, v: Vpn, p: Page)
    requires Inv(s) && h in s.harts && s.harts[h] == Busy(pid, ForkCount(child, v, p))
    requires p < |s.mem.pm.count| && Slot(child, v) in s.mem.pt
    ensures var n, st := CountedMem(s.mem, Slot(child, v), p), Busy(pid, ForkLook(child, v + 1));
      Sharing(n.pt) && Uncounted(n.pt, s.harts[h := st])
  {
    var m, x := s.mem, Slot(child, v);
    assert HartInv(m, s.harts[h]);
    CountedChildSharing(m.pt, Slot(pid, v), x);
    CountedWrite(m.pt, s.harts, h, Busy(pid, ForkLook(child, v + 1)), x, m.pt[x].(counted := true));
  }

  lemma CountedShape(m: Mem, x: Slot, p: Page)
    requires Shape(m) && HeapShape(m) && x in m.pt && p < |m.pm.count|
    ensures Shape(CountedMem(m, x, p)) && HeapShape(CountedMem(m, x, p))
  {
  }

  lemma ChildCounts(s: System, h: Hart, pid: Pid, child: Pid, v: Vpn, p: Page)
    requires Inv(s) && h in s.harts && s.harts[h] == Busy(pid, ForkCount(child, v, p))
    requires p < |s.mem.pm.count| && Slot(child, v) in s.mem.pt
    ensures Counts(CountedMem(s.mem, Slot(child, v), p), s.harts[h := Busy(pid, ForkLook(child, v + 1))])
  {
    var m, harts := s.mem, s.harts;
    assert HartInv(m, harts[h]);
    assert Slot(pid, v) in PteRefs(m.pt, p);
    OneEntry(m, harts, Slot(pid, v), p);
    CountBound(s, p);
    CountChildCounts(m, harts, h, Slot(child, v), p, Busy(pid, ForkLook(child, v + 1)));
  }

  lemma CountedChildSharing(pt: map<Slot, Pte>, parent: Slot, x: Slot)
    requires Sharing(pt) && parent in pt && x in pt && pt[parent].counted && !pt[parent].w && !pt[x].w
    requires pt[x].page == pt[parent].page && x.vpn == parent.vpn
    ensures Sharing(pt[x := pt[x].(counted := true)])
  {
  }

  /** The end of do_fork: the child gets the parent's heap manager and becomes runnable. */
  lemma ForkDoneInv(s: System, h: Hart, junk: Frame)
    requires Inv(s) && Enabled(s, h, Proceed(junk)) && s.harts[h].phase.ForkLook?
    requires s.harts[h].phase.v >= s.mem.heaps[s.harts[h].pid].top
    ensures Inv(Apply(s, h, Proceed(junk)))
  {
    var m, harts := s.mem, s.harts;
    assert HartInv(m, harts[h]);
    var pid, child := harts[h].pid, harts[h].phase.child;
    var n, st := m.(heaps := m.heaps[child := m.heaps[pid]]), User(pid);
    forall g | g in harts && g != h
      ensures LeavesAlone(m, n, harts[g]) && Apart(harts[g], st)
    {
      assert Apart(harts[g], harts[h]) && HartInv(m, harts[g]);
    }
    Others(m, n, harts, h, st);
    StillExclusive(harts, h, st);
    StillUncounted(m.pt, harts, h, st);
    assert HeapShape(n) by {
      forall x | x in n.pt && x.pid == child
        ensures BelowTop(n.heaps[x.pid], x.vpn)
      {
        assert Slot(child, x.vpn) in m.pt;
      }
    }
    forall q: nat | q < |m.pm.count|
      ensures Refs(n, harts[h := st], q) == Refs(m, harts, q)
    {
      SameRefs(m, harts, h, st, q);
    }
    StillCounted(m, n, harts, harts[h := st]);
  }

  /** user_vm_unmap clears the entry after the page is gone. */
  lemma ClearingInv(s: System, h: Hart, junk: Frame)
    requires Inv(s) && Enabled(s, h, Proceed(junk)) && s.harts[h].phase.Clearing?
    ensures Inv(Apply(s, h, Proceed(junk)))
  {
    var m, harts := s.mem, s.harts;
    assert HartInv(m, harts[h]);
    var pid, vpn := harts[h].pid, harts[h].phase.vpn;
    var x, st := Slot(pid, vpn), User(pid);
    var heap := m.heaps[pid].(freed := m.heaps[pid].freed + [vpn]);
    var n := m.(pt := m.pt - {x}, heaps := m.heaps[pid := heap]);
    forall g | g in harts && g != h
      ensures LeavesAlone(m, n, harts[g]) && Apart(harts[g], st)
    {
      ClearUndisturbs(s, h, g, x, heap);
    }
    Others(m, n, harts, h, st);
    StillExclusive(harts, h, st);
    ClearedUncounted(m.pt, harts, h, st, x);
    assert HeapOk(heap);
    forall q: nat | q < |m.pm.count|
      ensures Refs(n, harts[h := st], q) == Refs(m, harts, q)
    {
      SameRefs(n, harts, h, st, q);
      assert PteRefs(n.pt, q) == PteRefs(m.pt, q);
    }
    StillCounted(m, n, harts, harts[h := st]);
  }

  lemma OtherSlots(m: Mem, x: Slot, heap: Heap, pid: Pid)
    requires pid != x.pid
    ensures SameSlots(m, m.(pt := m.pt - {x}, heaps := m.heaps[x.pid := heap]), pid)
  {
  }

  lemma ClearUndisturbs(s: System, h: Hart, g: Hart, x: Slot, heap: Heap)
    requires Inv(s) && h in s.harts && g in s.harts && g != h && s.harts[h].Busy? && x.pid == s.harts[h].pid
    ensures LeavesAlone(s.mem, s.mem.(pt := s.mem.pt - {x}, heaps := s.mem.heaps[x.pid := heap]), s.harts[g])
    ensures Apart(s.harts[g], User(x.pid))
  {
    var m, n := s.mem, s.mem.(pt := s.mem.pt - {x}, heaps := s.mem.heaps[x.pid := heap]);
    assert Apart(s.harts[g], s.harts[h]) && HartInv(m, s.harts[g]) && HartInv(m, s.harts[h]);
    if s.harts[g].Busy? {
      OtherSlots(m, x, heap, s.harts[g].pid);
      if Forking(s.harts[g]) {
        OtherSlots(m, x, heap, s.harts[g].phase.child);
      }
    }
  }

  lemma ClearedUncounted(pt: map<Slot, Pte>, harts: map<Hart, HartState>, h: Hart, st: HartState, x: Slot)
    requires Uncounted(pt, harts) && h in harts
    requires forall y :: Unsettled(harts[h], y) ==> y == x
    ensures Uncounted(pt - {x}, harts[h := st])
  {
    var harts' := harts[h := st];
    forall y | y in pt && y != x && !pt[y].counted
      ensures exists g :: g in harts' && Unsettled(harts'[g], y)
    {
      var g :| g in harts && Unsettled(harts[g], y);
      assert g in harts' && Unsettled(harts'[g], y);
    }
  }

  // ---------------------------------------------------------------- every step, every run

  lemma ProceedInv(s: System, h: Hart, junk: Frame)
    requires Inv(s) && Enabled(s, h, Proceed(junk))
    ensures Inv(Apply(s, h, Proceed(junk)))
  {
    var pid := s.harts[h].pid;
    match s.harts[h].phase
    case Fault(_, _) => FaultInv(s, h, junk);
    case Shared(_, _) => SharedInv(s, h, junk);
    case Sole(_, _) => SoleInv(s, h, junk);
    case Copying(_, _, _, done) => if done < PGSIZE { CopyByteInv(s, h, junk); } else { CopiedInv(s, h, junk); }
    case Dropping(_, _) => DroppingInv(s, h, junk);
    case Demand(_) => DemandInv(s, h, junk);
    case DemandHeld(_, _) => DemandHeldInv(s, h, junk);
    case AllocHeld(_) =>
      if Slot(pid, NextPage(s.mem.heaps[pid]).0) in s.mem.pt { AllocKillInv(s, h, junk); }
        else { AllocMapInv(s, h, junk); }
    case Clearing(_) => ClearingInv(s, h, junk);
    case ForkLook(_, v) =>
      if v >= s.mem.heaps[pid].top { ForkDoneInv(s, h, junk); }
      else if Forkable(s.mem, pid, v) { ForkShareInv(s, h, junk); }
      else { ForkSkipInv(s, h, junk); }
    case ForkProtect(_, _, _) => ForkProtectInv(s, h, junk);
    case ForkCount(_, _, _) => ForkCountInv(s, h, junk);
  }

  lemma StepInv(s: System, h: Hart, a: Action)
    requires Inv(s) && Enabled(s, h, a)
    ensures Inv(Apply(s, h, a))
  {
    match a
    case Dispatch(pid) => DispatchInv(s, h, pid);
    case Leave(dies) => LeaveInv(s, h, dies);
    case Load(vpn, off) => LoadInv(s, h, vpn, off);
    case Store(vpn, off, val) => StoreInv(s, h, vpn, off, val);
    case TrapStore(vpn) => TrapStoreInv(s, h, vpn);
    case SysAlloc => SysAllocInv(s, h);
    case SysFree(vpn, junk) =>
      if Slot(s.harts[h].pid, vpn) in s.mem.pt { FreeMappedInv(s, h, vpn, junk); }
        else { FreeUnmappedInv(s, h, vpn, junk); }
    case Fork(child, stale) => ForkStartInv(s, h, child, stale);
    case Proceed(junk) => ProceedInv(s, h, junk);
    case KernelTake => KernelTakeInv(s, h);
    case KernelGive(p, junk) => KernelGiveInv(s, h, p, junk);
    case KernelWrite(p, frame) => KernelWriteInv(s, h, p, frame);
  }

  lemma {:induction false} RunInv(states: seq<System>, moves: seq<Move>, i: nat)
    requires Run(states, moves) && i < |states|
    ensures Inv(states[i])
  {
    if i == 0 {
      InitInv(states[0]);
    } else {
      RunInv(states, moves, i - 1);
      StepInv(states[i - 1], moves[i - 1].hart, moves[i - 1].action);
    }
  }
}
