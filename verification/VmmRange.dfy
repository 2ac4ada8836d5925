/** What a range of pages that kernel/vmm.c has mapped, unmapped or protected means for the addresses in it. */
module VmmRange {
  import opened Sv39
  import opened Vmm

  // ---------------------------------------------------------------- the hardware's own walk

  /** How many bytes one entry of a table at this level covers. */
  function Covers(level: nat): (n: nat)
    ensures n > 0
  {
    if level == 0 then PGSIZE else ENTRIES * Covers(level - 1)
  }

  /** The translation of Sv39, without superpages: at each level nine bits of the address choose the entry. */
  function Hardware(mem: Mem, table: nat, va: nat, level: nat): nat
    requires WellSized(mem) && table in mem
    decreases level
  {
    var pte := mem[table][va / Covers(level) % ENTRIES];
    if level == 0 then pte
    else if !IsValid(pte) || PTE2PA(pte) !in mem then 0
    else Hardware(mem, PTE2PA(pte), va, level - 1)
  }

  /** The entry that page_walk finds is the one the hardware uses. */
  lemma HardwareAgrees(mem: Mem, root: nat, va: nat)
    requires WellSized(mem) && root in mem
    ensures Hardware(mem, root, va, 2) == PteAt(mem, root, va / PGSIZE)
  {
    assert Covers(0) == 0x1000 && Covers(1) == 0x20_0000 && Covers(2) == 0x4000_0000;
    IndicesFromVpn(va);
    var e2 := mem[root][Px2(va / PGSIZE)];
    if IsValid(e2) && PTE2PA(e2) in mem {
      var e1 := mem[PTE2PA(e2)][Px1(va / PGSIZE)];
      assert Hardware(mem, PTE2PA(e2), va, 1) ==
        if !IsValid(e1) || PTE2PA(e1) !in mem then 0 else Hardware(mem, PTE2PA(e1), va, 0);
    }
  }

  /** The entry page_walk makes for a new table page is a pointer to the hardware: valid, with no other flag. */
  lemma PointerFlags(page: nat)
    ensures FlagsOf(PA2PTE(page) + PTE_V) == Flags(true, false, false, false, false, false, false, false)
  {
    FlagsAlone(page / PGSIZE, PTE_V);
  }

  // ---------------------------------------------------------------- which pages a range has

  /** map_pages goes over exactly the pages that hold a byte of [va, va + size). */
  lemma RangeIs(va: nat, size: nat, v: nat)
    requires 0 < size && va + size <= WORD
    ensures FirstVpn(va) <= v < FirstVpn(va) + RangeLength(va, size) <==>
      v * PGSIZE < va + size && va < (v + 1) * PGSIZE
  {
    assert (va + size + WORD - 1) % WORD == va + size - 1;
  }

  /** So does user_vm_unmap, from an address at the start of a page. */
  lemma UnmapRangeIs(va: nat, size: nat, v: nat)
    requires va % PGSIZE == 0 && va + size < WORD
    ensures FirstVpn(va) <= v < FirstVpn(va) + PagesBelow(va, (va + size) % WORD) <==>
      v * PGSIZE < va + size && va < (v + 1) * PGSIZE
  {
  }

  // ---------------------------------------------------------------- where an address leads

  lemma PagesOn(pa: nat, va: nat, a: nat)
    requires va <= a && pa % PGSIZE == va % PGSIZE && pa + (a - va) < WORD
    ensures PaPlus(pa, a / PGSIZE - va / PGSIZE) / PGSIZE * PGSIZE + a % PGSIZE == pa + (a - va)
  {
    var k := a / PGSIZE - va / PGSIZE;
    assert a - a % PGSIZE == va - va % PGSIZE + k * PGSIZE;
    assert pa - pa % PGSIZE + k * PGSIZE + a % PGSIZE == pa + (a - va);
    assert pa + k * PGSIZE < WORD + PGSIZE;
    PageOn(pa, k);
    assert (pa / PGSIZE + k) * PGSIZE == pa - pa % PGSIZE + k * PGSIZE;
  }

  /**
   After a range has been mapped, every address in it leads to the address as far behind pa, provided that va and pa
   lie at the same place in their pages.
   */
  lemma MappedTranslates(mem: Mem, root: nat, f: seq<nat>, va: nat, size: nat, pa: nat, perm: nat, a: nat)
    requires WellSized(mem) && root in mem && |f| == VPNS && perm < 1024 && (Bit(perm, PTE_R) || Bit(perm, PTE_W))
    requires va + size <= MAXVA && pa + size <= WORD && pa % PGSIZE == va % PGSIZE && va <= a < va + size
    requires FirstVpn(va) + RangeLength(va, size) <= VPNS
    requires FlatOf(mem, root) == Mapped(f, FirstVpn(va), RangeLength(va, size), pa, perm)
    ensures LookupPa(mem, root, a) + a % PGSIZE == pa + (a - va)
  {
    var v := a / PGSIZE;
    RangeIs(va, size, v);
    MappedElsewhere(f, FirstVpn(va), RangeLength(va, size), pa, perm, v);
    assert PteAt(mem, root, v) == FlatOf(mem, root)[v];
    MappedIsFound(mem, root, a, PaPlus(pa, v - FirstVpn(va)), perm);
    PagesOn(pa, va, a);
  }

  /** After a range has been unmapped, no address in it leads anywhere. */
  lemma ClearedIsGone(mem: Mem, root: nat, f: seq<nat>, va: nat, size: nat, a: nat)
    requires WellSized(mem) && root in mem && |f| == VPNS && va % PGSIZE == 0 && va + size <= MAXVA
    requires va <= a < va + size && FirstVpn(va) + PagesBelow(va, va + size) <= VPNS
    requires FlatOf(mem, root) == Cleared(f, FirstVpn(va), PagesBelow(va, va + size))
    ensures LookupPa(mem, root, a) == 0 && UserVaToPa(mem, root, a) == 0
  {
    var v := a / PGSIZE;
    UnmapRangeIs(va, size, v);
    ClearedElsewhere(f, FirstVpn(va), PagesBelow(va, va + size), v);
    assert PteAt(mem, root, v) == FlatOf(mem, root)[v];
  }

  /** Unmapping a range right after mapping it hands out the very pages that were mapped, once each and in order. */
  lemma UnmapReleasesMapped(f: seq<nat>, first: nat, k: nat, pa: nat, perm: nat, j: nat)
    requires j < k && first + k <= |f| && perm < 1024
    ensures PagesOf(Mapped(f, first, k, pa, perm), first, k)[j] == PageAt(pa, j)
  {
    PagesAre(Mapped(f, first, k, pa, perm), first, k, j);
    MappedElsewhere(f, first, k, pa, perm, first + j);
    EntryRoundTrip(PaPlus(pa, j), perm);
    PageOn(pa, j);
  }

  // ---------------------------------------------------------------- protecting and giving back the right to write

  lemma LowSame(x: nat, y: nat)
    requires x % 256 == y % 256
    ensures FlagsOf(x).(cow := false) == FlagsOf(y).(cow := false)
  {
    LowOf(x);
    LowOf(y);
  }

  lemma LowOf(x: nat)
    ensures FlagsOf(x).(cow := false) == FlagsOf(x % 256).(cow := false)
  {
    var low, high := x % 256, x / 256;
    HalfAgrees(x, low, high, 256, 2, 128);
    HalfAgrees(x, low, high, 256, 4, 64);
    HalfAgrees(x, low, high, 256, 8, 32);
    HalfAgrees(x, low, high, 256, 16, 16);
    HalfAgrees(x, low, high, 256, 64, 4);
    HalfAgrees(x, low, high, 256, 128, 2);
  }

  lemma UpperSame(x: nat, y: nat)
    requires x / 8 == y / 8
    ensures Bit(x, PTE_X) == Bit(y, PTE_X) && Bit(x, PTE_U) == Bit(y, PTE_U) && Bit(x, PTE_A) == Bit(y, PTE_A)
    ensures Bit(x, PTE_D) == Bit(y, PTE_D) && Bit(x, PTE_COW) == Bit(y, PTE_COW)
  {
    assert x / 16 == x / 8 / 2 && y / 16 == y / 8 / 2;
    assert x / 64 == x / 8 / 8 && y / 64 == y / 8 / 8;
    assert x / 128 == x / 8 / 16 && y / 128 == y / 8 / 16;
    assert x / 256 == x / 8 / 32 && y / 256 == y / 8 / 32;
  }

  /** user_vm_set_cow takes the right to write, sets the mark and leaves every other flag and the page alone. */
  lemma ProtectedFlags(pte: nat)
    ensures FlagsOf(Protected(pte)) == FlagsOf(pte).(w := false, cow := true) && PTE2PA(Protected(pte)) == PTE2PA(pte)
  {
    WriteFlags(pte);
    MarkFlags(ClearBit(pte, PTE_W));
    ProtectedPage(pte);
  }

  lemma WriteFlags(pte: nat)
    ensures FlagsOf(ClearBit(pte, PTE_W)) == FlagsOf(pte).(w := false)
  {
    var x := ClearBit(pte, PTE_W);
    ClearedWrite(pte);
    UpperSame(pte, x);
    LowThree(pte, x);
  }

  lemma LowThree(x: nat, y: nat)
    requires y % 8 == x % 4 && y / 8 == x / 8
    ensures !Bit(y, PTE_W) && (Bit(y, PTE_R) <==> Bit(x, PTE_R)) && (IsValid(y) <==> IsValid(x))
  {
    LowBits(x);
    LowBits(y);
  }

  lemma MarkFlags(x: nat)
    ensures FlagsOf(SetBit(x, PTE_COW)) == FlagsOf(x).(cow := true)
  {
    SetCowBit(x);
    LowSame(x, SetBit(x, PTE_COW));
  }

  lemma ProtectedPage(pte: nat)
    ensures PTE2PA(Protected(pte)) == PTE2PA(pte)
  {
    var x := ClearBit(pte, PTE_W);
    ClearedWrite(pte);
    SetCowBit(x);
    HighBits(x, pte);
    assert Protected(pte) / 1024 == Protected(pte) / 512 / 2 && pte / 1024 == pte / 512 / 2;
  }

  /** The store-page-fault handler on a page that nobody shares: (*pte | PTE_W | PTE_D) & ~PTE_COW. */
  function Unprotected(pte: nat): nat {
    ClearBit(SetBit(SetBit(pte, PTE_W), PTE_D), PTE_COW)
  }

  /** A writable entry that was protected for a fork and is not shared any more becomes what it was. */
  lemma FaultRestores(pte: nat)
    requires FlagsOf(pte).w && FlagsOf(pte).d && !FlagsOf(pte).cow
    ensures Unprotected(Protected(pte)) == pte
  {
    var x, e := ClearBit(pte, PTE_W), Protected(pte);
    ProtectedFlags(pte);
    ClearedWrite(pte);
    UpperSame(pte, x);
    assert pte >= 4;
    assert e == pte - 4 + 256;
    var y := SetBit(e, PTE_W);
    assert y == pte + 256;
    PlusCow(pte);
    assert SetBit(y, PTE_D) == y;
  }

  lemma PlusCow(x: nat)
    requires !Bit(x, PTE_COW)
    ensures Bit(x + 256, PTE_COW) && (Bit(x + 256, PTE_D) <==> Bit(x, PTE_D))
  {
    LowSame(x, x + 256);
    assert (x + 256) / 256 == x / 256 + 1;
  }

  /** The entry of a heap page: readable, writable and for the user; a fork and a later store leave it as it was. */
  lemma HeapEntry(pa: nat)
    ensures var e := LeafEntry(pa, ProtToType(true, true, false, true));
      FlagsOf(e) == Flags(true, true, true, false, true, true, true, false) && Unprotected(Protected(e)) == e
  {
    var perm := ProtToType(true, true, false, true);
    LeafFlags(pa, perm);
    FaultRestores(LeafEntry(pa, perm));
  }
}
