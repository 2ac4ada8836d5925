/**
 The physical page allocator of kernel/pmm.c: a free list threaded through the free pages and a
 16-bit reference count per page.

 `PmmSpec` gives the allocator as a value with one function per lock-protected operation.  The
 same functions are the allocator steps of the copy-on-write machine (module Cow) and the atomic
 operations that the spinlock machine (module PmmLock) refines.  `Pmm` is the allocator itself,
 updated in place and indexed by physical address.
 */
module PmmSpec {
  import opened Sequences

  const PGSIZE := 4096
  const COUNT_LIMIT := 65536  // page_ref_count[] holds uint16 values

  type Page = nat  // index of a page, counted from the start of free memory

  datatype Pmm = Pmm(count: seq<nat>, free: seq<Page>)

  /** The free list holds each page of count zero exactly once, and nothing else. */
  predicate Consistent(m: Pmm) {
    && Distinct(m.free)
    && (forall i :: 0 <= i < |m.free| ==> m.free[i] < |m.count|)
    && (forall p: nat :: p < |m.count| ==> (p in m.free <==> m.count[p] == 0))
  }

  /** alloc_page on a non-empty list: the page handed out is `m.free[0]`. */
  function Take(m: Pmm): (r: Pmm)
    requires m.free != [] && m.free[0] < |m.count|
  {
    Pmm(m.count[m.free[0] := 1], m.free[1..])
  }

  /** The count free_page and dec_page_ref leave behind; they push the page when it is zero. */
  function Lowered(c: nat): nat {
    if c > 0 then c - 1 else 0
  }

  function Release(m: Pmm, p: Page): (r: Pmm)
    requires p < |m.count|
  {
    var c := Lowered(m.count[p]);
    Pmm(m.count[p := c], if c == 0 then [p] + m.free else m.free)
  }

  /** inc_page_ref: a uint16 increment. */
  function Retain(m: Pmm, p: Page): (r: Pmm)
    requires p < |m.count|
  {
    m.(count := m.count[p := (m.count[p] + 1) % COUNT_LIMIT])
  }

  /** Pages n - 1 down to 0. */
  function Down(n: nat): (s: seq<Page>)
    ensures |s| == n && forall i :: 0 <= i < n ==> s[i] == n - 1 - i
  {
    seq(n, i requires 0 <= i < n => n - 1 - i)
  }

  /** What create_freepage_list leaves: m pages of count zero, the first n of them on the list. */
  function Built(n: nat, m: nat): Pmm {
    Pmm(seq(m, _ => 0), Down(n))
  }

  /** A page of count zero that is missing from the list makes the difference. */
  lemma BuiltConsistentIff(n: nat, m: nat)
    requires n <= m
    ensures Consistent(Built(n, m)) <==> n == m
  {
    forall p: nat | p < n
      ensures p in Down(n)
    {
      assert Down(n)[n - 1 - p] == p;
    }
    assert n < m ==> n !in Down(n) && Built(n, m).count[n] == 0;
  }

  /** One page, freed although it is free: it is on the list twice, and two calls of alloc_page return it. */
  lemma DoubleFree()
    ensures Consistent(Built(1, 1)) && Release(Built(1, 1), 0).free == [0, 0] && !Consistent(Release(Built(1, 1), 0))
  {
    BuiltConsistentIff(1, 1);
    ReleaseKeepsConsistentIff(Built(1, 1), 0);
    assert Release(Built(1, 1), 0).free == [0] + Down(1) == [0, 0];
  }

  lemma DistinctTail<T>(s: seq<T>)
    requires s != [] && Distinct(s)
    ensures Distinct(s[1..]) && s[0] !in s[1..]
    ensures forall x :: x in s <==> x == s[0] || x in s[1..]
  {
    assert s == [s[0]] + s[1..];
  }

  lemma DistinctPush<T>(x: T, s: seq<T>)
    ensures Distinct([x] + s) <==> Distinct(s) && x !in s
  {
    var t := [x] + s;
    if Distinct(t) {
      assert forall i :: 0 <= i < |s| ==> s[i] == t[i + 1];
      assert t[0] == x;
    }
  }

  /** A page is handed out once: it leaves the list with count one and every other page keeps its place. */
  lemma TakeKeepsConsistent(m: Pmm)
    requires Consistent(m) && m.free != []
    ensures Consistent(Take(m))
    ensures m.count[m.free[0]] == 0 && m.free[0] !in Take(m).free
  {
    DistinctTail(m.free);
  }

  /**
   Freeing keeps the list consistent exactly when the page is not free already: free_page does not
   look for the page on the list, so freeing at count zero pushes it a second time.
   */
  lemma ReleaseKeepsConsistentIff(m: Pmm, p: Page)
    requires Consistent(m) && p < |m.count|
    ensures Consistent(Release(m, p)) <==> m.count[p] > 0
  {
    DistinctPush(p, m.free);
    var r := Release(m, p);
    if m.count[p] == 1 {
      assert forall q :: q in r.free <==> q == p || q in m.free;
    }
  }

  /** Taking a reference keeps the list consistent exactly when the page is in use and its count does not wrap. */
  lemma RetainKeepsConsistentIff(m: Pmm, p: Page)
    requires Consistent(m) && p < |m.count| && m.count[p] < COUNT_LIMIT
    ensures Consistent(Retain(m, p)) <==> 0 < m.count[p] < COUNT_LIMIT - 1
  {
    assert m.count[p] == COUNT_LIMIT - 1 ==> Retain(m, p).count[p] == 0;
    assert p in m.free <==> m.count[p] == 0;
    assert p in Retain(m, p).free <==> p in m.free;
  }

  /** What is taken and put back at once leaves the allocator as it was. */
  lemma ReleaseUndoesTake(m: Pmm)
    requires Consistent(m) && m.free != []
    ensures Release(Take(m), m.free[0]) == m
  {
    assert m.free == [m.free[0]] + m.free[1..];
    assert Release(Take(m), m.free[0]).count == m.count;
  }
}

module Pmm {
  import opened PmmSpec

  datatype Outcome = Done | Panic

  /** The page at address start + k * PGSIZE, below end, is page k and has a count. */
  lemma PageAt(start: nat, end: nat, k: nat)
    requires start % PGSIZE == 0 && start + k * PGSIZE + PGSIZE <= end
    ensures (start + k * PGSIZE) % PGSIZE == 0 && k < (end - start) / PGSIZE
    ensures PageAllocator.Index(start, start + k * PGSIZE) == k
  {
  }

  /** How many pages the loop of create_freepage_list frees, and when they are all there are. */
  lemma PagesFreed(start: nat, end: nat, k: nat)
    requires start % PGSIZE == 0 && start <= end <= start + k * PGSIZE + PGSIZE
    requires k > 0 ==> start + k * PGSIZE < end
    ensures k == if end - start <= PGSIZE then 0 else (end - start - 1) / PGSIZE
    ensures k <= (end - start) / PGSIZE
    ensures k == (end - start) / PGSIZE <==> end % PGSIZE != 0 || start == end
  {
  }

  /** The addresses of the first k pages, highest first. */
  function Addresses(start: nat, k: nat): (r: seq<nat>)
    ensures |r| == k
  {
    if k == 0 then [] else [start + (k - 1) * PGSIZE] + Addresses(start, k - 1)
  }

  lemma {:induction false} AddressAt(start: nat, k: nat, i: nat)
    requires i < k
    ensures Addresses(start, k)[i] == start + (k - 1 - i) * PGSIZE
  {
    if i > 0 { AddressAt(start, k - 1, i - 1); }
  }

  class PageAllocator {
    const start: nat  // free_mem_start_addr, page aligned
    const end: nat    // free_mem_end_addr, not included
    const refCount: array<nat>
    var freeList: seq<nat>  // physical addresses, head first

    predicate Valid()
      reads this, refCount
    {
      && start % PGSIZE == 0 && start <= end
      && refCount.Length == (end - start) / PGSIZE
      && (forall i :: 0 <= i < refCount.Length ==> refCount[i] < COUNT_LIMIT)
      && (forall i :: 0 <= i < |freeList| ==> InRange(freeList[i]))
    }

    predicate InRange(a: nat) {
      a % PGSIZE == 0 && start <= a < start + refCount.Length * PGSIZE
    }

    static function Index(start: nat, a: nat): nat {
      if start <= a then (a - start) / PGSIZE else 0
    }

    ghost function View(): Pmm
      requires Valid()
      reads this, refCount
    {
      Pmm(refCount[..], Indices(freeList))
    }

    ghost function Indices(list: seq<nat>): (r: seq<Page>)
      ensures |r| == |list| && forall i :: 0 <= i < |list| ==> r[i] == Index(start, list[i])
    {
      seq(|list|, i requires 0 <= i < |list| => Index(start, list[i]))
    }

    /** pmm_init: every page p with p + PGSIZE < end goes on the list, highest first. */
    constructor (start: nat, end: nat)
      requires start % PGSIZE == 0 && start <= end
      ensures Valid() && this.start == start && this.end == end
      ensures forall i :: 0 <= i < refCount.Length ==> refCount[i] == 0
      ensures |freeList| == (if end - start <= PGSIZE then 0 else (end - start - 1) / PGSIZE)
      ensures forall i :: 0 <= i < |freeList| ==> freeList[i] == start + (|freeList| - 1 - i) * PGSIZE
      ensures View() == Built(|freeList|, refCount.Length) &&
        (Consistent(View()) <==> end % PGSIZE != 0 || start == end)
    {
      this.start := start;
      this.end := end;
      refCount := new nat[(end - start) / PGSIZE](_ => 0);
      freeList := [];
      new;
      CreateFreeList();
      ghost var k := |freeList|;
      PagesFreed(start, end, k);
      BuiltConsistentIff(k, refCount.Length);
      IndicesAreDown(k);
      forall i | 0 <= i < k ensures freeList[i] == start + (k - 1 - i) * PGSIZE { AddressAt(start, k, i); }
    }

    /** create_freepage_list. */
    method CreateFreeList()
      requires Valid() && freeList == [] && forall i :: 0 <= i < refCount.Length ==> refCount[i] == 0
      modifies this`freeList, refCount
      ensures Valid() && freeList == Addresses(start, |freeList|)
      ensures end <= start + |freeList| * PGSIZE + PGSIZE && (freeList != [] ==> start + |freeList| * PGSIZE < end)
      ensures forall i :: 0 <= i < refCount.Length ==> refCount[i] == 0
    {
      var k: nat := 0;
      while start + k * PGSIZE + PGSIZE < end
        invariant Valid() && (k > 0 ==> start + k * PGSIZE < end)
        invariant forall i :: 0 <= i < refCount.Length ==> refCount[i] == 0
        invariant freeList == Addresses(start, k)
        decreases end - k
      {
        FreeNext(k);
        assert freeList == Addresses(start, k + 1);
        k := k + 1;
      }
    }

    method FreeNext(k: nat)
      requires Valid() && start + k * PGSIZE + PGSIZE <= end
      requires forall i :: 0 <= i < refCount.Length ==> refCount[i] == 0
      modifies this`freeList, refCount
      ensures Valid() && k < refCount.Length
      ensures freeList == [start + k * PGSIZE] + old(freeList)
      ensures forall i :: 0 <= i < refCount.Length ==> refCount[i] == 0
    {
      PageAt(start, end, k);
      var outcome := FreePage(start + k * PGSIZE);
    }

    lemma IndicesAreDown(k: nat)
      requires start % PGSIZE == 0 && (k > 0 ==> start + k * PGSIZE <= end)
      ensures Indices(Addresses(start, k)) == Down(k)
    {
      forall i | 0 <= i < k ensures Indices(Addresses(start, k))[i] == Down(k)[i] {
        AddressAt(start, k, i);
        PageAt(start, end, k - 1 - i);
      }
    }

    /** free_page and dec_page_ref. */
    method FreePage(pa: nat) returns (outcome: Outcome)
      requires Valid()
      modifies this`freeList, refCount
      ensures Valid()
      ensures outcome.Panic? <==> pa % PGSIZE != 0 || pa < start || pa >= start + refCount.Length * PGSIZE
      ensures outcome.Panic? ==> View() == old(View()) && freeList == old(freeList)
      ensures outcome.Done? ==> View() == Release(old(View()), Index(start, pa))
      ensures outcome.Done? ==>
        freeList == if refCount[Index(start, pa)] == 0 then [pa] + old(freeList) else old(freeList)
    {
      if pa % PGSIZE != 0 || pa < start || pa >= end {
        return Panic;
      }
      var idx := (pa - start) / PGSIZE;
      if idx >= refCount.Length {
        return Panic;
      }
      if refCount[idx] > 0 {
        refCount[idx] := refCount[idx] - 1;
      }
      if refCount[idx] == 0 {
        freeList := [pa] + freeList;
      }
      assert View().free == Release(old(View()), idx).free;
      return Done;
    }

    /** alloc_page: 0 stands for the null pointer. */
    method AllocPage() returns (pa: nat)
      requires Valid() && start > 0
      modifies this`freeList, refCount
      ensures Valid()
      ensures pa == 0 <==> old(freeList) == []
      ensures pa == 0 ==> View() == old(View())
      ensures old(freeList) != [] ==> old(InRange(freeList[0]))
      ensures pa != 0 ==> pa == old(freeList)[0] && freeList == old(freeList)[1..]
      ensures pa != 0 ==> View() == Take(old(View()))
    {
      if freeList == [] {
        return 0;
      }
      pa := freeList[0];
      assert InRange(pa);
      freeList := freeList[1..];
      var idx := (pa - start) / PGSIZE;
      if idx < refCount.Length {
        refCount[idx] := 1;
      }
      assert View().free == Take(old(View())).free;
    }

    method IncPageRef(pa: nat)
      requires Valid()
      modifies refCount
      ensures Valid() && freeList == old(freeList)
      ensures View() == if start <= pa < end && Index(start, pa) < refCount.Length
                        then Retain(old(View()), Index(start, pa)) else old(View())
    {
      if pa < start || pa >= end {
        return;
      }
      var idx := (pa - start) / PGSIZE;
      if idx < refCount.Length {
        refCount[idx] := (refCount[idx] + 1) % COUNT_LIMIT;
        assert View().count == Retain(old(View()), idx).count;
      }
    }

    method GetPageRef(pa: nat) returns (ref: nat)
      requires Valid()
      ensures ref == if start <= pa < end && Index(start, pa) < refCount.Length
                     then View().count[Index(start, pa)] else 0
    {
      if pa < start || pa >= end {
        return 0;
      }
      var idx := (pa - start) / PGSIZE;
      ref := if idx < refCount.Length then refCount[idx] else 0;
    }
  }
}
