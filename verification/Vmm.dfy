/** kernel/vmm.c on one page directory: page_walk, map_pages, user_vm_unmap and the copy-on-write entry updates. */
module Vmm {
  import opened Sv39

  /** `Kill` is a call of kill_current_process, which never returns to its caller. */
  datatype Walked = NoEntry | Entry(table: nat, index: nat) | Kill

  datatype Outcome = Done | OutOfMemory | Killed

  /** ROUNDDOWN(va, PGSIZE) / PGSIZE and ROUNDDOWN(va + size - 1, PGSIZE) / PGSIZE in uint64 arithmetic. */
  function FirstVpn(va: nat): nat { va / PGSIZE }
  function LastVpn(va: nat, size: nat): nat { (va + size + WORD - 1) % WORD / PGSIZE }

  function PaPlus(pa: nat, k: nat): nat { (pa + k * PGSIZE) % WORD }

  function CowPerm(): nat { PTE_R + PTE_A + PTE_U + PTE_COW }

  /** prot_to_type */
  function ProtToType(read: bool, write: bool, exec: bool, user: bool): (perm: nat)
    ensures perm < 1024 && !IsValid(perm) && !Bit(perm, PTE_COW)
    ensures Bit(perm, PTE_R) <==> read || (!write && !exec)
    ensures Bit(perm, PTE_W) <==> write
    ensures Bit(perm, PTE_X) <==> exec
    ensures Bit(perm, PTE_U) <==> user
    ensures Bit(perm, PTE_D) <==> write
    ensures Bit(perm, PTE_A) <==> read || exec
  {
    (if read then PTE_R else if !write && !exec then PTE_R else 0) + (if read || exec then PTE_A else 0)
    + (if write then PTE_W + PTE_D else 0) + (if exec then PTE_X else 0) + (if user then PTE_U else 0)
  }

  ghost function FlatOf(mem: Mem, root: nat): (f: seq<nat>)
    requires WellSized(mem) && root in mem
    ensures |f| == VPNS && forall v :: 0 <= v < VPNS ==> f[v] == PteAt(mem, root, v)
  {
    seq(VPNS, v requires 0 <= v < VPNS => PteAt(mem, root, v))
  }

  class PageTable {
    const root: nat
    var mem: Mem
    var free: seq<nat>            // pages alloc_page can hand out, head first
    ghost var role: map<nat, Role>

    ghost predicate Valid()
      reads this
    {
      && Tree(mem, role, root)
      && (forall i :: 0 <= i < |free| ==> free[i] in mem && free[i] !in role && PageAddress(free[i]))
      && (forall i, j :: 0 <= i < j < |free| ==> free[i] != free[j])
    }

    /** The flat map: virtual page to entry. */
    ghost function Flat(): (f: seq<nat>)
      requires Valid()
      reads this
      ensures |f| == VPNS
    {
      FlatOf(mem, root)
    }

    /** The pages outside the tree and off the free list, with their contents. */
    ghost function Outside(): Mem
      reads this
    {
      map p | p in mem && p !in role && p !in free :: mem[p]
    }

    /** A zeroed root page: nothing is mapped. */
    constructor (root: nat, mem: Mem, free: seq<nat>)
      requires WellSized(mem) && root in mem && mem[root] == ZeroPage()
      requires forall i :: 0 <= i < |free| ==> free[i] in mem && free[i] != root && PageAddress(free[i])
      requires forall i, j :: 0 <= i < j < |free| ==> free[i] != free[j]
      ensures Valid() && this.root == root && this.mem == mem && this.free == free
      ensures forall v: nat :: v < VPNS ==> Flat()[v] == 0
    {
      this.root := root;
      this.mem := mem;
      this.free := free;
      role := map[root := Root];
    }

    /** Table pages already in the tree keep their place and their valid entries. */
    twostate predicate TreeKept()
      requires old(Valid()) && Valid()
      reads this
    {
      && (forall t :: t in old(role) ==> t in role && role[t] == old(role)[t])
      && (forall t, j: nat :: t in old(role) && j < ENTRIES && IsValid(old(mem)[t][j]) ==> mem[t][j] == old(mem)[t][j])
    }

    /** One level of page_walk: from entry i of table t to the next table, which has role r. */
    method Descend(t: nat, i: nat, r: Role, alloc: bool) returns (found: bool, p: nat)
      requires Valid() && t in role && i < ENTRIES
      requires (t == root && r == Mid(i)) || (role[t].Mid? && r == LeafTable(role[t].i, i))
      modifies this`mem, this`free, this`role
      ensures Valid() && Outside() == old(Outside()) && TreeKept()
      ensures Flat() == old(Flat())
      ensures found ==> p in role && role[p] == r && IsValid(mem[t][i]) && PTE2PA(mem[t][i]) == p
      ensures !found ==> !IsValid(mem[t][i]) && (alloc ==> free == [])
      ensures (old(IsValid(mem[t][i])) || !found) ==> mem == old(mem) && free == old(free) && role == old(role)
      ensures !alloc ==> mem == old(mem) && free == old(free) && role == old(role)
    {
      if IsValid(mem[t][i]) {
        assert Points(mem, role, t, i, r);
        return true, PTE2PA(mem[t][i]);
      }
      if !alloc || free == [] {
        return false, 0;
      }
      p := Grow(t, i, r);
      PointerRoundTrip(p);
      return true, p;
    }

    /** page_walk: with `alloc`, missing table pages are allocated and zeroed on the way down. */
    method PageWalk(va: nat, alloc: bool) returns (w: Walked)
      requires Valid()
      modifies this`mem, this`free, this`role
      ensures Valid() && Outside() == old(Outside())
      ensures Flat() == old(Flat())
      ensures w.Kill? <==> va >= MAXVA
      ensures !alloc || w.Kill? ==> mem == old(mem) && free == old(free) && role == old(role)
      ensures w.Entry? ==> Walk(mem, root, va / PGSIZE) == Found(w.table, w.index)
      ensures w.NoEntry? ==> Walk(mem, root, va / PGSIZE) == Missing
      ensures w.NoEntry? && alloc ==> free == []
    {
      if va >= MAXVA {
        return Kill;
      }
      IndicesFromVpn(va);
      ghost var vpn := va / PGSIZE;
      var found, mid := Descend(root, PX(2, va), Mid(PX(2, va)), alloc);
      if !found {
        return NoEntry;
      }
      var leaf;
      found, leaf := Descend(mid, PX(1, va), LeafTable(PX(2, va), PX(1, va)), alloc);
      if !found {
        return NoEntry;
      }
      return Entry(leaf, PX(0, va));
    }

    /** The allocating branch of page_walk: take a page, zero it, point the entry at it. */
    method Grow(t: nat, i: nat, r: Role) returns (p: nat)
      requires Valid() && free != [] && t in role && i < ENTRIES && !IsValid(mem[t][i])
      requires (t == root && r == Mid(i)) || (role[t].Mid? && r == LeafTable(role[t].i, i))
      modifies this`mem, this`free, this`role
      ensures Valid() && Outside() == old(Outside())
      ensures Flat() == old(Flat())
      ensures p == old(free)[0] && free == old(free)[1..]
      ensures mem == Graft(old(mem), t, i, p) && role == old(role)[p := r] && p !in old(role)
    {
      p := free[0];
      if t == root {
        GraftMid(mem, role, root, i, p);
      } else {
        GraftLeaf(mem, role, root, t, i, p);
      }
      free := free[1..];
      mem := Graft(mem, t, i, p);
      role := role[p := r];
    }

    /** One iteration of the loop in map_pages. */
    method MapOne(vpn: nat, e: nat) returns (outcome: Outcome)
      requires Valid()
      modifies this`mem, this`free, this`role
      ensures Valid() && Outside() == old(Outside())
      ensures outcome.Done? ==> vpn < VPNS && !IsValid(old(Flat())[vpn]) && Flat() == old(Flat())[vpn := e]
      ensures !outcome.Done? ==> Flat() == old(Flat())
      ensures outcome.Killed? <==> vpn >= VPNS || IsValid(old(Flat())[vpn])
      ensures outcome.OutOfMemory? ==> free == []
    {
      var w := PageWalk(vpn * PGSIZE, true);
      if w.Kill? {
        return Killed;
      }
      if w.NoEntry? {
        return OutOfMemory;
      }
      WalkRole(mem, role, root, vpn);
      if IsValid(mem[w.table][w.index]) {
        return Killed;
      }
      SetEntry(vpn, w.table, w.index, e);
      return Done;
    }

    /**
     map_pages: the pages of the range get their entries in order until one is already mapped or lies
     at or above MAXVA (the process is killed) or a table page is missing (-1).
     */
    method MapPages(va: nat, size: nat, pa: nat, perm: nat) returns (outcome: Outcome, ghost k: nat)
      requires Valid() && va < WORD && size < WORD && perm < 1024
      modifies this`mem, this`free, this`role
      ensures Valid() && Outside() == old(Outside())
      ensures FirstVpn(va) + k <= VPNS || k == 0
      ensures Flat() == Mapped(old(Flat()), FirstVpn(va), k, pa, perm)
      ensures Unmapped(old(Flat()), FirstVpn(va), k)
      ensures outcome.Done? ==> k == RangeLength(va, size)
      ensures !outcome.Done? ==> k < RangeLength(va, size)
      ensures outcome.Killed? ==> FirstVpn(va) + k >= VPNS || IsValid(old(Flat())[FirstVpn(va) + k])
      ensures outcome.OutOfMemory? ==> free == []
    {
      outcome, k := MapRange(FirstVpn(va), RangeLength(va, size), pa, perm);
    }

    /** The loop of map_pages over n virtual pages and as many physical ones. */
    method MapRange(first: nat, n: nat, pa: nat, perm: nat) returns (outcome: Outcome, ghost k: nat)
      requires Valid() && perm < 1024
      modifies this`mem, this`free, this`role
      ensures Valid() && Outside() == old(Outside())
      ensures first + k <= VPNS || k == 0
      ensures Flat() == Mapped(old(Flat()), first, k, pa, perm)
      ensures Unmapped(old(Flat()), first, k)
      ensures if outcome.Done? then k == n else k < n
      ensures outcome.Killed? ==> first + k >= VPNS || IsValid(old(Flat())[first + k])
      ensures outcome.OutOfMemory? ==> free == []
    {
      ghost var flat := Flat();
      var i := 0;
      while i < n
        invariant Valid() && Outside() == old(Outside()) && i <= n
        invariant first + i <= VPNS || i == 0
        invariant Flat() == Mapped(flat, first, i, pa, perm)
        invariant Unmapped(flat, first, i)
      {
        outcome := MapNext(first, i, pa, perm, flat);
        if !outcome.Done? {
          return outcome, i;
        }
        i := i + 1;
      }
      return Done, i;
    }

    /** One iteration, after i. */
    method MapNext(first: nat, i: nat, pa: nat, perm: nat, ghost flat: seq<nat>) returns (outcome: Outcome)
      requires Valid() && perm < 1024 && |flat| == VPNS && (first + i <= VPNS || i == 0)
      requires Flat() == Mapped(flat, first, i, pa, perm) && Unmapped(flat, first, i)
      modifies this`mem, this`free, this`role
      ensures Valid() && Outside() == old(Outside())
      ensures if outcome.Done? then first + i < VPNS && Flat() == Mapped(flat, first, i + 1, pa, perm)
              else Flat() == old(Flat())
      ensures outcome.Done? ==> Unmapped(flat, first, i + 1)
      ensures outcome.Killed? ==> first + i >= VPNS || IsValid(flat[first + i])
      ensures outcome.OutOfMemory? ==> free == []
    {
      if first + i < VPNS {
        MappedElsewhere(flat, first, i, pa, perm, first + i);
      }
      outcome := MapOne(first + i, LeafEntry(PaPlus(pa, i), perm));
    }

    /** *pte = e */
    method SetEntry(ghost vpn: nat, table: nat, index: nat, e: nat)
      requires Valid() && vpn < VPNS && Walk(mem, root, vpn) == Found(table, index)
      modifies this`mem
      ensures Valid() && Outside() == old(Outside())
      ensures Flat() == old(Flat())[vpn := e]
    {
      WriteLeaf(mem, role, root, vpn, e);
      WalkRole(mem, role, root, vpn);
      mem := Put(mem, table, index, e);
    }

    /** user_vm_map_cow: read-only, marked copy-on-write; running out of table pages goes unreported. */
    method MapCow(va: nat, size: nat, pa: nat) returns (killed: bool, ghost k: nat)
      requires Valid() && va < WORD && size < WORD
      modifies this`mem, this`free, this`role
      ensures Valid() && Outside() == old(Outside())
      ensures FirstVpn(va) + k <= VPNS || k == 0
      ensures Flat() == Mapped(old(Flat()), FirstVpn(va), k, pa, CowPerm())
      ensures forall v: nat :: FirstVpn(va) <= v < FirstVpn(va) + k ==>
        FlagsOf(Flat()[v]) == READ_ONLY_COPY && PTE2PA(Flat()[v]) == PageAt(pa, v - FirstVpn(va))
      ensures killed ==> FirstVpn(va) + k >= VPNS || IsValid(old(Flat())[FirstVpn(va) + k])
      ensures !killed && free != [] ==> k == RangeLength(va, size)
    {
      var outcome;
      ghost var flat := Flat();
      outcome, k := MapPages(va, size, pa, CowPerm());
      killed := outcome.Killed?;
      CowRange(flat, FirstVpn(va), k, pa);
    }

    /** user_vm_set_cow */
    method SetCow(va: nat) returns (killed: bool)
      requires Valid()
      modifies this`mem, this`free, this`role
      ensures Valid() && Outside() == old(Outside())
      ensures killed <==> va >= MAXVA
      ensures var v := va / PGSIZE;
        Flat() == if v < VPNS && IsValid(old(Flat())[v]) then old(Flat())[v := Protected(old(Flat())[v])]
          else old(Flat())
    {
      var w := PageWalk(va, false);
      if w.Kill? {
        return true;
      }
      if w.Entry? {
        WalkRole(mem, role, root, va / PGSIZE);
        if IsValid(mem[w.table][w.index]) {
          SetEntry(va / PGSIZE, w.table, w.index, Protected(mem[w.table][w.index]));
        }
      }
      return false;
    }

    /** One iteration of the loop in user_vm_unmap; `pa` is the page to hand to free_page. */
    method UnmapOne(vpn: nat) returns (ok: bool, pa: nat)
      requires Valid()
      modifies this`mem, this`free, this`role
      ensures Valid() && Outside() == old(Outside()) && free == old(free)
      ensures ok <==> vpn < VPNS && Leafy(old(Flat())[vpn])
      ensures ok ==> pa == PTE2PA(old(Flat())[vpn]) && Flat() == old(Flat())[vpn := 0]
      ensures !ok ==> Flat() == old(Flat())
    {
      var w := PageWalk(vpn * PGSIZE, false);
      if !w.Entry? {
        return false, 0;
      }
      WalkRole(mem, role, root, vpn);
      var pte := mem[w.table][w.index];
      if !IsValid(pte) || PTE_FLAGS(pte) == PTE_V {
        return false, 0;
      }
      SetEntry(vpn, w.table, w.index, 0);
      return true, PTE2PA(pte);
    }

    /**
     user_vm_unmap: the entries of the range are cleared in order and their pages handed to free_page,
     until one is missing, invalid or not a leaf, which kills the process.
     */
    method Unmap(va: nat, size: nat, release: bool) returns (outcome: Outcome, released: seq<nat>, ghost k: nat)
      requires Valid() && va < WORD && size < WORD
      modifies this`mem, this`free, this`role
      ensures Valid() && Outside() == old(Outside()) && free == old(free)
      ensures FirstVpn(va) + k <= VPNS || k == 0
      ensures Flat() == Cleared(old(Flat()), FirstVpn(va), k)
      ensures released == if release then PagesOf(old(Flat()), FirstVpn(va), k) else []
      ensures outcome.Done? ==> va % PGSIZE == 0 && k == PagesBelow(va, (va + size) % WORD)
      ensures !outcome.Done? ==>
        outcome.Killed? && (va % PGSIZE != 0 || FirstVpn(va) + k >= VPNS || !Leafy(old(Flat())[FirstVpn(va) + k]))
    {
      if va % PGSIZE != 0 {
        return Killed, [], 0;
      }
      outcome, released, k := UnmapRange(FirstVpn(va), PagesBelow(va, (va + size) % WORD), release);
    }

    /** Page i of a range whose first i pages are gone. */
    method UnmapNext(ghost flat: seq<nat>, first: nat, i: nat, release: bool, released: seq<nat>)
      returns (ok: bool, after: seq<nat>)
      requires Valid() && |flat| == VPNS && (first + i <= VPNS || i == 0) && Flat() == Cleared(flat, first, i)
      requires released == if release then PagesOf(flat, first, i) else []
      modifies this`mem, this`free, this`role
      ensures Valid() && Outside() == old(Outside()) && free == old(free)
      ensures ok <==> first + i < VPNS && Leafy(flat[first + i])
      ensures ok ==> Flat() == Cleared(flat, first, i + 1)
      ensures ok ==> after == if release then PagesOf(flat, first, i + 1) else []
      ensures !ok ==> Flat() == old(Flat()) && after == released
    {
      if first + i < VPNS {
        ClearedElsewhere(flat, first, i, first + i);
      }
      var pa;
      ok, pa := UnmapOne(first + i);
      after := if ok && release then released + [pa] else released;
    }

    /** The loop of user_vm_unmap over n virtual pages. */
    method UnmapRange(first: nat, n: nat, release: bool) returns (outcome: Outcome, released: seq<nat>, ghost k: nat)
      requires Valid()
      modifies this`mem, this`free, this`role
      ensures Valid() && Outside() == old(Outside()) && free == old(free)
      ensures first + k <= VPNS || k == 0
      ensures Flat() == Cleared(old(Flat()), first, k)
      ensures released == if release then PagesOf(old(Flat()), first, k) else []
      ensures if outcome.Done? then k == n else k < n && outcome.Killed?
      ensures outcome.Killed? ==> first + k >= VPNS || !Leafy(old(Flat())[first + k])
    {
      ghost var flat := Flat();
      released := [];
      var i := 0;
      while i < n
        invariant Valid() && Outside() == old(Outside()) && free == old(free) && i <= n
        invariant first + i <= VPNS || i == 0
        invariant Flat() == Cleared(flat, first, i)
        invariant released == if release then PagesOf(flat, first, i) else []
      {
        var ok;
        ok, released := UnmapNext(flat, first, i, release, released);
        if !ok {
          return Killed, released, i;
        }
        i := i + 1;
      }
      return Done, released, i;
    }
  }

  // ---------------------------------------------------------------- what the loops do to the flat map

  /** How many steps of PGSIZE from va stay below end. */
  function PagesBelow(va: nat, end: nat): nat {
    if end <= va then 0 else (end - va + PGSIZE - 1) / PGSIZE
  }

  function RangeLength(va: nat, size: nat): nat {
    if LastVpn(va, size) < FirstVpn(va) then 0 else LastVpn(va, size) + 1 - FirstVpn(va)
  }

  function Mapped(f: seq<nat>, first: nat, k: nat, pa: nat, perm: nat): (r: seq<nat>)
    requires first + k <= |f| || k == 0
    ensures |r| == |f|
  {
    if k == 0 then f else Mapped(f, first, k - 1, pa, perm)[first + k - 1 := LeafEntry(PaPlus(pa, k - 1), perm)]
  }

  function Cleared(f: seq<nat>, first: nat, k: nat): (r: seq<nat>)
    requires first + k <= |f| || k == 0
    ensures |r| == |f|
  {
    if k == 0 then f else Cleared(f, first, k - 1)[first + k - 1 := 0]
  }

  predicate Unmapped(f: seq<nat>, first: nat, k: nat)
    requires first + k <= |f| || k == 0
  {
    forall v: nat :: first <= v < first + k ==> !IsValid(f[v])
  }

  function PagesOf(f: seq<nat>, first: nat, k: nat): (r: seq<nat>)
    requires first + k <= |f| || k == 0
    ensures |r| == k
  {
    if k == 0 then [] else PagesOf(f, first, k - 1) + [PTE2PA(f[first + k - 1])]
  }

  /** map_pages gives page j of the range the j-th physical page and changes no other translation. */
  lemma {:induction false} MappedElsewhere(f: seq<nat>, first: nat, k: nat, pa: nat, perm: nat, v: nat)
    requires v < |f| && (first + k <= |f| || k == 0)
    ensures Mapped(f, first, k, pa, perm)[v] ==
      if first <= v < first + k then LeafEntry(PaPlus(pa, v - first), perm) else f[v]
  {
    if k > 0 {
      MappedElsewhere(f, first, k - 1, pa, perm, v);
    }
  }

  /** user_vm_unmap clears the pages of its range and changes no other translation. */
  lemma {:induction false} ClearedElsewhere(f: seq<nat>, first: nat, k: nat, v: nat)
    requires v < |f| && (first + k <= |f| || k == 0)
    ensures Cleared(f, first, k)[v] == if first <= v < first + k then 0 else f[v]
  {
    if k > 0 {
      ClearedElsewhere(f, first, k - 1, v);
    }
  }

  /** The pages user_vm_unmap hands to free_page are those of the range, in order. */
  lemma {:induction false} PagesAre(f: seq<nat>, first: nat, k: nat, j: nat)
    requires j < k && first + k <= |f|
    ensures PagesOf(f, first, k)[j] == PTE2PA(f[first + j])
  {
    if j < k - 1 {
      PagesAre(f, first, k - 1, j);
    }
  }

  /** Unmapping undoes mapping: a range of empty entries that was mapped and unmapped again is as it was. */
  lemma UnmapUndoesMap(f: seq<nat>, first: nat, k: nat, pa: nat, perm: nat)
    requires first + k <= |f| && forall v: nat :: first <= v < first + k ==> f[v] == 0
    ensures Cleared(Mapped(f, first, k, pa, perm), first, k) == f
  {
    forall v: nat | v < |f|
      ensures Cleared(Mapped(f, first, k, pa, perm), first, k)[v] == f[v]
    {
      ClearedElsewhere(Mapped(f, first, k, pa, perm), first, k, v);
      MappedElsewhere(f, first, k, pa, perm, v);
    }
  }

  /** user_vm_set_cow's entry: writing is taken away, the copy-on-write mark set, the page kept. */
  function Protected(pte: nat): nat {
    SetBit(ClearBit(pte, PTE_W), PTE_COW)
  }

  lemma ClearedWrite(x: nat)
    ensures var y := ClearBit(x, PTE_W); y % 8 == x % 4 && y / 8 == x / 8
  {
    assert x == x / 8 * 8 + x / 4 % 2 * 4 + x % 4;
  }

  lemma SetCowBit(x: nat)
    ensures var y := SetBit(x, PTE_COW); y % 256 == x % 256 && y / 512 == x / 512 && Bit(y, PTE_COW)
  {
    var a, b, c := x / 512, x / 256 % 2, x % 256;
    assert x == a * 512 + b * 256 + c;
    var y := SetBit(x, PTE_COW);
    assert y == a * 512 + 256 + c;
    assert y / 256 == a * 2 + 1;
  }

  lemma LowBits(x: nat)
    ensures Bit(x, PTE_W) <==> x % 8 >= 4
    ensures Bit(x, PTE_R) <==> x % 4 >= 2
    ensures x % 8 == x % 256 % 8 && x % 4 == x % 8 % 4 && x % 2 == x % 4 % 2
  {
    assert x == x / 8 * 8 + x % 8;
  }

  lemma HighBits(x: nat, y: nat)
    requires x / 8 == y / 8
    ensures x / 512 == y / 512
  {
    assert x / 512 == x / 8 / 64 && y / 512 == y / 8 / 64;
  }

  /** user_vm_set_cow keeps the mapping and its readability and takes only the right to write. */
  lemma ProtectedEntry(pte: nat)
    requires IsValid(pte)
    ensures var e := Protected(pte);
      && IsValid(e) && !Bit(e, PTE_W) && Bit(e, PTE_COW) && (Bit(e, PTE_R) <==> Bit(pte, PTE_R))
      && PTE2PA(e) == PTE2PA(pte)
  {
    var x, e := ClearBit(pte, PTE_W), Protected(pte);
    ClearedWrite(pte);
    SetCowBit(x);
    LowBits(pte);
    LowBits(x);
    LowBits(e);
    HighBits(x, pte);
    assert e / 1024 == e / 512 / 2 && pte / 1024 == pte / 512 / 2;
  }

  // ---------------------------------------------------------------- the flags of an entry

  datatype Flags = Flags(v: bool, r: bool, w: bool, x: bool, u: bool, a: bool, d: bool, cow: bool)

  function FlagsOf(pte: nat): Flags {
    Flags(IsValid(pte), Bit(pte, PTE_R), Bit(pte, PTE_W), Bit(pte, PTE_X), Bit(pte, PTE_U), Bit(pte, PTE_A),
          Bit(pte, PTE_D), Bit(pte, PTE_COW))
  }

  /** What fork must give the child: it may read the page, and its first store must trap. */
  const READ_ONLY_COPY := Flags(true, true, false, false, true, true, false, true)

  /** The page behind pa, k pages on. */
  function PageAt(pa: nat, k: nat): nat {
    (pa / PGSIZE + k) * PGSIZE % WORD
  }

  /** The page number does not reach into the flags. */
  lemma FlagsAlone(ppn: nat, flags: nat)
    requires flags < 1024
    ensures FlagsOf(ppn * 1024 + flags) == FlagsOf(flags)
  {
    var x := ppn * 1024 + flags;
    HalfAgrees(x, flags, ppn, 1024, 2, 512);
    HalfAgrees(x, flags, ppn, 1024, 4, 256);
    HalfAgrees(x, flags, ppn, 1024, 8, 128);
    HalfAgrees(x, flags, ppn, 1024, 16, 64);
    HalfAgrees(x, flags, ppn, 1024, 64, 16);
    HalfAgrees(x, flags, ppn, 1024, 128, 8);
    HalfAgrees(x, flags, ppn, 1024, 256, 4);
    EvenShift(flags, ppn * 512);
    SameFlags(x, flags);
  }

  lemma SameFlags(x: nat, y: nat)
    requires x % 2 == y % 2 && Bit(x, PTE_R) == Bit(y, PTE_R) && Bit(x, PTE_W) == Bit(y, PTE_W)
    requires Bit(x, PTE_X) == Bit(y, PTE_X) && Bit(x, PTE_U) == Bit(y, PTE_U) && Bit(x, PTE_A) == Bit(y, PTE_A)
    requires Bit(x, PTE_D) == Bit(y, PTE_D) && Bit(x, PTE_COW) == Bit(y, PTE_COW)
    ensures FlagsOf(x) == FlagsOf(y)
  {
  }

  lemma HalfAgrees(x: nat, low: nat, high: nat, whole: nat, bit: nat, rest: nat)
    requires x == high * whole + low && bit * rest == whole && rest % 2 == 0 && bit > 0
    ensures Bit(x, bit) == Bit(low, bit)
  {
    var half := rest / 2;
    assert high * whole == bit * (2 * (half * high));
    QuotientShift(low, bit, 2 * (half * high));
    EvenShift(low / bit, half * high);
  }

  lemma QuotientShift(x: nat, d: nat, k: nat)
    requires d > 0
    ensures (d * k + x) / d == k + x / d
  {
    var q, r := x / d, x % d;
    assert d * k + x == d * (k + q) + r;
    QuotientIs(d * k + x, d, k + q, r);
  }

  lemma QuotientIs(x: nat, d: nat, q: nat, r: nat)
    requires d > 0 && r < d && x == d * q + r
    ensures x / d == q
  {
    var e := x / d - q;
    assert d * e == r - x % d;
    assert e >= 1 ==> d * e >= d;
    assert e <= -1 ==> d * e + d <= 0;
  }

  lemma EvenShift(x: nat, k: nat)
    ensures (2 * k + x) % 2 == x % 2
  {
  }

  /** The flags of what map_pages writes are those asked for, and valid. */
  lemma LeafFlags(pa: nat, perm: nat)
    requires perm < 1024
    ensures FlagsOf(LeafEntry(pa, perm)) == FlagsOf(perm).(v := true)
  {
    PermFlags(perm);
    LeafIs(pa, perm);
    FlagsAlone(pa / PGSIZE, SetBit(perm, PTE_V));
  }

  lemma LeafIs(pa: nat, perm: nat)
    requires perm < 1024
    ensures LeafEntry(pa, perm) == pa / PGSIZE * 1024 + SetBit(perm, PTE_V)
  {
  }

  lemma PermFlags(perm: nat)
    requires perm < 1024
    ensures SetBit(perm, PTE_V) < 1024 && FlagsOf(SetBit(perm, PTE_V)) == FlagsOf(perm).(v := true)
  {
    OddSame(perm, SetBit(perm, PTE_V));
    ValidFlags(perm, SetBit(perm, PTE_V));
  }

  lemma ValidFlags(x: nat, y: nat)
    requires y % 2 == 1 && Bit(x, PTE_R) == Bit(y, PTE_R) && Bit(x, PTE_W) == Bit(y, PTE_W)
    requires Bit(x, PTE_X) == Bit(y, PTE_X) && Bit(x, PTE_U) == Bit(y, PTE_U) && Bit(x, PTE_A) == Bit(y, PTE_A)
    requires Bit(x, PTE_D) == Bit(y, PTE_D) && Bit(x, PTE_COW) == Bit(y, PTE_COW)
    ensures FlagsOf(y) == FlagsOf(x).(v := true)
  {
  }

  lemma OddSame(x: nat, y: nat)
    requires y == x || (x % 2 == 0 && y == x + 1)
    ensures Bit(x, PTE_R) == Bit(y, PTE_R) && Bit(x, PTE_W) == Bit(y, PTE_W) && Bit(x, PTE_X) == Bit(y, PTE_X)
    ensures Bit(x, PTE_U) == Bit(y, PTE_U) && Bit(x, PTE_A) == Bit(y, PTE_A) && Bit(x, PTE_D) == Bit(y, PTE_D)
    ensures Bit(x, PTE_COW) == Bit(y, PTE_COW)
  {
    if y != x {
      NextSame(x, 2, 1, x / 2, x % 2);
      NextSame(x, 4, 2, x / 4, x % 4);
      NextSame(x, 8, 4, x / 8, x % 8);
      NextSame(x, 16, 8, x / 16, x % 16);
      NextSame(x, 64, 32, x / 64, x % 64);
      NextSame(x, 128, 64, x / 128, x % 128);
      NextSame(x, 256, 128, x / 256, x % 256);
    }
  }

  lemma NextSame(x: nat, bit: nat, half: nat, q: nat, r: nat)
    requires x % 2 == 0 && bit == 2 * half && half > 0 && x == 2 * half * q + r && r < bit
    ensures (x + 1) / bit == q
  {
    EvenRest(x, half, q, r);
    QuotientIs(x + 1, bit, q, r + 1);
  }

  lemma EvenRest(x: nat, half: nat, q: nat, r: nat)
    requires x % 2 == 0 && x == 2 * half * q + r
    ensures r % 2 == 0
  {
    assert 2 * half * q == 2 * (half * q);
    EvenShift(r, half * q);
  }

  lemma CowEntry(pa: nat)
    requires pa < WORD
    ensures var e := LeafEntry(pa, CowPerm()); FlagsOf(e) == READ_ONLY_COPY && PTE2PA(e) == pa / PGSIZE * PGSIZE
  {
    LeafFlags(pa, CowPerm());
    EntryRoundTrip(pa, CowPerm());
  }

  lemma PageOn(pa: nat, k: nat)
    ensures PaPlus(pa, k) / PGSIZE * PGSIZE == PageAt(pa, k)
  {
    var n, off := pa / PGSIZE + k, pa % PGSIZE;
    var q, r := n / 0x10_0000_0000_0000, n % 0x10_0000_0000_0000;
    assert pa + k * PGSIZE == q * WORD + (r * PGSIZE + off);
    WordRemainder(pa + k * PGSIZE, q, r * PGSIZE + off);
    WordRemainder(n * PGSIZE, q, r * PGSIZE);
  }

  lemma CowRange(f: seq<nat>, first: nat, k: nat, pa: nat)
    requires first + k <= |f| || k == 0
    ensures forall v: nat :: first <= v < first + k ==>
      var e := Mapped(f, first, k, pa, CowPerm())[v];
      FlagsOf(e) == READ_ONLY_COPY && PTE2PA(e) == PageAt(pa, v - first)
  {
    forall v: nat | first <= v < first + k
      ensures var e := Mapped(f, first, k, pa, CowPerm())[v];
        FlagsOf(e) == READ_ONLY_COPY && PTE2PA(e) == PageAt(pa, v - first)
    {
      MappedElsewhere(f, first, k, pa, CowPerm(), v);
      CowEntry(PaPlus(pa, v - first));
      PageOn(pa, v - first);
    }
  }

  predicate Leafy(pte: nat) {
    IsValid(pte) && PTE_FLAGS(pte) != PTE_V
  }

  // ---------------------------------------------------------------- address translation

  /** lookup_pa */
  function LookupPa(mem: Mem, root: nat, va: nat): nat
    requires WellSized(mem) && root in mem
  {
    var pte := PteAt(mem, root, va / PGSIZE);
    if va >= MAXVA || !IsValid(pte) || (!Bit(pte, PTE_R) && !Bit(pte, PTE_W)) then 0 else PTE2PA(pte)
  }

  /** user_va_to_pa: 0 is the null pointer. */
  function UserVaToPa(mem: Mem, root: nat, va: nat): nat
    requires WellSized(mem) && root in mem && va < MAXVA
  {
    var pte := PteAt(mem, root, va / PGSIZE);
    if !IsValid(pte) then 0 else (pte / 1024 % 0x4000_0000_0000 * PGSIZE + va % PGSIZE) % WORD
  }

  /**
   On a readable mapping user_va_to_pa is lookup_pa plus the page offset exactly when the page lies
   below 2^58: it keeps only 46 bits of the page number, lookup_pa keeps all.
   */
  lemma TranslationsAgreeIff(mem: Mem, root: nat, va: nat)
    requires WellSized(mem) && root in mem && va < MAXVA
    requires var pte := PteAt(mem, root, va / PGSIZE);
      pte < WORD && IsValid(pte) && (Bit(pte, PTE_R) || Bit(pte, PTE_W))
    ensures UserVaToPa(mem, root, va) == LookupPa(mem, root, va) + va % PGSIZE <==>
      LookupPa(mem, root, va) < 0x400_0000_0000_0000
  {
    MaskAgrees(PteAt(mem, root, va / PGSIZE) / 1024, va % PGSIZE);
  }

  const PHYS_TOP := 0x8800_0000  // DRAM_BASE plus the 128 MB the kernel uses at most

  /** In the memory this kernel has, the two translations always agree. */
  lemma TranslationsAgreeInMemory(mem: Mem, root: nat, va: nat)
    requires WellSized(mem) && root in mem && va < MAXVA
    requires var pte := PteAt(mem, root, va / PGSIZE);
      pte < WORD && IsValid(pte) && (Bit(pte, PTE_R) || Bit(pte, PTE_W)) && PTE2PA(pte) < PHYS_TOP
    ensures UserVaToPa(mem, root, va) == LookupPa(mem, root, va) + va % PGSIZE
  {
    TranslationsAgreeIff(mem, root, va);
  }

  /** Keeping 46 bits of a page number and keeping the 52 that fit in a 64-bit address. */
  lemma MaskAgrees(ppn: nat, off: nat)
    requires off < PGSIZE
    ensures (ppn % 0x4000_0000_0000 * PGSIZE + off) % WORD == ppn * PGSIZE % WORD + off <==>
      ppn * PGSIZE % WORD < 0x400_0000_0000_0000
  {
    var high, all := ppn / 0x10_0000_0000_0000, ppn % 0x10_0000_0000_0000;
    WordRemainder(ppn * PGSIZE, high, all * PGSIZE);
    MaskRemainder(ppn, high * 64 + all / 0x4000_0000_0000, all % 0x4000_0000_0000);
  }

  lemma WordRemainder(x: nat, k: nat, r: nat)
    requires r < WORD && x == k * WORD + r
    ensures x % WORD == r
  {
  }

  lemma MaskRemainder(x: nat, k: nat, r: nat)
    requires r < 0x4000_0000_0000 && x == k * 0x4000_0000_0000 + r
    ensures x % 0x4000_0000_0000 == r
  {
  }

  /** What map_pages writes is what lookup_pa reads back, for any permission that allows reading or writing. */
  lemma MappedIsFound(mem: Mem, root: nat, va: nat, pa: nat, perm: nat)
    requires WellSized(mem) && root in mem && va < MAXVA && pa < WORD && perm < 1024
    requires PteAt(mem, root, va / PGSIZE) == LeafEntry(pa, perm) && (Bit(perm, PTE_R) || Bit(perm, PTE_W))
    ensures LookupPa(mem, root, va) == pa / PGSIZE * PGSIZE
  {
    EntryRoundTrip(pa, perm);
    var flags := SetBit(perm, PTE_V);
    assert Bit(flags, PTE_R) == Bit(perm, PTE_R) && Bit(flags, PTE_W) == Bit(perm, PTE_W);
    FlagBits(pa / PGSIZE, flags);
  }

  /** A readable page mapped at 2^58: lookup_pa finds it, user_va_to_pa answers with the offset alone. */
  lemma HighPageLost(mem: Mem, root: nat, va: nat)
    requires WellSized(mem) && root in mem && va < MAXVA
    requires PteAt(mem, root, va / PGSIZE) == LeafEntry(0x400_0000_0000_0000, PTE_R)
    ensures LookupPa(mem, root, va) == 0x400_0000_0000_0000 && UserVaToPa(mem, root, va) == va % PGSIZE
  {
    MappedIsFound(mem, root, va, 0x400_0000_0000_0000, PTE_R);
    assert LeafEntry(0x400_0000_0000_0000, PTE_R) / 1024 == 0x4000_0000_0000;
  }

  lemma FlagBits(ppn: nat, flags: nat)
    requires flags < 1024
    ensures Bit(ppn * 1024 + flags, PTE_R) == Bit(flags, PTE_R)
    ensures Bit(ppn * 1024 + flags, PTE_W) == Bit(flags, PTE_W)
  {
    assert (ppn * 1024 + flags) / 2 == ppn * 512 + flags / 2;
    assert (ppn * 1024 + flags) / 4 == ppn * 256 + flags / 4;
  }
}
