/**
 Three-level Sv39 page tables (kernel/vmm.c, kernel/riscv.h; section 4.4 of the RISC-V Privileged
 Architecture manual, version 20211203) and the flat map from virtual page to entry they implement.
 */
module Sv39 {

  const PGSIZE := 4096
  const ENTRIES := 512
  const WORD := 0x1_0000_0000_0000_0000  // uint64 arithmetic is modulo this
  const MAXVA := 0x40_0000_0000          // 1 << 38
  const VPNS := 0x400_0000               // MAXVA / PGSIZE

  const PTE_V := 1
  const PTE_R := 2
  const PTE_W := 4
  const PTE_X := 8
  const PTE_U := 16
  const PTE_A := 64
  const PTE_D := 128
  const PTE_COW := 256

  // ---------------------------------------------------------------- entries and indices

  predicate Bit(x: nat, bit: nat)
    requires bit > 0
  {
    (x / bit) % 2 == 1
  }

  /** x | bit and x & ~bit, for a power of two. */
  function SetBit(x: nat, bit: nat): nat
    requires bit > 0
  {
    if Bit(x, bit) then x else x + bit
  }

  function ClearBit(x: nat, bit: nat): nat
    requires bit > 0
  {
    if Bit(x, bit) && x >= bit then x - bit else x
  }

  predicate IsValid(pte: nat) {
    pte % 2 == 1
  }

  function PA2PTE(pa: nat): nat {
    pa / PGSIZE * 1024
  }

  function PTE2PA(pte: nat): nat {
    pte / 1024 * PGSIZE % WORD
  }

  function PTE_FLAGS(pte: nat): nat {
    pte % 1024
  }

  /** PX(level, va) for the three levels, from the virtual page number. */
  function Px2(vpn: nat): nat { vpn / 262144 % ENTRIES }
  function Px1(vpn: nat): nat { vpn / 512 % ENTRIES }
  function Px0(vpn: nat): nat { vpn % ENTRIES }

  function PX(level: nat, va: nat): nat
    requires level <= 2
  {
    (if level == 2 then va / 0x4000_0000 else if level == 1 then va / 0x20_0000 else va / 0x1000) % ENTRIES
  }

  lemma IndicesFromVpn(va: nat)
    ensures PX(2, va) == Px2(va / PGSIZE) && PX(1, va) == Px1(va / PGSIZE) && PX(0, va) == Px0(va / PGSIZE)
  {
  }

  /** The three 9-bit indices determine a virtual page below MAXVA. */
  lemma IndicesDetermineVpn(v: nat, w: nat)
    requires v < VPNS && w < VPNS
    requires Px2(v) == Px2(w) && Px1(v) == Px1(w) && Px0(v) == Px0(w)
    ensures v == w
  {
    assert v == v / 262144 * 262144 + v / 512 % 512 * 512 + v % 512;
    assert w == w / 262144 * 262144 + w / 512 % 512 * 512 + w % 512;
  }

  /** `PA2PTE(pa) | perm | PTE_V` for a permission in the ten flag bits. */
  function LeafEntry(pa: nat, perm: nat): (e: nat)
    ensures perm < 1024 ==> IsValid(e)
  {
    PA2PTE(pa) + SetBit(perm % 1024, PTE_V)
  }

  /** A page address survives the trip through an entry; what an entry drops is the page offset. */
  lemma EntryRoundTrip(pa: nat, perm: nat)
    requires pa < WORD && perm < 1024
    ensures PTE2PA(LeafEntry(pa, perm)) == pa / PGSIZE * PGSIZE
    ensures PTE_FLAGS(LeafEntry(pa, perm)) == SetBit(perm, PTE_V)
  {
    var flags := SetBit(perm, PTE_V);
    assert flags < 1024;
    assert (pa / PGSIZE * 1024 + flags) / 1024 == pa / PGSIZE;
  }

  // ---------------------------------------------------------------- trees of table pages

  type Mem = map<nat, seq<nat>>  // page address to its 512 words

  datatype Role = Root | Mid(i: nat) | LeafTable(i: nat, j: nat)

  datatype Place = Missing | Found(table: nat, index: nat)

  predicate WellSized(mem: Mem) {
    forall p :: p in mem ==> |mem[p]| == ENTRIES
  }

  predicate Points(mem: Mem, role: map<nat, Role>, table: nat, index: nat, r: Role)
    requires table in mem && index < |mem[table]|
  {
    IsValid(mem[table][index]) ==>
      PTE2PA(mem[table][index]) in mem && PTE2PA(mem[table][index]) in role && role[PTE2PA(mem[table][index])] == r
  }

  /**
   A tree without sharing: each table page has one role, and a valid entry leads to the page whose
   role its position dictates.  As a page has a single role, two entries never lead to one table.
   */
  ghost predicate Tree(mem: Mem, role: map<nat, Role>, root: nat) {
    && WellSized(mem)
    && root in mem && root in role && role[root] == Root
    && (forall i: nat :: i < ENTRIES ==> Points(mem, role, root, i, Mid(i)))
    && (forall t, j: nat :: t in role && t in mem && role[t].Mid? && j < ENTRIES ==>
          Points(mem, role, t, j, LeafTable(role[t].i, j)))
    && (forall t :: t in role ==> t in mem)
    && (forall t :: t in role && role[t] == Root ==> t == root)
  }

  /** page_walk without allocation. */
  function Walk(mem: Mem, root: nat, vpn: nat): (w: Place)
    requires WellSized(mem) && root in mem
  {
    var e2 := mem[root][Px2(vpn)];
    if !IsValid(e2) || PTE2PA(e2) !in mem then Missing
    else
      var e1 := mem[PTE2PA(e2)][Px1(vpn)];
      if !IsValid(e1) || PTE2PA(e1) !in mem then Missing else Found(PTE2PA(e1), Px0(vpn))
  }

  /** The flat map the tree stands for: an absent entry reads as zero. */
  function PteAt(mem: Mem, root: nat, vpn: nat): nat
    requires WellSized(mem) && root in mem
  {
    match Walk(mem, root, vpn)
    case Missing => 0
    case Found(t, i) => if t in mem && i < |mem[t]| then mem[t][i] else 0
  }

  lemma WalkRole(mem: Mem, role: map<nat, Role>, root: nat, vpn: nat)
    requires Tree(mem, role, root) && Walk(mem, root, vpn).Found?
    ensures var w := Walk(mem, root, vpn);
      w.table in role && role[w.table] == LeafTable(Px2(vpn), Px1(vpn)) && w.table in mem &&
        w.index == Px0(vpn) < ENTRIES
  {
    var e2 := mem[root][Px2(vpn)];
    assert Points(mem, role, root, Px2(vpn), Mid(Px2(vpn)));
    var mid := PTE2PA(e2);
    assert Points(mem, role, mid, Px1(vpn), LeafTable(Px2(vpn), Px1(vpn)));
  }

  lemma UpperIndicesDetermine(v: nat, w: nat)
    requires v < VPNS && w < VPNS && Px2(v) == Px2(w) && Px1(v) == Px1(w)
    ensures v / ENTRIES == w / ENTRIES
  {
    assert v / 512 == v / 262144 * 512 + v / 512 % 512;
    assert w / 512 == w / 262144 * 512 + w / 512 % 512;
  }

  /** Two virtual pages reach the same leaf table only if they share both upper indices: no table is shared. */
  lemma TablesNotShared(mem: Mem, role: map<nat, Role>, root: nat, v: nat, w: nat)
    requires Tree(mem, role, root) && v < VPNS && w < VPNS && v != w
    requires Walk(mem, root, v).Found? && Walk(mem, root, w).Found?
    ensures Walk(mem, root, v).table == Walk(mem, root, w).table ==> v / ENTRIES == w / ENTRIES
    ensures Walk(mem, root, v) != Walk(mem, root, w)
    ensures Walk(mem, root, v).table != root
  {
    WalkRole(mem, role, root, v);
    WalkRole(mem, role, root, w);
    if Walk(mem, root, v).table == Walk(mem, root, w).table {
      UpperIndicesDetermine(v, w);
      if Px0(v) == Px0(w) {
        IndicesDetermineVpn(v, w);
      }
    }
  }

  function Put(mem: Mem, t: nat, i: nat, e: nat): Mem
    requires t in mem && i < |mem[t]|
  {
    var row: seq<nat> := mem[t][i := e];
    mem[t := row]
  }

  /** Writing the entry of one page: the tree stands and no other page below MAXVA translates differently. */
  lemma WriteLeaf(mem: Mem, role: map<nat, Role>, root: nat, vpn: nat, e: nat)
    requires Tree(mem, role, root) && Walk(mem, root, vpn).Found? && vpn < VPNS
    ensures var w := Walk(mem, root, vpn); w.table in mem && w.index < |mem[w.table]|
    ensures var w := Walk(mem, root, vpn); var mem' := Put(mem, w.table, w.index, e);
      && Tree(mem', role, root)
      && forall v: nat :: v < VPNS ==>
           Walk(mem', root, v) == Walk(mem, root, v) && PteAt(mem', root, v) == if v == vpn then e
             else PteAt(mem, root, v)
  {
    WalkRole(mem, role, root, vpn);
    var w := Walk(mem, root, vpn);
    var mem' := Put(mem, w.table, w.index, e);
    forall v: nat | v < VPNS
      ensures Walk(mem', root, v) == Walk(mem, root, v)
      ensures PteAt(mem', root, v) == if v == vpn then e else PteAt(mem, root, v)
    {
      WalkAfterLeafWrite(mem, role, root, w.table, w.index, e, v);
      if Walk(mem, root, v) == w {
        WalkRole(mem, role, root, v);
        IndicesDetermineVpn(v, vpn);
      }
    }
  }

  lemma WalkAfterLeafWrite(mem: Mem, role: map<nat, Role>, root: nat, t: nat, i: nat, e: nat, v: nat)
    requires Tree(mem, role, root) && t in mem && i < ENTRIES && t in role && role[t].LeafTable?
    ensures Walk(Put(mem, t, i, e), root, v) == Walk(mem, root, v)
  {
    assert Points(mem, role, root, Px2(v), Mid(Px2(v)));
  }

  // ---------------------------------------------------------------- growing the tree

  function ZeroPage(): (z: seq<nat>)
    ensures |z| == ENTRIES && forall i :: 0 <= i < ENTRIES ==> z[i] == 0
  {
    seq(ENTRIES, _ => 0)
  }

  /** Entry i of table t, invalid so far, is made to point to a zeroed page p that has no role yet. */
  function Graft(mem: Mem, t: nat, i: nat, p: nat): Mem
    requires t in mem && i < |mem[t]|
  {
    var row: seq<nat> := mem[t][i := PA2PTE(p) + PTE_V];
    mem[p := ZeroPage()][t := row]
  }

  predicate PageAddress(p: nat) {
    p % PGSIZE == 0 && p < WORD
  }

  lemma PointerRoundTrip(p: nat)
    requires PageAddress(p)
    ensures PTE2PA(PA2PTE(p) + PTE_V) == p && IsValid(PA2PTE(p) + PTE_V)
  {
    EntryRoundTrip(p, 0);
    assert LeafEntry(p, 0) == PA2PTE(p) + PTE_V;
  }

  lemma GraftMid(mem: Mem, role: map<nat, Role>, root: nat, i: nat, p: nat)
    requires Tree(mem, role, root) && i < ENTRIES && !IsValid(mem[root][i])
    requires p in mem && p !in role && PageAddress(p)
    ensures Tree(Graft(mem, root, i, p), role[p := Mid(i)], root)
    ensures var mem' := Graft(mem, root, i, p); forall v: nat :: PteAt(mem', root, v) == PteAt(mem, root, v)
  {
    PointerRoundTrip(p);
    var mem', role' := Graft(mem, root, i, p), role[p := Mid(i)];
    forall j: nat | j < ENTRIES
      ensures Points(mem', role', root, j, Mid(j))
    {
      assert Points(mem, role, root, j, Mid(j));
    }
    forall t, j: nat | t in role' && t in mem' && role'[t].Mid? && j < ENTRIES
      ensures Points(mem', role', t, j, LeafTable(role'[t].i, j))
    {
      if t != p {
        assert Points(mem, role, t, j, LeafTable(role[t].i, j));
      }
    }
    forall v: nat
      ensures PteAt(mem', root, v) == PteAt(mem, root, v)
    {
      GraftMidView(mem, role, root, i, p, v);
    }
  }

  lemma GraftMidView(mem: Mem, role: map<nat, Role>, root: nat, i: nat, p: nat, v: nat)
    requires Tree(mem, role, root) && i < ENTRIES && !IsValid(mem[root][i])
    requires p in mem && p !in role && PageAddress(p)
    requires WellSized(Graft(mem, root, i, p))
    ensures PteAt(Graft(mem, root, i, p), root, v) == PteAt(mem, root, v)
  {
    PointerRoundTrip(p);
    if Px2(v) != i {
      assert Points(mem, role, root, Px2(v), Mid(Px2(v)));
      if IsValid(mem[root][Px2(v)]) {
        var mid := PTE2PA(mem[root][Px2(v)]);
        assert Points(mem, role, mid, Px1(v), LeafTable(Px2(v), Px1(v)));
      }
    }
  }

  lemma GraftLeaf(mem: Mem, role: map<nat, Role>, root: nat, t: nat, j: nat, p: nat)
    requires Tree(mem, role, root) && t in role && role[t].Mid? && j < ENTRIES && !IsValid(mem[t][j])
    requires p in mem && p !in role && PageAddress(p)
    ensures Tree(Graft(mem, t, j, p), role[p := LeafTable(role[t].i, j)], root)
    ensures var mem' := Graft(mem, t, j, p); forall v: nat :: PteAt(mem', root, v) == PteAt(mem, root, v)
  {
    PointerRoundTrip(p);
    var mem', role' := Graft(mem, t, j, p), role[p := LeafTable(role[t].i, j)];
    forall i: nat | i < ENTRIES
      ensures Points(mem', role', root, i, Mid(i))
    {
      assert Points(mem, role, root, i, Mid(i));
    }
    forall u, k: nat | u in role' && u in mem' && role'[u].Mid? && k < ENTRIES
      ensures Points(mem', role', u, k, LeafTable(role'[u].i, k))
    {
      assert Points(mem, role, u, k, LeafTable(role[u].i, k));
    }
    forall v: nat
      ensures PteAt(mem', root, v) == PteAt(mem, root, v)
    {
      GraftLeafView(mem, role, root, t, j, p, v);
    }
  }

  lemma GraftLeafView(mem: Mem, role: map<nat, Role>, root: nat, t: nat, j: nat, p: nat, v: nat)
    requires Tree(mem, role, root) && t in role && role[t].Mid? && j < ENTRIES && !IsValid(mem[t][j])
    requires p in mem && p !in role && PageAddress(p)
    requires WellSized(Graft(mem, t, j, p))
    ensures PteAt(Graft(mem, t, j, p), root, v) == PteAt(mem, root, v)
  {
    PointerRoundTrip(p);
    assert Points(mem, role, root, Px2(v), Mid(Px2(v)));
    if IsValid(mem[root][Px2(v)]) {
      var mid := PTE2PA(mem[root][Px2(v)]);
      assert Points(mem, role, mid, Px1(v), LeafTable(Px2(v), Px1(v)));
    }
  }
}
