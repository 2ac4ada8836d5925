/**
 Directories of kernel/rfs.c: searching the entries of a directory and removing one by shifting all
 later entries forward, block by block.
 */
module RfsDir {
  import opened Sequences
  import opened RamDev

  const PER_BLOCK := 128  // RFS_BLKSIZE / sizeof(struct rfs_direntry)

  datatype Entry = Entry(inum: int, name: string)

  /** The entries of the blocks `addrs`, in order. */
  ghost function Flat(disk: seq<seq<Entry>>, addrs: seq<nat>): seq<Entry>
    requires forall i :: 0 <= i < |addrs| ==> addrs[i] < |disk|
  {
    if addrs == [] then [] else disk[addrs[0]] + Flat(disk, addrs[1..])
  }

  function Removed(s: seq<Entry>, k: nat): seq<Entry>
    requires k < |s|
  {
    s[..k] + s[k + 1..]
  }

  lemma {:induction false} FlatAt(disk: seq<seq<Entry>>, addrs: seq<nat>, i: nat, j: nat)
    requires (forall b :: 0 <= b < |disk| ==> |disk[b]| == PER_BLOCK) && forall k ::
      0 <= k < |addrs| ==> addrs[k] < |disk|
    requires i < |addrs| && j < PER_BLOCK
    ensures |Flat(disk, addrs)| == |addrs| * PER_BLOCK
    ensures Flat(disk, addrs)[i * PER_BLOCK + j] == disk[addrs[i]][j]
    decreases |addrs|
  {
    if |addrs| > 1 {
      FlatAt(disk, addrs[1..], if i > 0 then i - 1 else 0, j);
    } else {
      assert Flat(disk, addrs[1..]) == [];
    }
  }

  lemma FlatSize(disk: seq<seq<Entry>>, addrs: seq<nat>)
    requires (forall b :: 0 <= b < |disk| ==> |disk[b]| == PER_BLOCK) && forall k ::
      0 <= k < |addrs| ==> addrs[k] < |disk|
    ensures |Flat(disk, addrs)| == |addrs| * PER_BLOCK
  {
    if addrs != [] {
      FlatAt(disk, addrs, 0, 0);
    }
  }

  /** A directory inode: its entries are the first `total` cells of its blocks. */
  datatype Dir = Dir(total: nat, addrs: seq<nat>)

  ghost predicate DirOk(disk: seq<seq<Entry>>, d: Dir) {
    && |disk| == RAMDISK_BLOCK_COUNT && (forall b :: 0 <= b < |disk| ==> |disk[b]| == PER_BLOCK)
    && d.addrs != [] && Distinct(d.addrs) && (forall i :: 0 <= i < |d.addrs| ==> d.addrs[i] < |disk|)
    && d.total <= |d.addrs| * PER_BLOCK
  }

  ghost function Entries(disk: seq<seq<Entry>>, d: Dir): (r: seq<Entry>)
    requires DirOk(disk, d)
    ensures |r| == d.total
  {
    FlatSize(disk, d.addrs);
    Flat(disk, d.addrs)[..d.total]
  }

  /**
   The search loop of rfs_lookup and rfs_unlink: one block is read each time the index crosses a block
   boundary; the first entry with the name is found, or none.
   */
  method Search(dev: Device<Entry>, d: Dir, name: string) returns (k: nat)
    requires dev.Valid() && dev.cells == PER_BLOCK && DirOk(dev.disk, d)
    modifies dev`iobuffer
    ensures dev.Valid() && k <= d.total
    ensures k < d.total ==>
      Entries(dev.disk, d)[k].name == name && dev.iobuffer[k % PER_BLOCK] == Entries(dev.disk, d)[k]
    ensures forall i :: 0 <= i < k ==> Entries(dev.disk, d)[i].name != name
  {
    k := 0;
    while k < d.total
      invariant dev.Valid() && k <= d.total
      invariant k % PER_BLOCK != 0 ==> dev.iobuffer == dev.disk[d.addrs[k / PER_BLOCK]]
      invariant forall i :: 0 <= i < k ==> Entries(dev.disk, d)[i].name != name
    {
      if k % PER_BLOCK == 0 {
        var alive := dev.Read(d.addrs[k / PER_BLOCK]);
      }
      FlatAt(dev.disk, d.addrs, k / PER_BLOCK, k % PER_BLOCK);
      if dev.iobuffer[k % PER_BLOCK].name == name {
        return;
      }
      k := k + 1;
    }
  }

  // ---------------------------------------------------------------- removal

  /** memmove of the entries behind `off` one place forward; the last cell keeps its old entry. */
  function ShiftFrom(block: seq<Entry>, off: nat): (r: seq<Entry>)
    requires off < |block|
    ensures |r| == |block|
  {
    block[..off] + block[off + 1..] + [block[|block| - 1]]
  }

  predicate Blocks(disk: seq<seq<Entry>>, addrs: seq<nat>) {
    && (forall b :: 0 <= b < |disk| ==> |disk[b]| == PER_BLOCK)
    && (forall k :: 0 <= k < |addrs| ==> addrs[k] < |disk|)
  }

  /** Block k after its own entries moved forward by one. */
  function Moved(disk: seq<seq<Entry>>, addrs: seq<nat>, del: nat, k: nat): (r: seq<Entry>)
    requires Blocks(disk, addrs) && del / PER_BLOCK <= k < |addrs|
    ensures |r| == PER_BLOCK
  {
    ShiftFrom(disk[addrs[k]], if k == del / PER_BLOCK then del % PER_BLOCK else 0)
  }

  /** Block k in the end: its last entry is the first of the next block. */
  function Final(disk: seq<seq<Entry>>, addrs: seq<nat>, del: nat, k: nat): (r: seq<Entry>)
    requires Blocks(disk, addrs) && k < |addrs|
    ensures |r| == PER_BLOCK
  {
    if k < del / PER_BLOCK then disk[addrs[k]]
    else if k + 1 < |addrs| then Moved(disk, addrs, del, k)[PER_BLOCK - 1 := disk[addrs[k + 1]][0]]
    else Moved(disk, addrs, del, k)
  }

  /**
   The shifting of rfs_unlink.  Block by block, through the one I/O buffer: the first entry of each
   later block becomes the last entry of the block before it.
   */
  method Shift(dev: Device<Entry>, addrs: seq<nat>, del: nat)
    requires dev.Valid() && dev.cells == PER_BLOCK && Blocks(dev.disk, addrs) && Distinct(addrs) &&
      del / PER_BLOCK < |addrs|
    modifies dev
    ensures dev.Valid()
    ensures forall b :: 0 <= b < RAMDISK_BLOCK_COUNT && b !in addrs ==> dev.disk[b] == old(dev.disk)[b]
    ensures forall k :: 0 <= k < |addrs| ==> dev.disk[addrs[k]] == Final(old(dev.disk), addrs, del, k)
  {
    ghost var disk0 := dev.disk;
    var first := del / PER_BLOCK;
    var alive := dev.Read(addrs[first]);
    dev.iobuffer := ShiftFrom(dev.iobuffer, del % PER_BLOCK);
    var previous := dev.iobuffer;
    var i := first;
    while i + 1 < |addrs|
      invariant first <= i < |addrs| && dev.Valid()
      invariant dev.disk == Stage(disk0, addrs, del, i)
      invariant previous == Moved(disk0, addrs, del, i)
    {
      StageAt(disk0, addrs, del, i, i + 1);
      StageNext(disk0, addrs, del, i, i + 1);
      previous := ShiftOne(dev, addrs[i], addrs[i + 1], previous);
      i := i + 1;
    }
    dev.iobuffer := previous;
    alive := dev.Write(addrs[i]);
    StageNext(disk0, addrs, del, i, i + 1);
    StageDone(disk0, dev.disk, addrs, del);
  }

  /** The disk when the blocks below n are finished. */
  ghost function Stage(disk: seq<seq<Entry>>, addrs: seq<nat>, del: nat, n: nat): (r: seq<seq<Entry>>)
    requires Blocks(disk, addrs) && del / PER_BLOCK <= n <= |addrs|
    ensures |r| == |disk|
  {
    if n == del / PER_BLOCK then disk
      else Stage(disk, addrs, del, n - 1)[addrs[n - 1] := Final(disk, addrs, del, n - 1)]
  }

  lemma {:induction false} StageAt(disk: seq<seq<Entry>>, addrs: seq<nat>, del: nat, n: nat, k: nat)
    requires Blocks(disk, addrs) && del / PER_BLOCK <= n <= |addrs| && Distinct(addrs) && k < |addrs|
    ensures Stage(disk, addrs, del, n)[addrs[k]] == if k < n then Final(disk, addrs, del, k) else disk[addrs[k]]
    ensures forall b :: 0 <= b < |disk| && b !in addrs ==> Stage(disk, addrs, del, n)[b] == disk[b]
    decreases n
  {
    if n > del / PER_BLOCK {
      var m := n - 1;
      StageAt(disk, addrs, del, m, k);
      StageNext(disk, addrs, del, m, n);
      OneUpdated(Stage(disk, addrs, del, m), addrs, m, k, Final(disk, addrs, del, m));
    }
  }

  lemma OneUpdated(s: seq<seq<Entry>>, addrs: seq<nat>, m: nat, k: nat, x: seq<Entry>)
    requires Distinct(addrs) && m < |addrs| && k < |addrs| && forall i :: 0 <= i < |addrs| ==> addrs[i] < |s|
    ensures s[addrs[m] := x][addrs[k]] == if k == m then x else s[addrs[k]]
    ensures forall b :: 0 <= b < |s| && b !in addrs ==> s[addrs[m] := x][b] == s[b]
  {
  }

  lemma StageNext(disk: seq<seq<Entry>>, addrs: seq<nat>, del: nat, m: nat, n: nat)
    requires Blocks(disk, addrs) && del / PER_BLOCK <= m && n == m + 1 <= |addrs|
    ensures Stage(disk, addrs, del, n) == Stage(disk, addrs, del, m)[addrs[m] := Final(disk, addrs, del, m)]
  {
  }

  lemma StageDone(disk: seq<seq<Entry>>, after: seq<seq<Entry>>, addrs: seq<nat>, del: nat)
    requires Blocks(disk, addrs) && del / PER_BLOCK < |addrs| && Distinct(addrs) &&
      after == Stage(disk, addrs, del, |addrs|)
    ensures forall b :: 0 <= b < |disk| && b !in addrs ==> after[b] == disk[b]
    ensures forall k :: 0 <= k < |addrs| ==> after[addrs[k]] == Final(disk, addrs, del, k)
  {
    StageAt(disk, addrs, del, |addrs|, 0);
    forall k | 0 <= k < |addrs|
      ensures after[addrs[k]] == Final(disk, addrs, del, k)
    {
      StageAt(disk, addrs, del, |addrs|, k);
    }
  }

  /** One iteration: the block before is completed with the first entry of this one and written back. */
  method ShiftOne(dev: Device<Entry>, before: nat, at: nat, previous: seq<Entry>) returns (thisBlock: seq<Entry>)
    requires dev.Valid() && dev.cells == PER_BLOCK && before < RAMDISK_BLOCK_COUNT && at < RAMDISK_BLOCK_COUNT &&
      |previous| == PER_BLOCK
    modifies dev
    ensures dev.Valid() && thisBlock == ShiftFrom(old(dev.disk)[at], 0)
    ensures dev.disk == old(dev.disk)[before := previous[PER_BLOCK - 1 := old(dev.disk)[at][0]]]
  {
    var alive := dev.Read(at);
    thisBlock := dev.iobuffer;
    dev.iobuffer := previous[PER_BLOCK - 1 := dev.iobuffer[0]];
    thisBlock := ShiftFrom(thisBlock, 0);
    alive := dev.Write(before);
  }

  /** Cell j of block k in the end: itself, its right neighbour, or the first cell of the next block. */
  lemma FinalCell(disk: seq<seq<Entry>>, addrs: seq<nat>, del: nat, k: nat, j: nat)
    requires Blocks(disk, addrs) && k < |addrs| && j < PER_BLOCK && (j + 1 < PER_BLOCK || k + 1 < |addrs|)
    ensures Final(disk, addrs, del, k)[j] ==
      if k < del / PER_BLOCK || (k == del / PER_BLOCK && j < del % PER_BLOCK) then disk[addrs[k]][j]
      else if j + 1 < PER_BLOCK then disk[addrs[k]][j + 1] else disk[addrs[k + 1]][0]
  {
  }

  /** Cell p of the result is cell p or p + 1 of what was there before. */
  lemma FinalAt(disk: seq<seq<Entry>>, addrs: seq<nat>, del: nat, k: nat, j: nat, p: nat)
    requires Blocks(disk, addrs) && del / PER_BLOCK < |addrs| && k < |addrs| && j < PER_BLOCK
    requires p == k * PER_BLOCK + j && p + 1 < |addrs| * PER_BLOCK
    ensures |Flat(disk, addrs)| == |addrs| * PER_BLOCK
    ensures Final(disk, addrs, del, k)[j] == Flat(disk, addrs)[if p < del then p else p + 1]
  {
    BlockFollows(k, j, p, |addrs|);
    FinalCell(disk, addrs, del, k, j);
    FlatCell(disk, addrs, del, k, j, p);
  }

  lemma FlatCell(disk: seq<seq<Entry>>, addrs: seq<nat>, del: nat, k: nat, j: nat, p: nat)
    requires Blocks(disk, addrs) && k < |addrs| && j < PER_BLOCK && (j + 1 < PER_BLOCK || k + 1 < |addrs|)
    requires p == k * PER_BLOCK + j
    ensures |Flat(disk, addrs)| == |addrs| * PER_BLOCK && p + 1 < |addrs| * PER_BLOCK
    ensures Flat(disk, addrs)[if p < del then p else p + 1] ==
      if k < del / PER_BLOCK || (k == del / PER_BLOCK && j < del % PER_BLOCK) then disk[addrs[k]][j]
      else if j + 1 < PER_BLOCK then disk[addrs[k]][j + 1] else disk[addrs[k + 1]][0]
  {
    InOrder(del, k, j, p);
    FlatSize(disk, addrs);
    if p < del {
      FlatIs(disk, addrs, k, j, p);
    } else if j + 1 < PER_BLOCK {
      FlatIs(disk, addrs, k, j + 1, p + 1);
    } else {
      FlatIs(disk, addrs, k + 1, 0, p + 1);
    }
  }

  lemma InOrder(del: nat, k: nat, j: nat, p: nat)
    requires j < PER_BLOCK && p == k * PER_BLOCK + j
    ensures p < del <==> k < del / PER_BLOCK || (k == del / PER_BLOCK && j < del % PER_BLOCK)
  {
    assert del == del / PER_BLOCK * PER_BLOCK + del % PER_BLOCK;
  }

  lemma BlockFollows(k: nat, j: nat, p: nat, n: nat)
    requires j < PER_BLOCK && p == k * PER_BLOCK + j && p + 1 < n * PER_BLOCK
    ensures j + 1 < PER_BLOCK || k + 1 < n
  {
  }

  lemma FlatIs(disk: seq<seq<Entry>>, addrs: seq<nat>, i: nat, j: nat, p: nat)
    requires Blocks(disk, addrs) && i < |addrs| && j < PER_BLOCK && p == i * PER_BLOCK + j
    ensures p < |Flat(disk, addrs)| && Flat(disk, addrs)[p] == disk[addrs[i]][j]
  {
    FlatAt(disk, addrs, i, j);
  }

  /** Removing one entry: for any number of blocks the entries become the same sequence without that entry. */
  method RemoveAt(dev: Device<Entry>, d: Dir, del: nat)
    requires dev.Valid() && dev.cells == PER_BLOCK && DirOk(dev.disk, d) && del < d.total
    modifies dev
    ensures dev.Valid()
    ensures forall b :: 0 <= b < RAMDISK_BLOCK_COUNT && b !in d.addrs ==> dev.disk[b] == old(dev.disk)[b]
    ensures DirOk(dev.disk, Dir(d.total - 1, d.addrs))
    ensures Entries(dev.disk, Dir(d.total - 1, d.addrs)) == Removed(old(Entries(dev.disk, d)), del)
  {
    ghost var disk0 := dev.disk;
    Shift(dev, d.addrs, del);
    FlatShifted(disk0, dev.disk, d, del);
  }

  lemma FlatShifted(before: seq<seq<Entry>>, after: seq<seq<Entry>>, d: Dir, del: nat)
    requires DirOk(before, d) && del < d.total && Blocks(before, d.addrs) && Blocks(after, d.addrs) &&
      |after| == |before|
    requires forall k :: 0 <= k < |d.addrs| ==> after[d.addrs[k]] == Final(before, d.addrs, del, k)
    ensures Entries(after, Dir(d.total - 1, d.addrs)) == Removed(Entries(before, d), del)
  {
    FlatSize(before, d.addrs);
    FlatSize(after, d.addrs);
    var r := Removed(Entries(before, d), del);
    forall p | 0 <= p < d.total - 1
      ensures Flat(after, d.addrs)[p] == r[p]
    {
      ShiftedAt(before, after, d, del, p);
    }
  }

  lemma ShiftedAt(before: seq<seq<Entry>>, after: seq<seq<Entry>>, d: Dir, del: nat, p: nat)
    requires DirOk(before, d) && del < d.total && Blocks(before, d.addrs) && Blocks(after, d.addrs) &&
      |after| == |before|
    requires forall k :: 0 <= k < |d.addrs| ==> after[d.addrs[k]] == Final(before, d.addrs, del, k)
    requires p < d.total - 1 && |Flat(before, d.addrs)| == |Flat(after, d.addrs)| == |d.addrs| * PER_BLOCK
    ensures Flat(after, d.addrs)[p] == Removed(Entries(before, d), del)[p]
  {
    FinalAt(before, d.addrs, del, p / PER_BLOCK, p % PER_BLOCK, p);
    FlatAt(after, d.addrs, p / PER_BLOCK, p % PER_BLOCK);
  }

  // ---------------------------------------------------------------- the directory inode

  function BlocksFor(total: nat): nat {
    if total == 0 then 1 else (total + PER_BLOCK - 1) / PER_BLOCK
  }

  /** The block count rfs_unlink leaves: the last block is given back when it is empty and not the only one. */
  function BlocksAfter(total: nat, blocks: nat): nat
    requires total > 0
  {
    if (total - 1) % PER_BLOCK == 0 && blocks > 1 then blocks - 1 else blocks
  }

  /** Removal keeps the block count at what the entries need, and at least one. */
  lemma BlockCountKept(total: nat, blocks: nat)
    requires total > 0 && blocks == BlocksFor(total)
    ensures BlocksAfter(total, blocks) == BlocksFor(total - 1)
  {
  }

  lemma DropLast(disk: seq<seq<Entry>>, addrs: seq<nat>, n: nat)
    requires Blocks(disk, addrs) && |addrs| > 1 && n <= (|addrs| - 1) * PER_BLOCK
    ensures |Flat(disk, addrs)| == |addrs| * PER_BLOCK &&
      |Flat(disk, addrs[..|addrs| - 1])| == (|addrs| - 1) * PER_BLOCK
    ensures Flat(disk, addrs)[..n] == Flat(disk, addrs[..|addrs| - 1])[..n]
  {
    FlatSize(disk, addrs);
    FlatSize(disk, addrs[..|addrs| - 1]);
    forall p | 0 <= p < n
      ensures Flat(disk, addrs)[p] == Flat(disk, addrs[..|addrs| - 1])[p]
    {
      FlatAt(disk, addrs, p / PER_BLOCK, p % PER_BLOCK);
      FlatAt(disk, addrs[..|addrs| - 1], p / PER_BLOCK, p % PER_BLOCK);
    }
  }

  /**
   NullRead: the inode number is taken from the entry the search stopped at before anybody asks whether it found
   one, and in a directory without entries there is none: the pointer is null.
   */
  datatype Removal = Gone | Absent | NullRead

  /**
   The directory part of rfs_unlink: find the first entry with the name, remove it, give the last block
   back when it is empty.  `freed` is that block, or -1.
   */
  method Unlink(dev: Device<Entry>, d: Dir, name: string) returns (r: Removal, d': Dir, freed: int)
    requires dev.Valid() && dev.cells == PER_BLOCK && DirOk(dev.disk, d) && |d.addrs| == BlocksFor(d.total)
    modifies dev
    ensures dev.Valid() && DirOk(dev.disk, d') && |d'.addrs| == BlocksFor(d'.total)
    ensures forall b :: 0 <= b < RAMDISK_BLOCK_COUNT && b !in d.addrs ==> dev.disk[b] == old(dev.disk)[b]
    ensures r.Gone? <==> exists i :: 0 <= i < d.total && old(Entries(dev.disk, d))[i].name == name
    ensures (r.NullRead? <==> d.total == 0) && (!r.Gone? ==> d' == d && dev.disk == old(dev.disk))
    ensures r.Gone? ==> exists k :: 0 <= k < d.total && FirstNamed(old(Entries(dev.disk, d)), name, k)
                               && Entries(dev.disk, d') == Removed(old(Entries(dev.disk, d)), k)
    ensures if |d'.addrs| == |d.addrs| then d'.addrs == d.addrs && freed == -1
            else d'.addrs == d.addrs[..|d.addrs| - 1] && freed == d.addrs[|d.addrs| - 1]
  {
    var k := Search(dev, d, name);
    if k == d.total {
      return if d.total == 0 then NullRead else Absent, d, -1;
    }
    ghost var before := Entries(dev.disk, d);
    RemoveAt(dev, d, k);
    assert FirstNamed(before, name, k);
    BlockCountKept(d.total, |d.addrs|);
    if (d.total - 1) % PER_BLOCK == 0 && |d.addrs| > 1 {
      DropLast(dev.disk, d.addrs, d.total - 1);
      return Gone, Dir(d.total - 1, d.addrs[..|d.addrs| - 1]), d.addrs[|d.addrs| - 1];
    }
    return Gone, Dir(d.total - 1, d.addrs), -1;
  }

  predicate FirstNamed(es: seq<Entry>, name: string, k: nat)
    requires k < |es|
  {
    es[k].name == name && forall i :: 0 <= i < k ==> es[i].name != name
  }

  /**
   rfs_add_direntry: the entry goes behind the last one.  A directory never gets a second block: when its
   blocks are full the source goes on with the word behind its addresses, `unset`, which nobody ever
   wrote, and either dies of it or overwrites the first entry of whatever block that is.
   */
  method AddEntry(dev: Device<Entry>, d: Dir, e: Entry, unset: int) returns (alive: bool, d': Dir)
    requires dev.Valid() && dev.cells == PER_BLOCK && DirOk(dev.disk, d)
    modifies dev
    ensures dev.Valid() && (alive <==> HasRoom(d) || 0 <= unset < RAMDISK_BLOCK_COUNT)
    ensures d' == if alive then Dir(d.total + 1, d.addrs) else d
    ensures alive ==> (DirOk(dev.disk, d') <==> HasRoom(d))
    ensures HasRoom(d) ==> forall b :: 0 <= b < RAMDISK_BLOCK_COUNT && b !in d.addrs ==> dev.disk[b] == old(dev.disk)[b]
    ensures HasRoom(d) ==> Entries(dev.disk, d') == old(Entries(dev.disk, d)) + [e]
    ensures !HasRoom(d) ==>
      dev.disk == if alive then old(dev.disk)[unset := old(dev.disk)[unset][0 := e]] else old(dev.disk)
  {
    ghost var disk0 := dev.disk;
    d' := d;
    var b := if d.total / PER_BLOCK < |d.addrs| then d.addrs[d.total / PER_BLOCK] else unset;
    alive := dev.Read(b);
    if !alive {
      return;
    }
    dev.iobuffer := dev.iobuffer[d.total % PER_BLOCK := e];
    alive := dev.Write(b);
    d' := Dir(d.total + 1, d.addrs);
    if HasRoom(d) {
      AddedFlat(disk0, dev.disk, d, e);
    }
  }

  predicate HasRoom(d: Dir) {
    d.total < |d.addrs| * PER_BLOCK
  }

  lemma AddedFlat(before: seq<seq<Entry>>, after: seq<seq<Entry>>, d: Dir, e: Entry)
    requires DirOk(before, d) && d.total < |d.addrs| * PER_BLOCK
    requires var b := d.addrs[d.total / PER_BLOCK]; after == before[b := before[b][d.total % PER_BLOCK := e]]
    ensures DirOk(after, Dir(d.total + 1, d.addrs))
    ensures Entries(after, Dir(d.total + 1, d.addrs)) == Entries(before, d) + [e]
  {
    FlatSize(before, d.addrs);
    FlatSize(after, d.addrs);
    forall p | 0 <= p < d.total + 1
      ensures Flat(after, d.addrs)[p] == if p < d.total then Flat(before, d.addrs)[p] else e
    {
      FlatAt(before, d.addrs, p / PER_BLOCK, p % PER_BLOCK);
      FlatAt(after, d.addrs, p / PER_BLOCK, p % PER_BLOCK);
    }
  }

  /** Adding an entry with a new name and removing it by that name gives back the entries there were. */
  lemma RemoveUndoesAdd(es: seq<Entry>, e: Entry, k: nat)
    requires (forall i :: 0 <= i < |es| ==> es[i].name != e.name) && k <= |es| && FirstNamed(es + [e], e.name, k)
    ensures Removed(es + [e], k) == es
  {
    assert (es + [e])[k].name == e.name;
    assert forall i :: 0 <= i < |es| ==> (es + [e])[i] == es[i];
    assert k == |es|;
  }
}
