/**
 Which block belongs to which inode in kernel/rfs.c, over every run of create, mkdir, write, link, unlink,
 close and lookup.  The vinode cached in memory and the inode on disk are kept apart: a write extends the
 vinode only, and unlink frees the blocks the disk inode lists.
 */
module RfsBlocks {
  import opened Sequences
  import opened RfsFree

  const NINODES := 320        // RFS_BLKSIZE / RFS_INODESIZE * RFS_MAX_INODE_BLKNUM

  datatype Kind = FREE | FILE | DIR

  /** A disk inode; `blocks` lists addrs[0 .. blocks). */
  datatype Dinode = Dinode(kind: Kind, nlinks: nat, blocks: seq<int>)

  datatype Outcome = Done | NoSpace | Overrun | Refused

  /** Ghost owner of a data block: nobody, an inode, or a live mark that nothing will ever clear. */
  datatype Owner = Nobody | Inode(i: nat) | Lost

  /** The blocks of inode i as its vinode lists them, or as the disk does when it is not cached. */
  function BlocksOf(dinodes: seq<Dinode>, cache: map<nat, seq<int>>, i: nat): seq<int>
    requires i < |dinodes|
  {
    if i in cache then cache[i] else dinodes[i].blocks
  }

  predicate Data(a: int) {
    OFFSET_FREE <= a < OFFSET_FREE + NBLOCKS
  }

  /** The blocks listed for inode i are its own, all different, and none was allocated at its birth as a file. */
  ghost predicate Owns(owner: seq<Owner>, s: seq<int>, i: nat)
    requires |owner| == NBLOCKS
  {
    Distinct(s) && forall k :: 0 <= k < |s| ==> Data(s[k]) && owner[s[k] - OFFSET_FREE] == Inode(i)
  }

  ghost predicate Pinned(owner: seq<Owner>, dinodes: seq<Dinode>, b: int)
    requires |owner| == NBLOCKS && |dinodes| == NINODES
  {
    && Data(b)
    && match owner[b - OFFSET_FREE]
       case Nobody => false
       case Inode(i) => i < NINODES && dinodes[i].kind == DIR
       case Lost => true
  }

  /** Inode i: its blocks are its own, the disk lists a first part of them, and if it lives its birth is on record. */
  ghost predicate NodeOk(dinodes: seq<Dinode>, cache: map<nat, seq<int>>, owner: seq<Owner>, born: seq<int>,
                         birth: map<nat, int>, i: nat)
    requires |owner| == NBLOCKS && |dinodes| == NINODES && i < NINODES
  {
    && Owns(owner, BlocksOf(dinodes, cache, i), i)
    && (i in cache ==> dinodes[i].blocks <= cache[i])
    && (if dinodes[i].kind == FREE then dinodes[i].blocks == [] && i !in cache
        else dinodes[i].nlinks > 0 && i in birth && birth[i] in born)
  }

  ghost predicate BirthsDiffer(dinodes: seq<Dinode>, birth: map<nat, int>) {
    forall i, j ::
      0 <= i < j < |dinodes| && dinodes[i].kind != FREE && dinodes[j].kind != FREE && i in birth && j in birth ==>
      birth[i] != birth[j]
  }

  ghost predicate AllPinned(owner: seq<Owner>, dinodes: seq<Dinode>, born: seq<int>)
    requires |owner| == NBLOCKS && |dinodes| == NINODES
  {
    forall k :: 0 <= k < |born| ==> Pinned(owner, dinodes, born[k])
  }

  /** `born` lists the block allocated by every create and mkdir so far, `birth` the one of each live inode. */
  ghost predicate Inv(freemap: seq<bool>, dinodes: seq<Dinode>, cache: map<nat, seq<int>>, owner: seq<Owner>,
                      born: seq<int>, birth: map<nat, int>) {
    && |freemap| == |owner| == NBLOCKS && |dinodes| == NINODES
    && (forall b :: 0 <= b < NBLOCKS ==> (freemap[b] <==> owner[b] != Nobody))
    && (forall i :: i in cache ==> i < NINODES)
    && (forall i :: 0 <= i < NINODES ==> NodeOk(dinodes, cache, owner, born, birth, i))
    && BirthsDiffer(dinodes, birth) && Distinct(born) && AllPinned(owner, dinodes, born)
  }

  /** Blocks of two inodes never meet. */
  lemma OwnershipDisjoint(freemap: seq<bool>, dinodes: seq<Dinode>, cache: map<nat, seq<int>>, owner: seq<Owner>,
                          born: seq<int>, birth: map<nat, int>, i: nat, j: nat, k: nat, l: nat)
    requires Inv(freemap, dinodes, cache, owner, born, birth) && i < NINODES && j < NINODES
    requires k < |BlocksOf(dinodes, cache, i)| && l < |BlocksOf(dinodes, cache, j)| && (i != j || k != l)
    ensures BlocksOf(dinodes, cache, i)[k] != BlocksOf(dinodes, cache, j)[l]
    ensures Data(BlocksOf(dinodes, cache, i)[k]) && freemap[BlocksOf(dinodes, cache, i)[k] - OFFSET_FREE]
  {
    assert NodeOk(dinodes, cache, owner, born, birth, i) && NodeOk(dinodes, cache, owner, born, birth, j);
  }

  /** How many of the first n data blocks are marked used. */
  function Used(freemap: seq<bool>, n: nat): (c: nat)
    requires n <= |freemap|
    ensures c <= n
  {
    if n == 0 then 0 else Used(freemap, n - 1) + if freemap[n - 1] then 1 else 0
  }

  /** Different used blocks are at most as many as there are used blocks. */
  lemma {:induction false} DifferentUsed(s: seq<int>, freemap: seq<bool>, n: nat)
    requires n <= |freemap| && Distinct(s) && forall k ::
      0 <= k < |s| ==> OFFSET_FREE <= s[k] < OFFSET_FREE + n && freemap[s[k] - OFFSET_FREE]
    ensures |s| <= Used(freemap, n)
    decreases n
  {
    if s != [] {
      assert OFFSET_FREE <= s[0] < OFFSET_FREE + n;
      if k :| 0 <= k < |s| && s[k] == OFFSET_FREE + n - 1 {
        var t := s[..k] + s[k + 1..];
        forall i | 0 <= i < |t|
          ensures OFFSET_FREE <= t[i] < OFFSET_FREE + n - 1 && freemap[t[i] - OFFSET_FREE]
        {
          assert t[i] == if i < k then s[i] else s[i + 1];
        }
        DifferentUsed(t, freemap, n - 1);
      } else {
        DifferentUsed(s, freemap, n - 1);
      }
    }
  }

  /** Every create and mkdir that ever happened, the root's included, still holds a block: there are at most 100. */
  lemma BirthsBounded(freemap: seq<bool>, dinodes: seq<Dinode>, cache: map<nat, seq<int>>, owner: seq<Owner>,
                      born: seq<int>, birth: map<nat, int>)
    requires Inv(freemap, dinodes, cache, owner, born, birth)
    ensures |born| <= Used(freemap, NBLOCKS) <= NBLOCKS
  {
    forall k | 0 <= k < |born|
      ensures Data(born[k]) && freemap[born[k] - OFFSET_FREE]
    {
      assert Pinned(owner, dinodes, born[k]);
    }
    DifferentUsed(born, freemap, NBLOCKS);
  }

  /** Live inodes never outnumber used blocks. */
  lemma LiveBounded(freemap: seq<bool>, dinodes: seq<Dinode>, cache: map<nat, seq<int>>, owner: seq<Owner>,
                    born: seq<int>, birth: map<nat, int>, live: seq<nat>)
    requires Inv(freemap, dinodes, cache, owner, born, birth)
    requires (forall k, l :: 0 <= k < l < |live| ==> live[k] != live[l]) && forall k ::
      0 <= k < |live| ==> live[k] < NINODES && dinodes[live[k]].kind != FREE
    ensures |live| <= Used(freemap, NBLOCKS)
  {
    forall k | 0 <= k < |live|
      ensures live[k] in birth && birth[live[k]] in born
    {
      assert NodeOk(dinodes, cache, owner, born, birth, live[k]);
    }
    var s := seq(|live|, k requires 0 <= k < |live| => birth[live[k]]);
    forall k | 0 <= k < |s|
      ensures Data(s[k]) && freemap[s[k] - OFFSET_FREE]
    {
      var n :| 0 <= n < |born| && born[n] == s[k];
      assert Pinned(owner, dinodes, born[n]);
    }
    forall k, l | 0 <= k < l < |s|
      ensures s[k] != s[l]
    {
      assert if live[k] < live[l] then birth[live[k]] != birth[live[l]] else birth[live[l]] != birth[live[k]];
    }
    DifferentUsed(s, freemap, NBLOCKS);
  }

  /** The search for a free inode never fails. */
  lemma FreeInodeExists(freemap: seq<bool>, dinodes: seq<Dinode>, cache: map<nat, seq<int>>, owner: seq<Owner>,
                        born: seq<int>, birth: map<nat, int>)
    requires Inv(freemap, dinodes, cache, owner, born, birth)
    ensures exists i :: 0 <= i <= NBLOCKS && dinodes[i].kind == FREE
  {
    if forall i :: 0 <= i <= NBLOCKS ==> dinodes[i].kind != FREE {
      var live: seq<nat> := seq(NBLOCKS + 1, i => i);
      LiveBounded(freemap, dinodes, cache, owner, born, birth, live);
      assert false;
    }
  }

  class Volume {
    var freemap: seq<bool>
    var dinodes: seq<Dinode>
    var cache: map<nat, seq<int>>
    ghost var owner: seq<Owner>
    ghost var born: seq<int>
    ghost var birth: map<nat, int>

    ghost predicate Valid()
      reads this
    {
      Inv(freemap, dinodes, cache, owner, born, birth)
    }

    /** rfs_format_dev: the root directory with its one block. */
    constructor ()
      ensures Valid() && born == [OFFSET_FREE] && dinodes[0] == Dinode(DIR, 1, [OFFSET_FREE]) && freemap[0]
      ensures forall i :: 1 <= i < NINODES ==> dinodes[i].kind == FREE
      ensures forall b :: 1 <= b < NBLOCKS ==> !freemap[b]
    {
      freemap := seq(NBLOCKS, b => b == 0);
      dinodes := seq(NINODES, i => if i == 0 then Dinode(DIR, 1, [OFFSET_FREE]) else Dinode(FREE, 0, []));
      cache := map[];
      owner := seq(NBLOCKS, b => if b == 0 then Inode(0) else Nobody);
      born := [OFFSET_FREE];
      birth := map[0 := OFFSET_FREE];
    }

    /** The inode search shared by rfs_create and rfs_mkdir; it always ends at a free one. */
    method FindFree() returns (i: nat)
      requires Valid()
      ensures i < NINODES && dinodes[i].kind == FREE && forall j :: 0 <= j < i ==> dinodes[j].kind != FREE
    {
      FreeInodeExists(freemap, dinodes, cache, owner, born, birth);
      i := 0;
      while i < NINODES && dinodes[i].kind != FREE
        invariant 0 <= i <= NINODES && forall j :: 0 <= j < i ==> dinodes[j].kind != FREE
      {
        i := i + 1;
      }
    }

    /** rfs_create and rfs_mkdir: an inode and one block, which only a directory lists. */
    method Create(kind: Kind) returns (outcome: Outcome, i: nat)
      requires Valid() && kind != FREE
      modifies this
      ensures Valid() && (outcome.Done? || outcome.NoSpace?)
      ensures outcome.NoSpace? <==> forall b :: 0 <= b < NBLOCKS ==> old(freemap)[b]
      ensures outcome.NoSpace? ==>
        freemap == old(freemap) && dinodes == old(dinodes) && cache == old(cache) && born == old(born)
      ensures outcome.Done? ==> i < NINODES && old(dinodes)[i].kind == FREE && |born| == |old(born)| + 1
      ensures outcome.Done? ==> var a := born[|born| - 1];
        && Data(a) && !old(freemap)[a - OFFSET_FREE] && freemap == old(freemap)[a - OFFSET_FREE := true]
        && dinodes == old(dinodes)[i := Dinode(kind, 1, if kind == DIR then [a] else [])]
        && cache == old(cache)[i := dinodes[i].blocks] && born == old(born) + [a]
    {
      i := FindFree();
      var a, after := AllocBlock(freemap);
      if a == -1 {
        return NoSpace, i;
      }
      CreateKeeps(freemap, dinodes, cache, owner, born, birth, i, a, kind);
      freemap := after;
      dinodes := dinodes[i := Dinode(kind, 1, if kind == DIR then [a] else [])];
      cache := cache[i := dinodes[i].blocks];
      owner := owner[a - OFFSET_FREE := if kind == DIR then Inode(i) else Lost];
      born, birth := born + [a], birth[i := a];
      return Done, i;
    }

    /** rfs_lookup of an inode that is not cached: the vinode is built from the disk. */
    method Load(i: nat)
      requires Valid() && i < NINODES && dinodes[i].kind != FREE
      modifies this`cache
      ensures Valid() && i in cache && cache == if i in old(cache) then old(cache)
        else old(cache)[i := dinodes[i].blocks]
    {
      if i !in cache {
        LoadKeeps(freemap, dinodes, cache, owner, born, birth, i);
        cache := cache[i := dinodes[i].blocks];
      }
    }

    /** rfs_write to the block behind the last one: the vinode gets it, the disk inode does not. */
    method Grow(i: nat) returns (outcome: Outcome)
      requires Valid() && i in cache && dinodes[i].kind == FILE
      modifies this
      ensures Valid() && dinodes == old(dinodes) && born == old(born)
      ensures !outcome.Done? ==> freemap == old(freemap) && cache == old(cache)
      ensures outcome.NoSpace? <==> forall b :: 0 <= b < NBLOCKS ==> old(freemap)[b]
      ensures outcome.Overrun? <==> !outcome.NoSpace? && |old(cache)[i]| >= DIRECT_BLKNUM
      ensures outcome.Done? ==> exists a ::
        Data(a) && !old(freemap)[a - OFFSET_FREE] && cache == old(cache)[i := old(cache)[i] + [a]] &&
        freemap == old(freemap)[a - OFFSET_FREE := true]
    {
      var a, after := AllocBlock(freemap);
      if a == -1 {
        return NoSpace;
      }
      if |cache[i]| >= DIRECT_BLKNUM {
        return Overrun;
      }
      GrowKeeps(freemap, dinodes, cache, owner, born, birth, i, a);
      freemap := after;
      cache := cache[i := cache[i] + [a]];
      owner := owner[a - OFFSET_FREE := Inode(i)];
      return Done;
    }

    /** rfs_write_back_vinode, and the link count of rfs_link before it. */
    method WriteBack(i: nat, more: nat)
      requires Valid() && i in cache
      modifies this`dinodes
      ensures Valid() &&
        dinodes == old(dinodes)[i := Dinode(old(dinodes)[i].kind, old(dinodes)[i].nlinks + more, cache[i])]
    {
      assert NodeOk(dinodes, cache, owner, born, birth, i);
      RewriteKeeps(freemap, dinodes, cache, owner, born, birth, i,
                   dinodes[i].(blocks := cache[i], nlinks := dinodes[i].nlinks + more));
      dinodes := dinodes[i := dinodes[i].(blocks := cache[i], nlinks := dinodes[i].nlinks + more)];
    }

    /** vfs_close of the last dentry: write back, then forget. */
    method Close(i: nat)
      requires Valid() && i in cache
      modifies this`dinodes, this`cache
      ensures Valid() && cache == old(cache) - {i} &&
        dinodes == old(dinodes)[i := old(dinodes)[i].(blocks := old(cache)[i])]
    {
      WriteBack(i, 0);
      DropKeeps(freemap, dinodes, cache, owner, born, birth, i);
      cache := cache - {i};
    }

    /**
     rfs_unlink of a file: the last link frees exactly the blocks the disk inode lists; blocks that only the
     vinode lists stay marked used for ever.
     */
    method Unlink(i: nat) returns (outcome: Outcome)
      requires Valid() && i in cache
      modifies this
      ensures Valid() && born == old(born) && (outcome.Done? || outcome.Refused?)
      ensures outcome.Refused? <==> old(dinodes)[i].kind != FILE
      ensures outcome.Refused? ==> freemap == old(freemap) && dinodes == old(dinodes) && cache == old(cache)
      ensures outcome.Done? && old(dinodes)[i].nlinks > 1 ==>
        freemap == old(freemap) && cache == old(cache) &&
          dinodes == old(dinodes)[i := old(dinodes)[i].(nlinks := old(dinodes)[i].nlinks - 1)]
      ensures outcome.Done? && old(dinodes)[i].nlinks == 1 ==>
        && dinodes == old(dinodes)[i := Dinode(FREE, 0, [])] && cache == old(cache) - {i}
        && forall b ::
          0 <= b < NBLOCKS ==> freemap[b] == (old(freemap)[b] && b + OFFSET_FREE !in old(dinodes)[i].blocks)
    {
      if dinodes[i].kind != FILE {
        return Refused;
      }
      assert NodeOk(dinodes, cache, owner, born, birth, i);
      if dinodes[i].nlinks > 1 {
        RewriteKeeps(freemap, dinodes, cache, owner, born, birth, i, dinodes[i].(nlinks := dinodes[i].nlinks - 1));
        dinodes := dinodes[i := dinodes[i].(nlinks := dinodes[i].nlinks - 1)];
        return Done;
      }
      ListedAreOwned(freemap, dinodes, cache, owner, born, birth, i);
      UnlinkKeeps(freemap, dinodes, cache, owner, born, birth, i);
      FreeBlocks(dinodes[i].blocks);
      owner := OwnersAfter(owner, i, dinodes[i].blocks);
      dinodes := dinodes[i := Dinode(FREE, 0, [])];
      cache := cache - {i};
      return Done;
    }

    method FreeBlocks(s: seq<int>)
      requires |freemap| == NBLOCKS && forall k :: 0 <= k < |s| ==> Data(s[k])
      modifies this`freemap
      ensures freemap == FreedMap(old(freemap), s)
    {
      var k := 0;
      while k < |s|
        invariant 0 <= k <= |s| && freemap == FreedMap(old(freemap), s[..k])
      {
        freemap := freemap[s[k] - OFFSET_FREE := false];
        assert s[..k + 1] == s[..k] + [s[k]];
        k := k + 1;
      }
      assert s[..k] == s;
    }
  }

  function FreedMap(freemap: seq<bool>, s: seq<int>): (r: seq<bool>)
    requires |freemap| == NBLOCKS
    ensures |r| == NBLOCKS && forall b :: 0 <= b < NBLOCKS ==> r[b] == (freemap[b] && b + OFFSET_FREE !in s)
  {
    seq(NBLOCKS, b requires 0 <= b < NBLOCKS => freemap[b] && b + OFFSET_FREE !in s)
  }

  /** The blocks freed are nobody's; what only the vinode knew is lost. */
  ghost function OwnersAfter(owner: seq<Owner>, i: nat, freed: seq<int>): (r: seq<Owner>)
    requires |owner| == NBLOCKS
    ensures |r| == NBLOCKS
    ensures forall b ::
      0 <= b < NBLOCKS ==>
      r[b] == if owner[b] != Inode(i) then owner[b] else if b + OFFSET_FREE in freed then Nobody else Lost
  {
    seq(NBLOCKS, b requires 0 <= b < NBLOCKS => if owner[b] != Inode(i) then owner[b]
        else if b + OFFSET_FREE in freed then Nobody else Lost)
  }

  // ---------------------------------------------------------------- preservation

  /** An inode nothing happened to, whose blocks are still its own. */
  lemma NodeKept(dinodes: seq<Dinode>, cache: map<nat, seq<int>>, owner: seq<Owner>, born: seq<int>,
                 birth: map<nat, int>, j: nat,
                 dinodes': seq<Dinode>, cache': map<nat, seq<int>>, owner': seq<Owner>, born': seq<int>,
                   birth': map<nat, int>)
    requires |owner| == |owner'| == NBLOCKS && |dinodes| == |dinodes'| == NINODES && j < NINODES &&
      NodeOk(dinodes, cache, owner, born, birth, j)
    requires dinodes'[j] == dinodes[j] && (j in cache <==> j in cache') && (j in cache ==> cache'[j] == cache[j])
    requires forall b :: 0 <= b < NBLOCKS && owner[b] == Inode(j) ==> owner'[b] == Inode(j)
    requires (j in birth ==> j in birth' && birth'[j] == birth[j]) && born <= born'
    ensures NodeOk(dinodes', cache', owner', born', birth', j)
  {
    assert BlocksOf(dinodes', cache', j) == BlocksOf(dinodes, cache, j);
  }

  lemma CreateKeeps(freemap: seq<bool>, dinodes: seq<Dinode>, cache: map<nat, seq<int>>, owner: seq<Owner>,
                    born: seq<int>, birth: map<nat, int>, i: nat, a: int, kind: Kind)
    requires Inv(freemap, dinodes, cache, owner, born, birth) && i < NINODES && dinodes[i].kind == FREE && kind != FREE
    requires Data(a) && !freemap[a - OFFSET_FREE]
    ensures var s := if kind == DIR then [a] else [];
      Inv(freemap[a - OFFSET_FREE := true], dinodes[i := Dinode(kind, 1, s)], cache[i := s],
          owner[a - OFFSET_FREE := if kind == DIR then Inode(i) else Lost], born + [a], birth[i := a])
  {
    var s := if kind == DIR then [a] else [];
    var dinodes', cache' := dinodes[i := Dinode(kind, 1, s)], cache[i := s];
    var owner', born', birth' := owner[a - OFFSET_FREE := if kind == DIR then Inode(i) else Lost], born + [a],
      birth[i := a];
    forall j | 0 <= j < NINODES
      ensures NodeOk(dinodes', cache', owner', born', birth', j)
    {
      assert NodeOk(dinodes, cache, owner, born, birth, j);
      if j != i {
        NodeKept(dinodes, cache, owner, born, birth, j, dinodes', cache', owner', born', birth');
      } else {
        assert born'[|born|] == a;
      }
    }
    PinsAfterCreate(owner, dinodes, born, i, a, owner', dinodes');
    NewBirthDiffers(freemap, dinodes, cache, owner, born, birth, i, a, dinodes');
  }

  lemma PinsAfterCreate(owner: seq<Owner>, dinodes: seq<Dinode>, born: seq<int>, i: nat, a: int, owner': seq<Owner>,
                        dinodes': seq<Dinode>)
    requires |owner| == |owner'| == NBLOCKS && |dinodes| == |dinodes'| == NINODES && i < NINODES && Data(a) &&
      owner[a - OFFSET_FREE] == Nobody
    requires AllPinned(owner, dinodes, born) && Distinct(born) && dinodes[i].kind == FREE
    requires (forall j :: 0 <= j < NINODES && j != i ==> dinodes'[j] == dinodes[j]) &&
      (forall b :: 0 <= b < NBLOCKS && b + OFFSET_FREE != a ==> owner'[b] == owner[b])
    requires owner'[a - OFFSET_FREE] == Lost || (owner'[a - OFFSET_FREE] == Inode(i) && dinodes'[i].kind == DIR)
    ensures AllPinned(owner', dinodes', born + [a]) && Distinct(born + [a]) && a !in born
  {
    forall k | 0 <= k < |born|
      ensures Pinned(owner', dinodes', born[k]) && born[k] != a
    {
      assert Pinned(owner, dinodes, born[k]);
    }
    assert Pinned(owner', dinodes', a);
  }

  lemma NewBirthDiffers(freemap: seq<bool>, dinodes: seq<Dinode>, cache: map<nat, seq<int>>, owner: seq<Owner>,
                        born: seq<int>, birth: map<nat, int>, i: nat, a: int, dinodes': seq<Dinode>)
    requires Inv(freemap, dinodes, cache, owner, born, birth) && i < NINODES && a !in born
    requires |dinodes'| == |dinodes| && forall j :: 0 <= j < NINODES && j != i ==> dinodes'[j] == dinodes[j]
    ensures BirthsDiffer(dinodes', birth[i := a])
  {
    forall j | 0 <= j < NINODES && j != i && dinodes[j].kind != FREE
      ensures j in birth && birth[j] != a
    {
      assert NodeOk(dinodes, cache, owner, born, birth, j);
    }
  }

  lemma LoadKeeps(freemap: seq<bool>, dinodes: seq<Dinode>, cache: map<nat, seq<int>>, owner: seq<Owner>,
                  born: seq<int>, birth: map<nat, int>, i: nat)
    requires Inv(freemap, dinodes, cache, owner, born, birth) && i < NINODES && dinodes[i].kind != FREE && i !in cache
    ensures Inv(freemap, dinodes, cache[i := dinodes[i].blocks], owner, born, birth)
  {
    var cache' := cache[i := dinodes[i].blocks];
    forall j | 0 <= j < NINODES
      ensures NodeOk(dinodes, cache', owner, born, birth, j)
    {
      assert NodeOk(dinodes, cache, owner, born, birth, j);
    }
  }

  lemma GrowKeeps(freemap: seq<bool>, dinodes: seq<Dinode>, cache: map<nat, seq<int>>, owner: seq<Owner>,
                  born: seq<int>, birth: map<nat, int>, i: nat, a: int)
    requires Inv(freemap, dinodes, cache, owner, born, birth) && i in cache && Data(a) && !freemap[a - OFFSET_FREE]
    ensures Inv(freemap[a - OFFSET_FREE := true], dinodes, cache[i := cache[i] + [a]],
                owner[a - OFFSET_FREE := Inode(i)], born, birth)
  {
    var cache', owner' := cache[i := cache[i] + [a]], owner[a - OFFSET_FREE := Inode(i)];
    forall j | 0 <= j < NINODES
      ensures NodeOk(dinodes, cache', owner', born, birth, j)
    {
      assert NodeOk(dinodes, cache, owner, born, birth, j);
      if j != i {
        NodeKept(dinodes, cache, owner, born, birth, j, dinodes, cache', owner', born, birth);
      } else {
        OwnsMore(owner, cache[i], i, a);
      }
    }
    forall k | 0 <= k < |born|
      ensures Pinned(owner', dinodes, born[k])
    {
      assert Pinned(owner, dinodes, born[k]);
    }
  }

  lemma OwnsMore(owner: seq<Owner>, s: seq<int>, i: nat, a: int)
    requires |owner| == NBLOCKS && Owns(owner, s, i) && Data(a) && owner[a - OFFSET_FREE] != Inode(i)
    ensures Owns(owner[a - OFFSET_FREE := Inode(i)], s + [a], i)
  {
  }

  /** Rewriting a live inode's link count, or its block list from the cache, keeps everything. */
  lemma RewriteKeeps(freemap: seq<bool>, dinodes: seq<Dinode>, cache: map<nat, seq<int>>, owner: seq<Owner>,
                     born: seq<int>, birth: map<nat, int>, i: nat, d: Dinode)
    requires Inv(freemap, dinodes, cache, owner, born, birth) && i in cache && d.kind == dinodes[i].kind &&
      d.nlinks > 0 && d.blocks <= cache[i]
    ensures Inv(freemap, dinodes[i := d], cache, owner, born, birth)
  {
    var dinodes' := dinodes[i := d];
    forall j | 0 <= j < NINODES
      ensures NodeOk(dinodes', cache, owner, born, birth, j)
    {
      assert NodeOk(dinodes, cache, owner, born, birth, j);
    }
    forall k | 0 <= k < |born|
      ensures Pinned(owner, dinodes', born[k])
    {
      assert Pinned(owner, dinodes, born[k]);
    }
  }

  lemma DropKeeps(freemap: seq<bool>, dinodes: seq<Dinode>, cache: map<nat, seq<int>>, owner: seq<Owner>,
                  born: seq<int>, birth: map<nat, int>, i: nat)
    requires Inv(freemap, dinodes, cache, owner, born, birth) && i in cache && dinodes[i].blocks == cache[i]
    ensures Inv(freemap, dinodes, cache - {i}, owner, born, birth)
  {
    var cache' := cache - {i};
    forall j | 0 <= j < NINODES
      ensures NodeOk(dinodes, cache', owner, born, birth, j)
    {
      assert NodeOk(dinodes, cache, owner, born, birth, j);
    }
  }

  lemma ListedAreOwned(freemap: seq<bool>, dinodes: seq<Dinode>, cache: map<nat, seq<int>>, owner: seq<Owner>,
                       born: seq<int>, birth: map<nat, int>, i: nat)
    requires Inv(freemap, dinodes, cache, owner, born, birth) && i in cache
    ensures forall k ::
      0 <= k < |dinodes[i].blocks| ==>
      Data(dinodes[i].blocks[k]) && owner[dinodes[i].blocks[k] - OFFSET_FREE] == Inode(i)
  {
    assert NodeOk(dinodes, cache, owner, born, birth, i);
    forall k | 0 <= k < |dinodes[i].blocks|
      ensures Data(dinodes[i].blocks[k]) && owner[dinodes[i].blocks[k] - OFFSET_FREE] == Inode(i)
    {
      assert dinodes[i].blocks[k] == cache[i][k];
    }
  }

  lemma FreedAreNobodys(freemap: seq<bool>, owner: seq<Owner>, i: nat, s: seq<int>)
    requires |freemap| == |owner| == NBLOCKS && forall b :: 0 <= b < NBLOCKS ==> (freemap[b] <==> owner[b] != Nobody)
    requires forall k :: 0 <= k < |s| ==> Data(s[k]) && owner[s[k] - OFFSET_FREE] == Inode(i)
    ensures forall b :: 0 <= b < NBLOCKS ==> (FreedMap(freemap, s)[b] <==> OwnersAfter(owner, i, s)[b] != Nobody)
  {
  }

  lemma UnlinkKeeps(freemap: seq<bool>, dinodes: seq<Dinode>, cache: map<nat, seq<int>>, owner: seq<Owner>,
                    born: seq<int>, birth: map<nat, int>, i: nat)
    requires Inv(freemap, dinodes, cache, owner, born, birth) && i in cache && dinodes[i].kind == FILE
    ensures Inv(FreedMap(freemap, dinodes[i].blocks), dinodes[i := Dinode(FREE, 0, [])], cache - {i},
                OwnersAfter(owner, i, dinodes[i].blocks), born, birth)
  {
    var owner', dinodes', cache' := OwnersAfter(owner, i, dinodes[i].blocks), dinodes[i := Dinode(FREE, 0, [])],
      cache - {i};
    forall j | 0 <= j < NINODES
      ensures NodeOk(dinodes', cache', owner', born, birth, j)
    {
      assert NodeOk(dinodes, cache, owner, born, birth, j);
      if j != i {
        NodeKept(dinodes, cache, owner, born, birth, j, dinodes', cache', owner', born, birth);
      }
    }
    forall k | 0 <= k < |born|
      ensures Pinned(owner', dinodes', born[k])
    {
      assert Pinned(owner, dinodes, born[k]);
    }
    ListedAreOwned(freemap, dinodes, cache, owner, born, birth, i);
    FreedAreNobodys(freemap, owner, i, dinodes[i].blocks);
  }
}
