/** The free map of an RFS volume (kernel/rfs.c): which data blocks are in use. */
module RfsFree {
  const OFFSET_FREE := 12    // RFS_BLK_OFFSET_FREE
  const NBLOCKS := 100       // data blocks
  const DIRECT_BLKNUM := 10  // block addresses in an inode

  /** rfs_alloc_block: the first free block is marked used; -1, which kills the process, when there is none. */
  method AllocBlock(freemap: seq<bool>) returns (a: int, after: seq<bool>)
    requires |freemap| == NBLOCKS
    ensures a == -1 <==> forall i :: 0 <= i < NBLOCKS ==> freemap[i]
    ensures a == -1 ==> after == freemap && Unused(freemap, NBLOCKS) == 0
    ensures a != -1 ==> |after| == NBLOCKS && Unused(after, NBLOCKS) == Unused(freemap, NBLOCKS) - 1
    ensures a != -1 ==>
      OFFSET_FREE <= a < OFFSET_FREE + NBLOCKS && !freemap[a - OFFSET_FREE] && after == freemap[a - OFFSET_FREE := true]
    ensures a != -1 ==> forall i :: 0 <= i < a - OFFSET_FREE ==> freemap[i]
  {
    var b := 0;
    while b < NBLOCKS
      invariant 0 <= b <= NBLOCKS && forall i :: 0 <= i < b ==> freemap[i]
    {
      if !freemap[b] {
        OneLess(freemap, b, NBLOCKS);
        return OFFSET_FREE + b, freemap[b := true];
      }
      b := b + 1;
    }
    NoneLeft(freemap, NBLOCKS);
    return -1, freemap;
  }

  /** How many of the first n blocks are free. */
  function Unused(freemap: seq<bool>, n: nat): nat
    requires n <= |freemap|
  {
    if n == 0 then 0 else Unused(freemap, n - 1) + if freemap[n - 1] then 0 else 1
  }

  lemma {:induction false} OneLess(freemap: seq<bool>, b: nat, n: nat)
    requires b < n <= |freemap| && !freemap[b]
    ensures Unused(freemap[b := true], n) == Unused(freemap, n) - 1
  {
    if n - 1 == b {
      Untouched(freemap, b, b);
    } else {
      OneLess(freemap, b, n - 1);
    }
  }

  lemma {:induction false} Untouched(freemap: seq<bool>, b: nat, n: nat)
    requires n <= b < |freemap|
    ensures Unused(freemap[b := true], n) == Unused(freemap, n)
  {
    if n > 0 {
      Untouched(freemap, b, n - 1);
    }
  }

  lemma {:induction false} NoneLeft(freemap: seq<bool>, n: nat)
    requires n <= |freemap| && forall i :: 0 <= i < n ==> freemap[i]
    ensures Unused(freemap, n) == 0
  {
    if n > 0 {
      NoneLeft(freemap, n - 1);
    }
  }
}
