/** File contents in kernel/rfs.c: rfs_read, rfs_write and block allocation on the RAM disk. */
module RfsFile {
  import opened RamDev
  import opened RfsFree

  const BLKSIZE := 4096

  type Block = seq<int>

  /** The fields of a vinode that describe contents; addrs holds garbage from index `blocks` on. */
  datatype Vinode = Vinode(size: nat, blocks: nat, addrs: seq<int>)

  /** kill_current_process never returns; `Overrun` is an access behind the end of addrs[]. */
  datatype Outcome = Done(n: nat) | BadOffset | NoSpace | Killed | Overrun

  predicate Owned(v: Vinode, a: int) {
    exists i :: 0 <= i < v.blocks && i < |v.addrs| && v.addrs[i] == a
  }

  /** The file's blocks are data blocks, all different and marked used. */
  predicate Shape(v: Vinode, freemap: seq<bool>) {
    && |v.addrs| == DIRECT_BLKNUM && v.blocks <= DIRECT_BLKNUM && |freemap| == NBLOCKS
    && (forall i ::
          0 <= i < v.blocks ==> OFFSET_FREE <= v.addrs[i] < OFFSET_FREE + NBLOCKS && freemap[v.addrs[i] - OFFSET_FREE])
    && (forall i, j :: 0 <= i < j < v.blocks ==> v.addrs[i] != v.addrs[j])
  }

  function Ceil(n: nat): nat {
    (n + BLKSIZE - 1) / BLKSIZE
  }

  /** Byte p of the file. */
  function ByteAt(disk: seq<Block>, v: Vinode, p: nat): int {
    if p / BLKSIZE < |v.addrs| && 0 <= v.addrs[p / BLKSIZE] < |disk| && p % BLKSIZE < |disk[v.addrs[p / BLKSIZE]]|
    then disk[v.addrs[p / BLKSIZE]][p % BLKSIZE] else 0
  }

  function Bytes(disk: seq<Block>, v: Vinode, from: nat, to: nat): (r: seq<int>)
    requires from <= to
    ensures |r| == to - from && forall i :: 0 <= i < to - from ==> r[i] == ByteAt(disk, v, from + i)
  {
    seq(to - from, i requires 0 <= i < to - from => ByteAt(disk, v, from + i))
  }

  /** What a write may do to the rest of the disk: nothing outside the file's own blocks, old or new. */
  ghost predicate OthersKept(disk0: seq<Block>, free0: seq<bool>, v0: Vinode, disk: seq<Block>, freemap: seq<bool>,
                             v: Vinode) {
    && |disk| == |disk0| && |freemap| == |free0| == NBLOCKS && |v.addrs| == |v0.addrs| == DIRECT_BLKNUM &&
      v0.blocks <= v.blocks <= DIRECT_BLKNUM
    && (forall i :: 0 <= i < v0.blocks ==> v.addrs[i] == v0.addrs[i])
    && (forall i ::
          v0.blocks <= i < v.blocks ==>
          OFFSET_FREE <= v.addrs[i] < OFFSET_FREE + NBLOCKS && !free0[v.addrs[i] - OFFSET_FREE])
    && (forall a :: 0 <= a < |disk0| && !Owned(v, a) ==> disk[a] == disk0[a])
    && (forall i :: 0 <= i < NBLOCKS && freemap[i] != free0[i] ==> freemap[i] && Owned(v, i + OFFSET_FREE))
  }

  /** Every block the file has gained is one the free map has lost. */
  ghost predicate Balanced(free0: seq<bool>, v0: Vinode, freemap: seq<bool>, v: Vinode) {
    && |free0| == |freemap| == NBLOCKS
    && Unused(free0, NBLOCKS) + v0.blocks == Unused(freemap, NBLOCKS) + v.blocks
  }

  /** The most blocks a write asks for: the eleventh is taken from the disk before its address finds no place. */
  const MOST_BLOCKS := DIRECT_BLKNUM + 1

  /** A file of n blocks, or of eleven if n is more, takes more blocks than the disk has left. */
  ghost predicate Lacks(free0: seq<bool>, v0: Vinode, n: nat) {
    |free0| == NBLOCKS && Unused(free0, NBLOCKS) + v0.blocks < if n < MOST_BLOCKS then n else MOST_BLOCKS
  }

  /** The file with one block more. */
  lemma GainsBlock(disk: seq<Block>, freemap: seq<bool>, v: Vinode, after: seq<bool>, k: nat, a: int)
    requires Shape(v, freemap) && k == v.blocks < DIRECT_BLKNUM && OFFSET_FREE <= a < OFFSET_FREE + NBLOCKS
    requires !freemap[a - OFFSET_FREE] && after == freemap[a - OFFSET_FREE := true]
    requires Unused(after, NBLOCKS) == Unused(freemap, NBLOCKS) - 1
    ensures var v' := v.(addrs := v.addrs[k := a], blocks := v.blocks + 1);
      Shape(v', after) && OthersKept(disk, freemap, v, disk, after, v') && Balanced(freemap, v, after, v')
  {
    var v' := v.(addrs := v.addrs[k := a], blocks := v.blocks + 1);
    assert v'.addrs[k] == a;
    assert Owned(v', a);
  }

  lemma NothingGained(disk: seq<Block>, freemap: seq<bool>, v: Vinode)
    requires Shape(v, freemap)
    ensures OthersKept(disk, freemap, v, disk, freemap, v) && Balanced(freemap, v, freemap, v)
  {
  }

  class File {
    const dev: Device<int>
    var freemap: seq<bool>
    var v: Vinode

    predicate Linked()
      reads this, dev
    {
      dev.Valid() && dev.cells == BLKSIZE && Shape(v, freemap)
    }

    /** Between calls the file has exactly the blocks its size needs. */
    predicate Valid()
      reads this, dev
    {
      Linked() && v.blocks == Ceil(v.size)
    }

    constructor (dev: Device<int>, freemap: seq<bool>, v: Vinode)
      requires dev.Valid() && dev.cells == BLKSIZE && Shape(v, freemap) && v.blocks == Ceil(v.size)
      ensures Valid() && this.dev == dev && this.freemap == freemap && this.v == v
    {
      this.dev, this.freemap, this.v := dev, freemap, v;
    }

    /** Before block k is written it is allocated if the file has exactly k blocks. */
    method EnsureBlock(k: nat) returns (alive: bool)
      requires Linked() && k <= v.blocks && k < DIRECT_BLKNUM
      modifies this`freemap, this`v
      ensures alive ==>
        Linked() && k < v.blocks && v.size == old(v).size && v.blocks == if k == old(v).blocks then k + 1
        else old(v).blocks
      ensures alive ==>
        OthersKept(dev.disk, old(freemap), old(v), dev.disk, freemap, v) && Balanced(old(freemap), old(v), freemap, v)
      ensures !alive ==> v == old(v) && freemap == old(freemap) && k == v.blocks && Unused(freemap, NBLOCKS) == 0
    {
      if k == v.blocks {
        var a, after := AllocBlock(freemap);
        if a == -1 {
          return false;
        }
        GainsBlock(dev.disk, freemap, v, after, k, a);
        freemap := after;
        v := v.(addrs := v.addrs[k := a], blocks := v.blocks + 1);
      } else {
        NothingGained(dev.disk, freemap, v);
      }
      return true;
    }

    /** rfs_w1block on block k of the file. */
    method PutBlock(k: nat)
      requires Linked() && k < v.blocks
      modifies dev`disk
      ensures Linked() && dev.disk == old(dev.disk)[v.addrs[k] := dev.iobuffer]
    {
      var alive := dev.Write(v.addrs[k]);
    }

    /** The unaligned head of a write: the block is read, changed from `align` on, and written back. */
    method WriteHead(data: seq<int>, offset: nat, k: nat, align: nat, m: nat)
      requires Linked() && k * BLKSIZE + align == offset <= v.blocks * BLKSIZE && m <= |data| && 0 < align &&
        align + m <= BLKSIZE
      modifies dev
      ensures Linked() && k < v.blocks && dev.iobuffer == dev.disk[v.addrs[k]]
      ensures Wrote(old(dev.disk), freemap, v, dev.disk, freemap, v, offset, data, offset + m)
      ensures KeptFrom(old(dev.disk), v, dev.disk, v, offset + m, v.blocks * BLKSIZE)
    {
      var alive := dev.Read(v.addrs[k]);
      dev.iobuffer := dev.iobuffer[..align] + data[..m] + dev.iobuffer[align + m..];
      PutBlock(k);
      HeadWritten(old(dev.disk), dev.disk, freemap, v, offset, data, k, align, m);
    }

    /** A write to block k from its beginning, with whatever the buffer holds behind the m new bytes. */
    method WriteFromStart(data: seq<int>, offset: nat, k: nat, m: nat, ghost at: nat,
                          ghost disk0: seq<Block>, ghost free0: seq<bool>, ghost v0: Vinode,
                            ghost io0: Block) returns (outcome: Outcome)
      requires dev.Valid() && dev.cells == BLKSIZE && at <= k && 0 < m <= BLKSIZE && k * BLKSIZE - offset + m <= |data|
      requires Passed(disk0, free0, v0, dev.disk, freemap, v, offset, data, k, 0) &&
        Buffered(v, dev.disk, dev.iobuffer, io0, at, k)
      modifies dev, this`freemap, this`v
      ensures outcome == Done(|data|) || outcome.NoSpace? || outcome.Overrun?
      ensures OthersKept(disk0, free0, v0, dev.disk, freemap, v)
      ensures outcome.Done? && m == BLKSIZE ==>
        dev.Valid() && Passed(disk0, free0, v0, dev.disk, freemap, v, offset, data, k + 1, 0) &&
          Buffered(v, dev.disk, dev.iobuffer, io0, at, k + 1)
      ensures outcome.Done? && m < BLKSIZE ==>
        dev.Valid() && Passed(disk0, free0, v0, dev.disk, freemap, v, offset, data, k, m) &&
          StaleTail(v, dev.disk, io0, at, k, m)
      ensures outcome.NoSpace? ==> Lacks(free0, v0, k + 1)
      ensures outcome.Overrun? ==> k == DIRECT_BLKNUM && !Lacks(free0, v0, k + 1)
    {
      if k >= DIRECT_BLKNUM {
        var a, after := AllocBlock(freemap);
        return if a == -1 then NoSpace else Overrun;
      }
      ghost var v1, free1, disk1, io1 := v, freemap, dev.disk, dev.iobuffer;
      var alive := EnsureBlock(k);
      if !alive {
        return NoSpace;
      }
      dev.iobuffer := data[k * BLKSIZE - offset..k * BLKSIZE - offset + m] + dev.iobuffer[m..];
      PutBlock(k);
      PassedOn(disk0, free0, v0, disk1, free1, v1, dev.disk, freemap, v, offset, data, k, m, dev.iobuffer);
      StaleKept(v1, disk1, io1, io0, at, k, m, v, dev.disk, dev.iobuffer);
      return Done(|data|);
    }

    /**
     rfs_write.  Bytes below the offset stay, the data follows, later blocks and everything outside the
     file stay.  What comes behind the data in the last block written is told by TailIs.
     */
    method Write(data: seq<int>, offset: nat) returns (outcome: Outcome)
      requires Valid()
      modifies dev, this`freemap, this`v
      ensures outcome.BadOffset? <==> old(v).size < offset
      ensures outcome.Done? ==>
        Valid() && outcome.n == |data| && v.size == if old(v).size < offset + |data| then offset + |data|
        else old(v).size
      ensures outcome.Done? ==> Bytes(dev.disk, v, 0, offset + |data|) == old(Bytes(dev.disk, v, 0, offset)) + data
      ensures outcome.Done? ==> forall b ::
        Ceil(offset + |data|) <= b < old(v).blocks ==> SameBlock(old(dev.disk), old(v), dev.disk, v, b)
      ensures outcome.Done? ==> TailIs(old(dev.disk), old(v), old(dev.iobuffer), dev.disk, v, offset, offset + |data|)
      ensures !outcome.BadOffset? ==> OthersKept(old(dev.disk), old(freemap), old(v), dev.disk, freemap, v)
      ensures outcome.NoSpace? <==> offset <= old(v).size && Lacks(old(freemap), old(v), Ceil(offset + |data|))
      ensures outcome.Overrun? <==> offset <= old(v).size && !outcome.NoSpace? && Ceil(offset + |data|) > DIRECT_BLKNUM
      ensures !outcome.Killed?
    {
      if v.size < offset {
        return BadOffset;
      }
      outcome := WriteBlocks(data, offset);
      if outcome.Done? {
        ghost var before := v;
        v := v.(size := if v.size < offset + |data| then offset + |data| else v.size);
        Resized(old(dev.disk), old(freemap), old(v), old(dev.iobuffer), dev.disk, freemap, before, offset, data,
                v.size);
      }
    }

    method WriteBlocks(data: seq<int>, offset: nat) returns (outcome: Outcome)
      requires Valid() && offset <= v.size
      modifies dev, this`freemap, this`v
      ensures OthersKept(old(dev.disk), old(freemap), old(v), dev.disk, freemap, v)
      ensures outcome == Done(|data|) || outcome.NoSpace? || outcome.Overrun?
      ensures outcome.Done? ==>
        dev.Valid() &&
        Written(old(dev.disk), old(freemap), old(v), old(dev.iobuffer), dev.disk, freemap, v, offset, data)
      ensures outcome.NoSpace? ==> Lacks(old(freemap), old(v), Ceil(offset + |data|))
      ensures outcome.Overrun? ==>
        !Lacks(old(freemap), old(v), Ceil(offset + |data|)) && Ceil(offset + |data|) > DIRECT_BLKNUM
    {
      if offset % BLKSIZE != 0 && (|data| + offset % BLKSIZE) / BLKSIZE == 0 {
        WriteWithin(data, offset);
        outcome := Done(|data|);
      } else {
        outcome := WriteBeyond(data, offset);
      }
    }

    /** A write that stays inside a block it has read. */
    method WriteWithin(data: seq<int>, offset: nat)
      requires Valid() && offset <= v.size && offset % BLKSIZE != 0 && (|data| + offset % BLKSIZE) / BLKSIZE == 0
      modifies dev
      ensures dev.Valid() && Written(old(dev.disk), freemap, v, old(dev.iobuffer), dev.disk, freemap, v, offset, data)
    {
      EndOfWrite(offset, |data|);
      WriteHead(data, offset, offset / BLKSIZE, offset % BLKSIZE, |data|);
    }

    method WriteBeyond(data: seq<int>, offset: nat) returns (outcome: Outcome)
      requires Valid() && offset <= v.size && (offset % BLKSIZE == 0 || (|data| + offset % BLKSIZE) / BLKSIZE > 0)
      modifies dev, this`freemap, this`v
      ensures OthersKept(old(dev.disk), old(freemap), old(v), dev.disk, freemap, v)
      ensures outcome == Done(|data|) || outcome.NoSpace? || outcome.Overrun?
      ensures outcome.Done? ==>
        dev.Valid() &&
        Written(old(dev.disk), old(freemap), old(v), old(dev.iobuffer), dev.disk, freemap, v, offset, data)
      ensures outcome.NoSpace? ==> Lacks(old(freemap), old(v), Ceil(offset + |data|))
      ensures outcome.Overrun? ==>
        !Lacks(old(freemap), old(v), Ceil(offset + |data|)) && Ceil(offset + |data|) > DIRECT_BLKNUM
    {
      var at, align := offset / BLKSIZE, offset % BLKSIZE;
      var times, remain := (|data| + align) / BLKSIZE, (|data| + align) % BLKSIZE;
      EndOfWrite(offset, |data|);
      outcome := WriteOn(data, offset, at, align, times, remain);
      if outcome.Done? {
        StaleIsTail(old(dev.disk), old(freemap), old(v), old(dev.iobuffer), dev.disk, freemap, v, offset, data, at,
                    align, times, remain);
      }
    }

    /** A write that does not stay inside a block it has read. */
    method WriteOn(data: seq<int>, offset: nat, at: nat, align: nat, times: nat, remain: nat) returns (outcome: Outcome)
      requires Linked() && at * BLKSIZE + align == offset && times * BLKSIZE + remain == |data| + align &&
        remain < BLKSIZE && align < BLKSIZE
      requires offset <= v.blocks * BLKSIZE && (align == 0 || times > 0)
      modifies dev, this`freemap, this`v
      ensures OthersKept(old(dev.disk), old(freemap), old(v), dev.disk, freemap, v)
      ensures outcome == Done(|data|) || outcome.NoSpace? || outcome.Overrun?
      ensures outcome.Done? ==>
        dev.Valid() &&
        Passed(old(dev.disk), old(freemap), old(v), dev.disk, freemap, v, offset, data, at + times, remain)
      ensures outcome.Done? && remain > 0 ==> StaleTail(v, dev.disk, old(dev.iobuffer), at, at + times, remain)
      ensures outcome.NoSpace? ==> Lacks(old(freemap), old(v), Needed(at + times, remain))
      ensures outcome.Overrun? ==>
        !Lacks(old(freemap), old(v), Needed(at + times, remain)) && Needed(at + times, remain) > DIRECT_BLKNUM
    {
      if align == 0 {
        WroteNothing(dev.disk, freemap, v, offset, data);
        outcome := WriteRest(data, offset, at, at + times, remain, at, dev.disk, freemap, v, dev.iobuffer);
      } else {
        outcome := WriteAcross(data, offset, at, align, times, remain);
      }
    }

    /** The end of the block the offset lies in, and what comes behind it. */
    method WriteAcross(data: seq<int>, offset: nat, at: nat, align: nat, times: nat, remain: nat)
      returns (outcome: Outcome)
      requires Linked() && at * BLKSIZE + align == offset && times * BLKSIZE + remain == |data| + align &&
        remain < BLKSIZE && 0 < align < BLKSIZE && times > 0
      requires offset <= v.blocks * BLKSIZE
      modifies dev, this`freemap, this`v
      ensures OthersKept(old(dev.disk), old(freemap), old(v), dev.disk, freemap, v)
      ensures outcome == Done(|data|) || outcome.NoSpace? || outcome.Overrun?
      ensures outcome.Done? ==>
        dev.Valid() &&
        Passed(old(dev.disk), old(freemap), old(v), dev.disk, freemap, v, offset, data, at + times, remain)
      ensures outcome.Done? && remain > 0 ==> StaleTail(v, dev.disk, old(dev.iobuffer), at, at + times, remain)
      ensures outcome.NoSpace? ==> Lacks(old(freemap), old(v), Needed(at + times, remain))
      ensures outcome.Overrun? ==>
        !Lacks(old(freemap), old(v), Needed(at + times, remain)) && Needed(at + times, remain) > DIRECT_BLKNUM
    {
      WriteHead(data, offset, at, align, BLKSIZE - align);
      outcome := WriteRest(data, offset, at + 1, at + times, remain, at, old(dev.disk), freemap, v,
                           old(dev.iobuffer));
    }

    /** Whole blocks from block `first` on, then the rest; `at` is the block the offset lies in. */
    method WriteRest(data: seq<int>, offset: nat, first: nat, last: nat, remain: nat, ghost at: nat,
                     ghost disk0: seq<Block>, ghost free0: seq<bool>, ghost v0: Vinode,
                       ghost io0: Block) returns (outcome: Outcome)
      requires dev.Valid() && dev.cells == BLKSIZE && last * BLKSIZE + remain == offset + |data| &&
        remain < BLKSIZE && at <= first <= last
      requires Passed(disk0, free0, v0, dev.disk, freemap, v, offset, data, first, 0) &&
        Buffered(v, dev.disk, dev.iobuffer, io0, at, first)
      modifies dev, this`freemap, this`v
      ensures OthersKept(disk0, free0, v0, dev.disk, freemap, v)
      ensures outcome == Done(|data|) || outcome.NoSpace? || outcome.Overrun?
      ensures outcome.Done? ==>
        dev.Valid() && Passed(disk0, free0, v0, dev.disk, freemap, v, offset, data, last, remain)
      ensures outcome.Done? && remain > 0 ==> StaleTail(v, dev.disk, io0, at, last, remain)
      ensures outcome.NoSpace? ==> Lacks(free0, v0, Needed(last, remain))
      ensures outcome.Overrun? ==>
        !Lacks(free0, v0, Needed(last, remain)) && Needed(last, remain) > DIRECT_BLKNUM
    {
      outcome := WriteWhole(data, offset, first, last, at, disk0, free0, v0, io0);
      LacksMore(free0, v0, last);
      if outcome.Done? && remain > 0 {
        outcome := WriteFromStart(data, offset, last, remain, at, disk0, free0, v0, io0);
      }
    }

    /** The whole blocks from `first` to `last`. */
    method WriteWhole(data: seq<int>, offset: nat, first: nat, last: nat, ghost at: nat,
                      ghost disk0: seq<Block>, ghost free0: seq<bool>, ghost v0: Vinode,
                        ghost io0: Block) returns (outcome: Outcome)
      requires dev.Valid() && dev.cells == BLKSIZE && at <= first <= last && last * BLKSIZE <= offset + |data|
      requires Passed(disk0, free0, v0, dev.disk, freemap, v, offset, data, first, 0) &&
        Buffered(v, dev.disk, dev.iobuffer, io0, at, first)
      modifies dev, this`freemap, this`v
      ensures OthersKept(disk0, free0, v0, dev.disk, freemap, v)
      ensures outcome == Done(|data|) || outcome.NoSpace? || outcome.Overrun?
      ensures outcome.Done? ==>
        dev.Valid() && Passed(disk0, free0, v0, dev.disk, freemap, v, offset, data, last, 0) &&
          Buffered(v, dev.disk, dev.iobuffer, io0, at, last)
      ensures outcome.NoSpace? ==> Lacks(free0, v0, last)
      ensures outcome.Overrun? ==> !Lacks(free0, v0, last) && last > DIRECT_BLKNUM
    {
      var k := first;
      outcome := Done(|data|);
      while k != last
        invariant first <= k <= last && dev.Valid() && outcome == Done(|data|)
        invariant Passed(disk0, free0, v0, dev.disk, freemap, v, offset, data, k, 0) &&
          Buffered(v, dev.disk, dev.iobuffer, io0, at, k)
      {
        var n := k + 1;
        outcome := WriteNext(data, offset, k, n, last, at, disk0, free0, v0, io0);
        if !outcome.Done? {
          return;
        }
        k := n;
      }
    }

    /** Block k of those. */
    method WriteNext(data: seq<int>, offset: nat, k: nat, ghost n: nat, ghost last: nat, ghost at: nat,
                     ghost disk0: seq<Block>, ghost free0: seq<bool>, ghost v0: Vinode, ghost io0: Block)
      returns (outcome: Outcome)
      requires dev.Valid() && dev.cells == BLKSIZE && at <= k < last && last * BLKSIZE <= offset + |data| && n == k + 1
      requires Passed(disk0, free0, v0, dev.disk, freemap, v, offset, data, k, 0) &&
        Buffered(v, dev.disk, dev.iobuffer, io0, at, k)
      modifies dev, this`freemap, this`v
      ensures OthersKept(disk0, free0, v0, dev.disk, freemap, v)
      ensures outcome == Done(|data|) || outcome.NoSpace? || outcome.Overrun?
      ensures outcome.Done? ==>
        dev.Valid() && Passed(disk0, free0, v0, dev.disk, freemap, v, offset, data, n, 0) &&
          Buffered(v, dev.disk, dev.iobuffer, io0, at, n)
      ensures outcome.NoSpace? ==> Lacks(free0, v0, last)
      ensures outcome.Overrun? ==> !Lacks(free0, v0, last) && last > DIRECT_BLKNUM
    {
      outcome := WriteFromStart(data, offset, k, BLKSIZE, at, disk0, free0, v0, io0);
    }

    /**
     rfs_read: the slice of the file the request covers, cut at the file's end and then at the first NUL,
     because it leaves the kernel by strcpy.  The first block is always fetched, even for zero bytes.
     */
    method Read(len: nat, offset: nat) returns (outcome: Outcome, text: seq<int>)
      requires Valid()
      modifies dev`iobuffer
      ensures Valid()
      ensures outcome.BadOffset? <==> v.size < offset
      ensures outcome.Overrun? <==> offset == v.size == DIRECT_BLKNUM * BLKSIZE
      ensures outcome.Killed? <==>
        offset == v.size && offset % BLKSIZE == 0 && v.blocks < DIRECT_BLKNUM &&
        !(0 <= v.addrs[v.blocks] < RAMDISK_BLOCK_COUNT)
      ensures !outcome.NoSpace?
      ensures outcome.Done? ==> outcome.n <= len && offset + outcome.n <= v.size
      ensures outcome.Done? ==> outcome.n == len || offset + outcome.n == v.size
      ensures outcome.Done? ==> text == CString(Bytes(dev.disk, v, offset, offset + outcome.n))
    {
      text := [];
      if v.size < offset {
        return BadOffset, text;
      }
      var n := if v.size < offset + len then v.size - offset else len;
      var at, align := offset / BLKSIZE, offset % BLKSIZE;
      var times, remain := (n + align) / BLKSIZE, (n + align) % BLKSIZE;
      if at >= DIRECT_BLKNUM {
        return Overrun, text;
      }
      var alive, buffer := ReadBlocks(offset, n, at, align, times, remain);
      if !alive {
        return Killed, text;
      }
      return Done(n), CString(buffer);
    }

    method ReadBlocks(offset: nat, n: nat, at: nat, align: nat, times: nat, remain: nat) returns (alive: bool,
      buffer: seq<int>)
      requires Linked() && at * BLKSIZE + align == offset && times * BLKSIZE + remain == n + align &&
        remain < BLKSIZE && align < BLKSIZE
      requires at < DIRECT_BLKNUM && offset + n <= v.blocks * BLKSIZE
      modifies dev`iobuffer
      ensures Linked() && (alive <==> 0 <= v.addrs[at] < RAMDISK_BLOCK_COUNT)
      ensures alive ==> buffer == Bytes(dev.disk, v, offset, offset + n)
    {
      buffer := [];
      alive := dev.Read(v.addrs[at]);
      if alive {
        buffer := dev.iobuffer[align..align + if times == 0 then n else BLKSIZE - align];
        if n > 0 {
          FetchedHead(dev.disk, freemap, v, at, align, |buffer|);
        }
        if times > 0 {
          buffer := ReadRest(buffer, offset, at + 1, at + times, remain);
        }
      }
    }

    /** Whole blocks from `first` to `last`, then `remain` bytes. */
    method ReadRest(head: seq<int>, offset: nat, first: nat, last: nat, remain: nat) returns (buffer: seq<int>)
      requires Linked() && offset <= first * BLKSIZE && first <= last <= v.blocks && remain < BLKSIZE &&
        (remain > 0 ==> last < v.blocks)
      requires head == Bytes(dev.disk, v, offset, first * BLKSIZE)
      modifies dev`iobuffer
      ensures Linked() && buffer == Bytes(dev.disk, v, offset, last * BLKSIZE + remain)
    {
      buffer := head;
      var k := first;
      while k != last
        invariant Linked() && first <= k <= last
        invariant buffer == Bytes(dev.disk, v, offset, k * BLKSIZE)
      {
        var alive := dev.Read(v.addrs[k]);
        Fetched(dev.disk, freemap, v, offset, k, BLKSIZE);
        buffer := buffer + dev.iobuffer[..BLKSIZE];
        k := k + 1;
      }
      if remain > 0 {
        var alive := dev.Read(v.addrs[k]);
        Fetched(dev.disk, freemap, v, offset, k, remain);
        buffer := buffer + dev.iobuffer[..remain];
      }
    }
  }

  /** What strcpy copies: everything before the first NUL. */
  function CString(s: seq<int>): (r: seq<int>)
    ensures 0 !in r && r <= s && (|r| < |s| ==> s[|r|] == 0)
  {
    if s == [] || s[0] == 0 then [] else [s[0]] + CString(s[1..])
  }

  lemma FetchedHead(disk: seq<Block>, freemap: seq<bool>, v: Vinode, k: nat, align: nat, m: nat)
    requires DiskOk(disk) && Shape(v, freemap) && k < v.blocks && align + m <= BLKSIZE
    ensures disk[v.addrs[k]][align..align + m] == Bytes(disk, v, k * BLKSIZE + align, k * BLKSIZE + align + m)
  {
    var r := Bytes(disk, v, k * BLKSIZE + align, k * BLKSIZE + align + m);
    forall i | 0 <= i < m
      ensures r[i] == disk[v.addrs[k]][align..align + m][i]
    {
      var p := k * BLKSIZE + align + i;
      assert r[p - (k * BLKSIZE + align)] == ByteAt(disk, v, p) && p / BLKSIZE == k;
    }
  }

  lemma Fetched(disk: seq<Block>, freemap: seq<bool>, v: Vinode, offset: nat, k: nat, m: nat)
    requires DiskOk(disk) && Shape(v, freemap) && k < v.blocks && m <= BLKSIZE && offset <= k * BLKSIZE
    ensures Bytes(disk, v, offset, k * BLKSIZE + m) == Bytes(disk, v, offset, k * BLKSIZE) + disk[v.addrs[k]][..m]
  {
    FetchedHead(disk, freemap, v, k, 0, m);
    BytesSplit(disk, v, offset, k * BLKSIZE, k * BLKSIZE + m);
  }

  lemma BytesSplit(disk: seq<Block>, v: Vinode, from: nat, mid: nat, to: nat)
    requires from <= mid <= to
    ensures Bytes(disk, v, from, to) == Bytes(disk, v, from, mid) + Bytes(disk, v, mid, to)
  {
    var r, a, b := Bytes(disk, v, from, to), Bytes(disk, v, from, mid), Bytes(disk, v, mid, to);
    forall i | 0 <= i < to - from
      ensures r[i] == (a + b)[i]
    {
      var p := from + i;
      assert r[p - from] == ByteAt(disk, v, p);
      if p < mid {
        assert a[p - from] == ByteAt(disk, v, p);
      } else {
        assert b[p - mid] == ByteAt(disk, v, p);
      }
    }
  }

  lemma LacksMore(free0: seq<bool>, v0: Vinode, n: nat)
    ensures Lacks(free0, v0, n) ==> Lacks(free0, v0, n + 1)
    ensures n >= MOST_BLOCKS ==> (Lacks(free0, v0, n) <==> Lacks(free0, v0, n + 1))
  {
  }

  /** The blocks of a file that ends r bytes into block k. */
  function Needed(k: nat, r: nat): nat {
    if r > 0 then k + 1 else k
  }

  function Max(a: nat, b: nat): nat {
    if a < b then b else a
  }

  /** The I/O buffer when a write that began in block `at` is about to write block k. */
  ghost predicate Buffered(v: Vinode, disk: seq<Block>, io: Block, io0: Block, at: nat, k: nat) {
    if k > at then k <= |v.addrs| && 0 <= v.addrs[k - 1] < |disk| && io == disk[v.addrs[k - 1]] else io == io0
  }

  /** A write that has passed k blocks and m bytes more. */
  ghost predicate Passed(disk0: seq<Block>, free0: seq<bool>, v0: Vinode, disk: seq<Block>, freemap: seq<bool>,
                         v: Vinode, offset: nat, data: seq<int>, k: nat, m: nat) {
    && Shape(v, freemap) && v.size == v0.size && v.blocks == Max(v0.blocks, Needed(k, m)) &&
      Balanced(free0, v0, freemap, v)
    && Wrote(disk0, free0, v0, disk, freemap, v, offset, data, k * BLKSIZE + m)
  }

  lemma PassedOn(disk0: seq<Block>, free0: seq<bool>, v0: Vinode, disk1: seq<Block>, free1: seq<bool>, v1: Vinode,
                 disk: seq<Block>, freemap: seq<bool>, v: Vinode,
                 offset: nat, data: seq<int>, k: nat, m: nat, x: Block)
    requires Passed(disk0, free0, v0, disk1, free1, v1, offset, data, k, 0) &&
      OthersKept(disk1, free1, v1, disk1, freemap, v)
    requires Balanced(free1, v1, freemap, v)
    requires DiskOk(disk1) && Shape(v, freemap) && k < v.blocks && v.size == v1.size &&
      v.blocks == if k == v1.blocks then k + 1 else v1.blocks
    requires 0 < m <= BLKSIZE && k * BLKSIZE - offset + m <= |data| && |x| == BLKSIZE
    requires x[..m] == data[k * BLKSIZE - offset..k * BLKSIZE - offset + m] && disk == disk1[v.addrs[k] := x]
    ensures if m == BLKSIZE then Passed(disk0, free0, v0, disk, freemap, v, offset, data, k + 1, 0)
      else Passed(disk0, free0, v0, disk, freemap, v, offset, data, k, m)
  {
    EnsuredWrote(disk0, free0, v0, disk1, free1, v1, freemap, v, offset, data, k * BLKSIZE);
    StartWritten(disk0, free0, v0, disk1, disk, freemap, v, offset, data, k, m, x);
  }

  lemma StaleKept(v1: Vinode, disk1: seq<Block>, io1: Block, io0: Block, at: nat, k: nat, m: nat, v: Vinode,
                  disk: seq<Block>, io: Block)
    requires at <= k && Buffered(v1, disk1, io1, io0, at, k) && |io1| == |io| == BLKSIZE && m <= BLKSIZE &&
      io[m..] == io1[m..]
    requires k < |v.addrs| == |v1.addrs| && 0 <= v.addrs[k] < |disk| == |disk1| && disk == disk1[v.addrs[k] := io]
    requires k > 0 ==> v.addrs[k - 1] == v1.addrs[k - 1] && v.addrs[k - 1] != v.addrs[k]
    ensures Buffered(v, disk, io, io0, at, k + 1)
    ensures StaleTail(v, disk, io0, at, k, m)
  {
  }

  /** A last block that was never read holds, behind the r new bytes, what the I/O buffer held before. */
  ghost predicate StaleTail(v: Vinode, disk: seq<Block>, io0: Block, at: nat, last: nat, r: nat) {
    && last < |v.addrs| && 0 <= v.addrs[last] < |disk| && r <= |disk[v.addrs[last]]|
    && (if last > at
        then 0 <= v.addrs[last - 1] < |disk| && r <= |disk[v.addrs[last - 1]]| &&
          disk[v.addrs[last]][r..] == disk[v.addrs[last - 1]][r..]
        else r <= |io0| && disk[v.addrs[last]][r..] == io0[r..])
  }

  /** A write that starts inside the block it ends in has read that block, so the rest of it stays. */
  predicate ReadsItsLastBlock(offset: nat, end: nat) {
    offset % BLKSIZE != 0 && offset / BLKSIZE == end / BLKSIZE
  }

  ghost predicate TailIs(disk0: seq<Block>, v0: Vinode, io0: Block, disk: seq<Block>, v: Vinode, offset: nat,
                         end: nat) {
    if end % BLKSIZE == 0 then true
    else if ReadsItsLastBlock(offset, end) then KeptFrom(disk0, v0, disk, v, end, v0.blocks * BLKSIZE)
    else StaleTail(v, disk, io0, offset / BLKSIZE, end / BLKSIZE, end % BLKSIZE)
  }

  /** All that the block writes of a completed rfs_write have done; the size is still the old one. */
  ghost predicate Written(disk0: seq<Block>, free0: seq<bool>, v0: Vinode, io0: Block, disk: seq<Block>,
                          freemap: seq<bool>, v: Vinode, offset: nat, data: seq<int>) {
    && Shape(v, freemap) && v.size == v0.size && v.blocks == Max(v0.blocks, Ceil(offset + |data|)) &&
      Balanced(free0, v0, freemap, v)
    && Wrote(disk0, free0, v0, disk, freemap, v, offset, data, offset + |data|)
    && TailIs(disk0, v0, io0, disk, v, offset, offset + |data|)
  }

  lemma StaleIsTail(disk0: seq<Block>, free0: seq<bool>, v0: Vinode, io0: Block, disk: seq<Block>, freemap: seq<bool>,
                    v: Vinode, offset: nat, data: seq<int>,
                    at: nat, align: nat, times: nat, remain: nat)
    requires at * BLKSIZE + align == offset && times * BLKSIZE + remain == |data| + align && remain < BLKSIZE &&
      align < BLKSIZE
    requires (align == 0 || times > 0) && (remain > 0 ==> StaleTail(v, disk, io0, at, at + times, remain))
    requires Passed(disk0, free0, v0, disk, freemap, v, offset, data, at + times, remain)
    ensures Written(disk0, free0, v0, io0, disk, freemap, v, offset, data)
  {
    assert (offset + |data|) / BLKSIZE == at + times && (offset + |data|) % BLKSIZE == remain;
    assert offset / BLKSIZE == at && offset % BLKSIZE == align;
  }

  lemma EndOfWrite(offset: nat, len: nat)
    ensures var times, remain := (len + offset % BLKSIZE) / BLKSIZE, (len + offset % BLKSIZE) % BLKSIZE;
      && (offset + len) / BLKSIZE == offset / BLKSIZE + times && (offset + len) % BLKSIZE == remain
      && Ceil(offset + len) == offset / BLKSIZE + times + (if remain > 0 then 1 else 0)
      && (ReadsItsLastBlock(offset, offset + len) <==> offset % BLKSIZE != 0 && times == 0)
      && offset + len == (offset / BLKSIZE + times) * BLKSIZE + remain
  {
  }

  lemma WroteNothing(disk: seq<Block>, freemap: seq<bool>, v: Vinode, offset: nat, data: seq<int>)
    requires DiskOk(disk) && Shape(v, freemap) && offset <= v.blocks * BLKSIZE
    ensures Wrote(disk, freemap, v, disk, freemap, v, offset, data, offset)
  {
  }

  /** Setting the size at the end of a write disturbs nothing. */
  lemma Resized(disk0: seq<Block>, free0: seq<bool>, v0: Vinode, io0: Block, disk: seq<Block>, freemap: seq<bool>,
                v: Vinode, offset: nat, data: seq<int>, n: nat)
    requires Written(disk0, free0, v0, io0, disk, freemap, v, offset, data)
    ensures var v' := v.(size := n);
      && Shape(v', freemap) && OthersKept(disk0, free0, v0, disk, freemap, v')
      && Bytes(disk, v', 0, offset + |data|) == Bytes(disk0, v0, 0, offset) + data
      && (forall b :: Ceil(offset + |data|) <= b < v0.blocks ==> SameBlock(disk0, v0, disk, v', b))
      && TailIs(disk0, v0, io0, disk, v', offset, offset + |data|)
  {
    var v', e := v.(size := n), offset + |data|;
    forall p: nat
      ensures ByteAt(disk, v', p) == ByteAt(disk, v, p)
    {
    }
    WroteBytes(disk0, v0, disk, v', offset, data);
    forall b | Ceil(e) <= b < v0.blocks
      ensures SameBlock(disk0, v0, disk, v', b)
    {
      assert SameBlock(disk0, v0, disk, v, b);
    }
    OwnedResized(v, n);
  }

  lemma OwnedResized(v: Vinode, n: nat)
    ensures forall a :: Owned(v.(size := n), a) <==> Owned(v, a)
  {
    var v' := v.(size := n);
    forall a
      ensures Owned(v', a) <==> Owned(v, a)
    {
      assert forall i :: 0 <= i < |v.addrs| ==> v'.addrs[i] == v.addrs[i];
    }
  }

  lemma WroteBytes(disk0: seq<Block>, v0: Vinode, disk: seq<Block>, v: Vinode, offset: nat, data: seq<int>)
    requires forall p :: 0 <= p < offset ==> ByteAt(disk, v, p) == ByteAt(disk0, v0, p)
    requires forall p :: offset <= p < offset + |data| ==> ByteAt(disk, v, p) == data[p - offset]
    ensures Bytes(disk, v, 0, offset + |data|) == Bytes(disk0, v0, 0, offset) + data
  {
    var r, b := Bytes(disk, v, 0, offset + |data|), Bytes(disk0, v0, 0, offset);
    forall p | 0 <= p < offset + |data|
      ensures r[p] == (b + data)[p]
    {
      assert r[p - 0] == ByteAt(disk, v, p);
      if p < offset {
        assert b[p - 0] == ByteAt(disk0, v0, p);
      }
    }
  }

  /** The state of a write that has reached position q: nothing below offset and no block from q on has changed. */
  ghost predicate Wrote(disk0: seq<Block>, free0: seq<bool>, v0: Vinode, disk: seq<Block>, freemap: seq<bool>,
                        v: Vinode, offset: nat, data: seq<int>, q: nat) {
    && OthersKept(disk0, free0, v0, disk, freemap, v)
    && offset <= q <= offset + |data| && q <= v.blocks * BLKSIZE
    && (forall p :: 0 <= p < offset ==> ByteAt(disk, v, p) == ByteAt(disk0, v0, p))
    && (forall p :: offset <= p < q ==> ByteAt(disk, v, p) == data[p - offset])
    && (forall b :: 0 <= b < v0.blocks && b * BLKSIZE >= q ==> SameBlock(disk0, v0, disk, v, b))
  }

  ghost predicate SameBlock(disk0: seq<Block>, v0: Vinode, disk: seq<Block>, v: Vinode, b: nat) {
    b < |v.addrs| && b < |v0.addrs| && v.addrs[b] == v0.addrs[b] && 0 <= v.addrs[b] < |disk| && v.addrs[b] < |disk0| &&
      disk[v.addrs[b]] == disk0[v0.addrs[b]]
  }

  ghost predicate KeptFrom(disk0: seq<Block>, v0: Vinode, disk: seq<Block>, v: Vinode, from: nat, to: nat) {
    forall p :: from <= p < to ==> ByteAt(disk, v, p) == ByteAt(disk0, v0, p)
  }

  ghost predicate DiskOk(disk: seq<Block>) {
    |disk| == RAMDISK_BLOCK_COUNT && forall b :: 0 <= b < |disk| ==> |disk[b]| == BLKSIZE
  }

  /** Writing one block changes the bytes of that block only. */
  lemma OneBlock(disk: seq<Block>, freemap: seq<bool>, v: Vinode, k: nat, x: Block, p: nat)
    requires DiskOk(disk) && Shape(v, freemap) && k < v.blocks && |x| == BLKSIZE && p < v.blocks * BLKSIZE
    ensures ByteAt(disk[v.addrs[k] := x], v, p) == if p / BLKSIZE == k then x[p % BLKSIZE] else ByteAt(disk, v, p)
  {
    assert p / BLKSIZE < v.blocks;
  }

  lemma HeadWritten(disk: seq<Block>, disk': seq<Block>, freemap: seq<bool>, v: Vinode, offset: nat, data: seq<int>,
                    k: nat, align: nat, m: nat)
    requires DiskOk(disk) && Shape(v, freemap) && k < v.blocks && m <= |data| && 0 < align && align + m <= BLKSIZE &&
      offset == k * BLKSIZE + align
    requires var was := disk[v.addrs[k]];
      disk' == disk[v.addrs[k] := was[..align] + data[..m] + was[align + m..]]
    ensures Wrote(disk, freemap, v, disk', freemap, v, offset, data, offset + m)
    ensures KeptFrom(disk, v, disk', v, offset + m, v.blocks * BLKSIZE)
  {
    var x := disk[v.addrs[k]][..align] + data[..m] + disk[v.addrs[k]][align + m..];
    forall p | 0 <= p < v.blocks * BLKSIZE
      ensures ByteAt(disk', v, p) == if offset <= p < offset + m then data[p - offset] else ByteAt(disk, v, p)
    {
      OneBlock(disk, freemap, v, k, x, p);
    }
    assert Owned(v, v.addrs[k]);
    forall b | 0 <= b < v.blocks && b * BLKSIZE >= offset + m
      ensures SameBlock(disk, v, disk', v, b)
    {
      assert b != k;
    }
  }

  lemma EnsuredWrote(disk0: seq<Block>, free0: seq<bool>, v0: Vinode, disk: seq<Block>, free1: seq<bool>, v1: Vinode,
                     freemap: seq<bool>, v: Vinode, offset: nat, data: seq<int>, q: nat)
    requires Wrote(disk0, free0, v0, disk, free1, v1, offset, data, q) && OthersKept(disk, free1, v1, disk, freemap, v)
    requires Shape(v1, free1) && Shape(v, freemap)
    ensures Wrote(disk0, free0, v0, disk, freemap, v, offset, data, q)
  {
    forall p | 0 <= p < q
      ensures ByteAt(disk, v, p) == ByteAt(disk, v1, p)
    {
      assert p / BLKSIZE < v1.blocks;
    }
    forall b | 0 <= b < v0.blocks && b * BLKSIZE >= q
      ensures SameBlock(disk0, v0, disk, v, b)
    {
      assert SameBlock(disk0, v0, disk, v1, b) && v.addrs[b] == v1.addrs[b];
    }
    OthersTrans(disk0, free0, v0, disk, free1, v1, disk, freemap, v);
  }

  lemma StartWritten(disk0: seq<Block>, free0: seq<bool>, v0: Vinode, disk: seq<Block>, disk': seq<Block>,
                     freemap: seq<bool>, v: Vinode, offset: nat, data: seq<int>, k: nat, m: nat, x: Block)
    requires Wrote(disk0, free0, v0, disk, freemap, v, offset, data, k * BLKSIZE) && DiskOk(disk) && Shape(v, freemap)
    requires k < v.blocks && m <= BLKSIZE && k * BLKSIZE - offset + m <= |data| && |x| == BLKSIZE
    requires x[..m] == data[k * BLKSIZE - offset..k * BLKSIZE - offset + m] && disk' == disk[v.addrs[k] := x]
    requires 0 < m
    ensures Wrote(disk0, free0, v0, disk', freemap, v, offset, data, k * BLKSIZE + m)
  {
    var q := k * BLKSIZE;
    forall p | 0 <= p < q + m
      ensures ByteAt(disk', v, p) == if p < q then ByteAt(disk, v, p) else data[p - offset]
    {
      OneBlock(disk, freemap, v, k, x, p);
      if p >= q {
        assert x[p - q] == x[..m][p - q];
      }
    }
    assert Owned(v, v.addrs[k]);
    forall b | 0 <= b < v0.blocks && b * BLKSIZE >= q + m
      ensures SameBlock(disk0, v0, disk', v, b)
    {
      assert SameBlock(disk0, v0, disk, v, b) && b != k;
    }
  }

  /**
   The byte a completed write leaves at a position behind its data, in the last block it wrote: the old one
   if the write filled or had read that block, else the byte one block earlier in this same write, or a
   byte of the I/O buffer from before it.
   */
  function ByteBehind(disk0: seq<Block>, v0: Vinode, io0: Block, offset: nat, data: seq<int>, p: nat): int
    requires |io0| == BLKSIZE && offset + |data| <= p
  {
    var e := offset + |data|;
    if e % BLKSIZE == 0 || ReadsItsLastBlock(offset, e) then ByteAt(disk0, v0, p)
    else if e / BLKSIZE == offset / BLKSIZE then io0[p % BLKSIZE]
    else if p - BLKSIZE < offset then (if p >= BLKSIZE then ByteAt(disk0, v0, p - BLKSIZE) else 0)
    else if p - BLKSIZE < e then data[p - BLKSIZE - offset] else 0
  }

  /** For every completed write: a byte behind the data, in the last block, survives exactly when ByteBehind says so. */
  lemma TailByte(disk0: seq<Block>, v0: Vinode, io0: Block, disk: seq<Block>, v: Vinode, offset: nat, data: seq<int>,
                 p: nat)
    requires DiskOk(disk0) && DiskOk(disk) && |io0| == BLKSIZE && |v.addrs| == |v0.addrs| == DIRECT_BLKNUM
    requires Bytes(disk, v, 0, offset + |data|) == Bytes(disk0, v0, 0, offset) + data
    requires TailIs(disk0, v0, io0, disk, v, offset, offset + |data|)
    requires offset + |data| <= p < Ceil(offset + |data|) * BLKSIZE && p < v0.blocks * BLKSIZE
    ensures ByteAt(disk, v, p) == ByteBehind(disk0, v0, io0, offset, data, p)
  {
    var e := offset + |data|;
    assert p / BLKSIZE == e / BLKSIZE && e % BLKSIZE <= p % BLKSIZE;
    if e % BLKSIZE != 0 && !ReadsItsLastBlock(offset, e) {
      BehindInBlock(disk, v, io0, offset / BLKSIZE, e / BLKSIZE, e % BLKSIZE, p);
      if e / BLKSIZE > offset / BLKSIZE {
        AmongWritten(disk0, v0, disk, v, offset, data, p - BLKSIZE);
      }
    }
  }

  /** A stale byte is the one a block earlier, or the I/O buffer's. */
  lemma BehindInBlock(disk: seq<Block>, v: Vinode, io0: Block, at: nat, last: nat, r: nat, p: nat)
    requires DiskOk(disk) && |io0| == BLKSIZE && |v.addrs| == DIRECT_BLKNUM && StaleTail(v, disk, io0, at, last, r)
    requires p / BLKSIZE == last && r <= p % BLKSIZE
    ensures last > at ==> p >= BLKSIZE && ByteAt(disk, v, p) == ByteAt(disk, v, p - BLKSIZE)
    ensures last <= at ==> ByteAt(disk, v, p) == io0[p % BLKSIZE]
  {
    var i := p % BLKSIZE - r;
    if last > at {
      var q := p - BLKSIZE;
      assert q / BLKSIZE == last - 1 && q % BLKSIZE == p % BLKSIZE;
      assert disk[v.addrs[last]][r..][i] == disk[v.addrs[last - 1]][r..][i];
    } else {
      assert disk[v.addrs[last]][r..][i] == io0[r..][i];
    }
  }

  lemma AmongWritten(disk0: seq<Block>, v0: Vinode, disk: seq<Block>, v: Vinode, offset: nat, data: seq<int>, q: nat)
    requires Bytes(disk, v, 0, offset + |data|) == Bytes(disk0, v0, 0, offset) + data && q < offset + |data|
    ensures ByteAt(disk, v, q) == if q < offset then ByteAt(disk0, v0, q) else data[q - offset]
  {
    assert Bytes(disk, v, 0, offset + |data|)[q - 0] == ByteAt(disk, v, q);
    if q < offset {
      assert Bytes(disk0, v0, 0, offset)[q - 0] == ByteAt(disk0, v0, q);
    }
  }

  function Filled(x: int): (b: Block)
    ensures |b| == BLKSIZE && forall i :: 0 <= i < BLKSIZE ==> b[i] == x
  {
    seq(BLKSIZE, i => x)
  }

  /** One byte written at the start of a full block of ones, with zeroes in the I/O buffer, zeroes the rest. */
  method LostTail(x: int) returns (f: File)
    ensures fresh(f) && f.Valid() && f.v.size == BLKSIZE && ByteAt(f.dev.disk, f.v, 0) == x
    ensures forall p :: 1 <= p < BLKSIZE ==> ByteAt(f.dev.disk, f.v, p) == 0
  {
    f := FullOfOnes();
    ghost var disk0, v0 := f.dev.disk, f.v;
    var outcome := f.Write([x], 0);
    assert Bytes(f.dev.disk, f.v, 0, 1)[0] == x;
    forall p | 1 <= p < BLKSIZE
      ensures ByteAt(f.dev.disk, f.v, p) == 0
    {
      TailByte(disk0, v0, Filled(0), f.dev.disk, f.v, 0, [x], p);
      assert p / BLKSIZE == 0 && p % BLKSIZE == p;
    }
  }

  /** A file of one block, every byte a one. */
  method FullOfOnes() returns (f: File)
    ensures fresh(f) && fresh(f.dev) && f.Valid() && f.dev.iobuffer == Filled(0)
    ensures f.v == Vinode(BLKSIZE, 1, seq(DIRECT_BLKNUM, _ => OFFSET_FREE)) && f.dev.disk[OFFSET_FREE] == Filled(1)
  {
    var dev := new Device<int>(BLKSIZE, seq(RAMDISK_BLOCK_COUNT, _ => Filled(1)), Filled(0));
    var freemap := seq(NBLOCKS, i => i == 0);
    f := new File(dev, freemap, Vinode(BLKSIZE, 1, seq(DIRECT_BLKNUM, _ => OFFSET_FREE)));
  }

  lemma DataBack(disk: seq<Block>, v: Vinode, offset: nat, before: seq<int>, data: seq<int>)
    requires |before| == offset && Bytes(disk, v, 0, offset + |data|) == before + data
    ensures Bytes(disk, v, offset, offset + |data|) == data
  {
    BytesSplit(disk, v, 0, offset, offset + |data|);
    assert data == (before + data)[offset..];
  }

  /** A completed write is read back whole exactly when it holds no NUL. */
  method WriteThenRead(f: File, data: seq<int>, offset: nat) returns (wrote: bool, text: seq<int>)
    requires f.Valid() && |data| > 0
    modifies f, f.dev
    ensures wrote ==> f.Valid() && text == CString(data) && (text == data <==> 0 !in data)
  {
    text := [];
    var w := f.Write(data, offset);
    wrote := w.Done?;
    if wrote {
      ghost var before := old(Bytes(f.dev.disk, f.v, 0, offset));
      var r;
      r, text := f.Read(|data|, offset);
      DataBack(f.dev.disk, f.v, offset, before, data);
    }
  }

  /**
   A request that asks for more than was written gets the data and what follows them, to the end of the file; after a
   write that reaches the end of the file, the data alone.
   */
  method WriteThenReadOn(f: File, data: seq<int>, offset: nat, len: nat)
    returns (wrote: bool, text: seq<int>, ghost more: seq<int>)
    requires f.Valid() && |data| > 0 && len >= |data|
    modifies f, f.dev
    ensures wrote ==> f.Valid() && f.v.size >= offset + |data| && text == CString(data + more)
    ensures wrote ==>
      more == Bytes(f.dev.disk, f.v, offset + |data|, if offset + len < f.v.size then offset + len else f.v.size)
    ensures wrote && old(f.v.size) <= offset + |data| ==> more == [] && text == CString(data)
  {
    text, more := [], [];
    wrote := PutData(f, data, offset);
    if wrote {
      ghost var end := if offset + len < f.v.size then offset + len else f.v.size;
      more := Bytes(f.dev.disk, f.v, offset + |data|, end);
      BytesSplit(f.dev.disk, f.v, offset, offset + |data|, end);
      text := ReadTo(f, offset, len, end, data + more);
      assert more == [] ==> data + more == data;
    }
  }

  /** A write, and where the data are if it is completed. */
  method PutData(f: File, data: seq<int>, offset: nat) returns (wrote: bool)
    requires f.Valid()
    modifies f, f.dev
    ensures wrote ==> f.Valid() && Bytes(f.dev.disk, f.v, offset, offset + |data|) == data
    ensures wrote ==> f.v.size == if old(f.v.size) < offset + |data| then offset + |data| else old(f.v.size)
  {
    var w := f.Write(data, offset);
    wrote := w.Done?;
    if wrote {
      DataBack(f.dev.disk, f.v, offset, old(Bytes(f.dev.disk, f.v, 0, offset)), data);
    }
  }

  method ReadTo(f: File, offset: nat, len: nat, ghost end: nat, ghost all: seq<int>) returns (text: seq<int>)
    requires f.Valid() && offset < f.v.size && len > 0
    requires end == if offset + len < f.v.size then offset + len else f.v.size
    requires all == Bytes(f.dev.disk, f.v, offset, end)
    modifies f.dev`iobuffer
    ensures f.Valid() && text == CString(all)
  {
    var r;
    r, text := f.Read(len, offset);
    assert r.Done? && offset + r.n == end;
  }

  lemma OthersTrans(disk0: seq<Block>, free0: seq<bool>, v0: Vinode, disk1: seq<Block>, free1: seq<bool>, v1: Vinode,
                    disk2: seq<Block>, free2: seq<bool>, v2: Vinode)
    requires OthersKept(disk0, free0, v0, disk1, free1, v1) && OthersKept(disk1, free1, v1, disk2, free2, v2)
    ensures OthersKept(disk0, free0, v0, disk2, free2, v2)
  {
    forall a | Owned(v1, a)
      ensures Owned(v2, a)
    {
      var i :| 0 <= i < v1.blocks && i < |v1.addrs| && v1.addrs[i] == a;
      assert v2.addrs[i] == a;
    }
  }

  /** sys_user_write: the request is cut at page boundaries of the user buffer, the file ends up as after one write. */
  method SysWrite(f: File, data: seq<int>, bufva: nat, offset: nat) returns (outcome: Outcome)
    requires f.Valid()
    modifies f, f.dev
    ensures !outcome.Killed?
    ensures outcome.BadOffset? <==> |data| > 0 && old(f.v).size < offset
    ensures outcome.Done? ==> f.Valid() && outcome.n == |data|
    ensures outcome.Done? && |data| > 0 ==> f.v.size == Max(old(f.v).size, offset + |data|)
    ensures outcome.Done? ==>
      Bytes(f.dev.disk, f.v, 0, offset + |data|) == old(Bytes(f.dev.disk, f.v, 0, offset)) + data
    ensures outcome.Done? ==> forall b ::
      Ceil(offset + |data|) <= b < old(f.v).blocks ==> SameBlock(old(f.dev.disk), old(f.v), f.dev.disk, f.v, b)
    ensures outcome.Done? ==> OthersKept(old(f.dev.disk), old(f.freemap), old(f.v), f.dev.disk, f.freemap, f.v)
  {
    var i := 0;
    ghost var disk0, free0, v0 := f.dev.disk, f.freemap, f.v;
    while i < |data|
      invariant f.Valid() && i <= |data| && (i == 0 ==> f.v == v0)
      invariant i > 0 ==> offset <= v0.size && f.v.size == Max(v0.size, offset + i)
      invariant SoFar(disk0, free0, v0, f.dev.disk, f.freemap, f.v, offset, data[..i])
    {
      var len := ChunkLength(bufva + i, |data| - i);
      var n := i + len;
      outcome := WriteChunk(f, data, i, n, offset, disk0, free0, v0);
      if !outcome.Done? {
        return;
      }
      i := n;
    }
    assert data[..i] == data;
    return Done(|data|);
  }

  /** How much of the rest of a request lies on the page of its first byte. */
  function ChunkLength(addr: nat, rest: nat): (len: nat)
    requires rest > 0
    ensures 0 < len <= rest && ((addr + len) % BLKSIZE == 0 || len == rest)
  {
    var off := addr % BLKSIZE;
    if rest < BLKSIZE - off then rest else BLKSIZE - off
  }

  method WriteChunk(f: File, data: seq<int>, i: nat, n: nat, offset: nat, ghost disk0: seq<Block>,
                    ghost free0: seq<bool>, ghost v0: Vinode) returns (outcome: Outcome)
    requires f.Valid() && i <= n <= |data| && SoFar(disk0, free0, v0, f.dev.disk, f.freemap, f.v, offset, data[..i])
    modifies f, f.dev
    ensures !outcome.Killed? && (outcome.BadOffset? <==> old(f.v).size < offset + i)
    ensures outcome.Done? ==> f.Valid() && outcome.n == n - i && f.v.size == Max(old(f.v).size, offset + n)
    ensures outcome.Done? ==> SoFar(disk0, free0, v0, f.dev.disk, f.freemap, f.v, offset, data[..n])
  {
    outcome := f.Write(data[i..n], offset + i);
    if outcome.Done? {
      SoFarStep(disk0, free0, v0, old(f.dev.disk), old(f.freemap), old(f.v), f.dev.disk, f.freemap, f.v, offset,
                data[..i], data[i..n]);
      assert data[..i] + data[i..n] == data[..n];
    }
  }

  /** What one write of `data` would have done. */
  ghost predicate SoFar(disk0: seq<Block>, free0: seq<bool>, v0: Vinode, disk: seq<Block>, freemap: seq<bool>,
                        v: Vinode, offset: nat, data: seq<int>) {
    && Bytes(disk, v, 0, offset + |data|) == Bytes(disk0, v0, 0, offset) + data
    && (forall b :: Ceil(offset + |data|) <= b < v0.blocks ==> SameBlock(disk0, v0, disk, v, b))
    && OthersKept(disk0, free0, v0, disk, freemap, v)
  }

  lemma SoFarStep(disk0: seq<Block>, free0: seq<bool>, v0: Vinode, disk1: seq<Block>, free1: seq<bool>, v1: Vinode,
                  disk2: seq<Block>, free2: seq<bool>, v2: Vinode,
                  offset: nat, done: seq<int>, chunk: seq<int>)
    requires SoFar(disk0, free0, v0, disk1, free1, v1, offset, done) &&
      SoFar(disk1, free1, v1, disk2, free2, v2, offset + |done|, chunk)
    ensures SoFar(disk0, free0, v0, disk2, free2, v2, offset, done + chunk)
  {
    OthersTrans(disk0, free0, v0, disk1, free1, v1, disk2, free2, v2);
    var e := offset + |done| + |chunk|;
    assert Bytes(disk0, v0, 0, offset) + done + chunk == Bytes(disk0, v0, 0, offset) + (done + chunk);
    forall b | Ceil(e) <= b < v0.blocks
      ensures SameBlock(disk0, v0, disk2, v2, b)
    {
      assert SameBlock(disk0, v0, disk1, v1, b) && SameBlock(disk1, v1, disk2, v2, b);
    }
  }
}
