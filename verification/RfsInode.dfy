/**
 Disk inodes of kernel/rfs.c as bytes on the RAM disk: 128 bytes each, 32 to a block, in blocks 1 to 10.  What is
 written back when a file is closed is what is read when it is opened again.
 */
module RfsInode {
  import opened RamDev
  import opened RfsFree
  import opened RfsFile

  const INODESIZE := 128
  const PER_BLOCK := 32      // BLKSIZE / INODESIZE
  const OFFSET_INODE := 1    // RFS_BLK_OFFSET_INODE
  const NINODES := 320
  const FIELDS := 14         // size, type, nlinks, blocks and ten addresses

  /** struct rfs_dinode, every field a 32-bit int. */
  datatype Dinode = Dinode(size: int, kind: int, nlinks: int, blocks: int, addrs: seq<int>)

  // ---------------------------------------------------------------- 32-bit ints as bytes

  const WORD32 := 0x1_0000_0000

  predicate Fits(n: int) {
    -0x8000_0000 <= n < 0x8000_0000
  }

  /** The four bytes of an int, lowest first. */
  function Word(n: int): (b: seq<int>)
    ensures |b| == 4 && forall i :: 0 <= i < 4 ==> 0 <= b[i] < 256
  {
    var u := n % WORD32;
    [u % 256, u / 0x100 % 256, u / 0x1_0000 % 256, u / 0x100_0000]
  }

  function Value(b: seq<int>): int
    requires |b| == 4
  {
    var u := b[0] + 0x100 * b[1] + 0x1_0000 * b[2] + 0x100_0000 * b[3];
    if u < 0x8000_0000 then u else u - WORD32
  }

  lemma Digits(u: nat)
    requires u < WORD32
    ensures u == u % 256 + 0x100 * (u / 0x100 % 256) + 0x1_0000 * (u / 0x1_0000 % 256) + 0x100_0000 * (u / 0x100_0000)
  {
    var a, b := u / 0x100, u / 0x1_0000;
    assert a / 256 == b && b / 256 == u / 0x100_0000;
  }

  lemma WordBack(n: int)
    requires Fits(n)
    ensures Value(Word(n)) == n
  {
    Digits(n % WORD32);
  }

  /** The bytes of several ints, one behind the other. */
  function Pack(ws: seq<int>): (b: seq<int>)
    ensures |b| == 4 * |ws|
  {
    if ws == [] then [] else Word(ws[0]) + Pack(ws[1..])
  }

  function Field(b: seq<int>, i: nat): int
    requires 4 * i + 4 <= |b|
  {
    Value(b[4 * i..4 * i + 4])
  }

  lemma {:induction false} PackAt(ws: seq<int>, i: nat)
    requires i < |ws|
    ensures Pack(ws)[4 * i..4 * i + 4] == Word(ws[i])
  {
    if i > 0 {
      PackAt(ws[1..], i - 1);
      assert Pack(ws)[4 * i..4 * i + 4] == Pack(ws[1..])[4 * (i - 1)..4 * (i - 1) + 4];
    }
  }

  // ---------------------------------------------------------------- inodes as bytes

  function Fields(d: Dinode): (ws: seq<int>)
    ensures |ws| == 4 + |d.addrs|
  {
    [d.size, d.kind, d.nlinks, d.blocks] + d.addrs
  }

  function Encode(d: Dinode): (b: seq<int>)
    requires |d.addrs| == DIRECT_BLKNUM
    ensures |b| == 4 * FIELDS
  {
    Pack(Fields(d))
  }

  function Decode(b: seq<int>): (d: Dinode)
    requires |b| == 4 * FIELDS
    ensures |d.addrs| == DIRECT_BLKNUM
  {
    Dinode(Field(b, 0), Field(b, 1), Field(b, 2), Field(b, 3),
           seq(DIRECT_BLKNUM, i requires 0 <= i < DIRECT_BLKNUM => Field(b, 4 + i)))
  }

  /** Every field that fits in 32 bits survives; an address that is garbage need not. */
  lemma FieldBack(d: Dinode, i: nat)
    requires |d.addrs| == DIRECT_BLKNUM && i < FIELDS && Fits(Fields(d)[i])
    ensures Field(Encode(d), i) == Fields(d)[i]
  {
    PackAt(Fields(d), i);
    WordBack(Fields(d)[i]);
  }

  /** The two agree on everything but the addresses from `blocks` on. */
  predicate Same(c: Dinode, d: Dinode) {
    && c.size == d.size && c.kind == d.kind && c.nlinks == d.nlinks && c.blocks == d.blocks
    && |c.addrs| == |d.addrs| == DIRECT_BLKNUM
    && forall i :: 0 <= i < d.blocks && i < DIRECT_BLKNUM ==> c.addrs[i] == d.addrs[i]
  }

  predicate Storable(d: Dinode) {
    && |d.addrs| == DIRECT_BLKNUM && Fits(d.size) && Fits(d.kind) && Fits(d.nlinks) && Fits(d.blocks)
    && forall i :: 0 <= i < d.blocks && i < DIRECT_BLKNUM ==> Fits(d.addrs[i])
  }

  lemma RoundTrip(d: Dinode)
    requires Storable(d)
    ensures Same(Decode(Encode(d)), d)
  {
    FieldBack(d, 0);
    FieldBack(d, 1);
    FieldBack(d, 2);
    FieldBack(d, 3);
    forall i | 0 <= i < d.blocks && i < DIRECT_BLKNUM
      ensures Decode(Encode(d)).addrs[i] == d.addrs[i]
    {
      FieldBack(d, 4 + i);
    }
  }

  // ---------------------------------------------------------------- inodes on the disk

  function BlockOf(i: nat): nat {
    OFFSET_INODE + i / PER_BLOCK
  }

  /** The bytes of inode i. */
  function Stored(disk: seq<Block>, i: nat): (b: seq<int>)
    requires DiskOk(disk) && i < NINODES
    ensures |b| == 4 * FIELDS
  {
    disk[BlockOf(i)][i % PER_BLOCK * INODESIZE..i % PER_BLOCK * INODESIZE + 4 * FIELDS]
  }

  /** A block with bytes b in slot k. */
  function Patched(block: Block, k: nat, b: seq<int>): (r: Block)
    requires |block| == BLKSIZE && k < PER_BLOCK && |b| == 4 * FIELDS
    ensures |r| == BLKSIZE
  {
    block[..k * INODESIZE] + b + block[k * INODESIZE + 4 * FIELDS..]
  }

  lemma PatchedAt(block: Block, k: nat, b: seq<int>, l: nat)
    requires |block| == BLKSIZE && k < PER_BLOCK && l < PER_BLOCK && |b| == 4 * FIELDS
    ensures Patched(block, k, b)[l * INODESIZE..l * INODESIZE + 4 * FIELDS] ==
      if l == k then b else block[l * INODESIZE..l * INODESIZE + 4 * FIELDS]
  {
    var r := Patched(block, k, b);
    if l != k {
      assert l * INODESIZE + 4 * FIELDS <= k * INODESIZE || k * INODESIZE + 4 * FIELDS <= l * INODESIZE;
    }
  }

  /** rfs_read_dinode */
  method ReadDinode(dev: Device<int>, i: nat) returns (d: Dinode)
    requires dev.Valid() && dev.cells == BLKSIZE && i < NINODES
    modifies dev`iobuffer
    ensures dev.Valid() && d == Decode(Stored(dev.disk, i))
  {
    var alive := dev.Read(BlockOf(i));
    d := Decode(dev.iobuffer[i % PER_BLOCK * INODESIZE..i % PER_BLOCK * INODESIZE + 4 * FIELDS]);
  }

  /** rfs_write_dinode: inode i becomes d; no other inode and no block outside the inode area changes. */
  method WriteDinode(dev: Device<int>, d: Dinode, i: nat)
    requires dev.Valid() && dev.cells == BLKSIZE && i < NINODES && |d.addrs| == DIRECT_BLKNUM
    modifies dev
    ensures dev.Valid() && Stored(dev.disk, i) == Encode(d)
    ensures forall j :: 0 <= j < NINODES && j != i ==> Stored(dev.disk, j) == old(Stored(dev.disk, j))
    ensures forall a :: OFFSET_FREE <= a < RAMDISK_BLOCK_COUNT ==> dev.disk[a] == old(dev.disk)[a]
  {
    var alive := dev.Read(BlockOf(i));
    dev.iobuffer := Patched(dev.iobuffer, i % PER_BLOCK, Encode(d));
    alive := dev.Write(BlockOf(i));
    forall j | 0 <= j < NINODES
      ensures Stored(dev.disk, j) == if j == i then Encode(d) else old(Stored(dev.disk, j))
    {
      PatchedAt(old(dev.disk)[BlockOf(i)], i % PER_BLOCK, Encode(d), j % PER_BLOCK);
    }
  }

  // ---------------------------------------------------------------- close and open

  const R_FILE := 0

  /** rfs_write_back_vinode and what it copies. */
  function InodeOf(v: Vinode, nlinks: int): Dinode {
    Dinode(v.size, R_FILE, nlinks, v.blocks, v.addrs)
  }

  lemma FileStorable(f: File, nlinks: int)
    requires f.Valid() && Fits(nlinks)
    ensures Storable(InodeOf(f.v, nlinks))
  {
    assert f.v.size <= DIRECT_BLKNUM * BLKSIZE;
  }

  /** rfs_write_back_vinode: whoever reads the inode next finds this size, these links and these blocks. */
  method WriteBack(dev: Device<int>, v: Vinode, nlinks: int, i: nat)
    requires dev.Valid() && dev.cells == BLKSIZE && i < NINODES && |v.addrs| == DIRECT_BLKNUM
    requires Storable(InodeOf(v, nlinks))
    modifies dev
    ensures dev.Valid() && Stored(dev.disk, i) == Encode(InodeOf(v, nlinks))
    ensures var d := Decode(Stored(dev.disk, i));
      && d.size == v.size && d.kind == R_FILE && d.nlinks == nlinks && d.blocks == v.blocks
      && forall k :: 0 <= k < v.blocks && k < DIRECT_BLKNUM ==> d.addrs[k] == v.addrs[k]
    ensures forall j :: 0 <= j < NINODES && j != i ==> Stored(dev.disk, j) == old(Stored(dev.disk, j))
    ensures forall a :: OFFSET_FREE <= a < RAMDISK_BLOCK_COUNT ==> dev.disk[a] == old(dev.disk)[a]
  {
    WriteDinode(dev, InodeOf(v, nlinks), i);
    RoundTrip(InodeOf(v, nlinks));
  }

  /** rfs_update_vinode on what close wrote back: the file is as it was, whatever the vinode's unused addresses hold. */
  method Reopen(dev: Device<int>, freemap: seq<bool>, i: nat, ghost v: Vinode, ghost nlinks: int)
    returns (g: File, links: int)
    requires dev.Valid() && dev.cells == BLKSIZE && i < NINODES && Shape(v, freemap) && v.blocks == Ceil(v.size)
    requires Fits(nlinks) && Storable(InodeOf(v, nlinks)) && Stored(dev.disk, i) == Encode(InodeOf(v, nlinks))
    modifies dev`iobuffer
    ensures fresh(g) && g.Valid() && g.dev == dev && g.freemap == freemap && g.v.size == v.size && links == nlinks
    ensures forall p :: 0 <= p < v.size ==> ByteAt(dev.disk, g.v, p) == ByteAt(dev.disk, v, p)
  {
    var d := ReadDinode(dev, i);
    RoundTrip(InodeOf(v, nlinks));
    var w := Vinode(d.size, d.blocks, d.addrs);
    g := new File(dev, freemap, w);
    links := d.nlinks;
    forall p | 0 <= p < v.size
      ensures ByteAt(dev.disk, w, p) == ByteAt(dev.disk, v, p)
    {
      assert p / BLKSIZE < v.blocks;
    }
  }

  /** Blocks of a file lie behind the inode area, so writing an inode changes no byte of it. */
  lemma ContentsKept(disk: seq<Block>, disk': seq<Block>, freemap: seq<bool>, v: Vinode, from: nat, to: nat)
    requires DiskOk(disk) && DiskOk(disk') && Shape(v, freemap) && from <= to <= v.blocks * BLKSIZE
    requires forall a :: OFFSET_FREE <= a < RAMDISK_BLOCK_COUNT ==> disk'[a] == disk[a]
    ensures Bytes(disk', v, from, to) == Bytes(disk, v, from, to)
  {
    var r, r' := Bytes(disk, v, from, to), Bytes(disk', v, from, to);
    forall k | 0 <= k < to - from
      ensures r[k] == r'[k]
    {
      var p := from + k;
      assert p / BLKSIZE < v.blocks;
      assert r[p - from] == ByteAt(disk, v, p) && r'[p - from] == ByteAt(disk', v, p);
    }
  }

  lemma SameBytes(disk: seq<Block>, v: Vinode, w: Vinode, from: nat, to: nat)
    requires from <= to && forall p :: 0 <= p < to ==> ByteAt(disk, w, p) == ByteAt(disk, v, p)
    ensures Bytes(disk, w, from, to) == Bytes(disk, v, from, to)
  {
    var r, r' := Bytes(disk, v, from, to), Bytes(disk, w, from, to);
    forall k | 0 <= k < to - from
      ensures r[k] == r'[k]
    {
      var p := from + k;
      assert r[p - from] == ByteAt(disk, v, p) && r'[p - from] == ByteAt(disk, w, p);
    }
  }

  /** Data written before the last close are read back after the next open, up to the first NUL. */
  method WriteCloseOpenRead(f: File, i: nat, nlinks: int, data: seq<int>, offset: nat)
    returns (wrote: bool, g: File, links: int, text: seq<int>)
    requires f.Valid() && i < NINODES && Fits(nlinks) && |data| > 0
    modifies f, f.dev
    ensures wrote ==> g.Valid() && text == CString(data) && (text == data <==> 0 !in data)
    ensures wrote ==> links == nlinks && g.v.size == f.v.size
  {
    g, text, links := f, [], nlinks;
    var w := f.Write(data, offset);
    wrote := w.Done?;
    if wrote {
      DataBack(f.dev.disk, f.v, offset, old(Bytes(f.dev.disk, f.v, 0, offset)), data);
      FileStorable(f, nlinks);
      ghost var disk := f.dev.disk;
      WriteBack(f.dev, f.v, nlinks, i);
      ContentsKept(disk, f.dev.disk, f.freemap, f.v, offset, offset + |data|);
      g, links := Reopen(f.dev, f.freemap, i, f.v, nlinks);
      SameBytes(g.dev.disk, f.v, g.v, offset, offset + |data|);
      var r;
      r, text := g.Read(|data|, offset);
    }
  }
}
