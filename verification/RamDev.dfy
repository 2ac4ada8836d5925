/** The RAM disk of kernel/ramdev.c: numbered blocks behind one shared I/O buffer. */
module RamDev {

  const RAMDISK_BLOCK_COUNT := 128

  /** A block is a sequence of cells: bytes for a file, entries for a directory. */
  class Device<T> {
    const cells: nat           // cells per block
    var disk: seq<seq<T>>
    var iobuffer: seq<T>

    predicate Valid()
      reads this
    {
      && |disk| == RAMDISK_BLOCK_COUNT && |iobuffer| == cells
      && forall b :: 0 <= b < |disk| ==> |disk[b]| == cells
    }

    constructor (cells: nat, disk: seq<seq<T>>, iobuffer: seq<T>)
      requires |disk| == RAMDISK_BLOCK_COUNT && |iobuffer| == cells && forall b ::
        0 <= b < |disk| ==> |disk[b]| == cells
      ensures Valid() && this.cells == cells && this.disk == disk && this.iobuffer == iobuffer
    {
      this.cells, this.disk, this.iobuffer := cells, disk, iobuffer;
    }

    /** ramdisk_read; a block number out of range kills the process. */
    method Read(b: int) returns (alive: bool)
      requires Valid()
      modifies this`iobuffer
      ensures Valid() && (alive <==> 0 <= b < RAMDISK_BLOCK_COUNT)
      ensures iobuffer == if alive then disk[b] else old(iobuffer)
    {
      if b < 0 || b >= RAMDISK_BLOCK_COUNT {
        return false;
      }
      iobuffer := disk[b];
      return true;
    }

    /** ramdisk_write */
    method Write(b: int) returns (alive: bool)
      requires Valid()
      modifies this`disk
      ensures Valid() && (alive <==> 0 <= b < RAMDISK_BLOCK_COUNT)
      ensures disk == if alive then old(disk)[b := iobuffer] else old(disk)
    {
      if b < 0 || b >= RAMDISK_BLOCK_COUNT {
        return false;
      }
      disk := disk[b := iobuffer];
      return true;
    }
  }
}
