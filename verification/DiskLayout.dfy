/** The layout init_file_system computes (fs/fs.c:203-215, fs/fs.h), in uint32_t arithmetic. */
module DiskLayout {
  const SECTOR_PER_BLOCK: nat := 8
  const BITS_PER_BLOCK: nat := 32768
  const INODES_PER_BLOCK: nat := 64
  const UINT32: nat := 0x1_0000_0000

  datatype SuperBlock = SuperBlock(
    size: nat, inodeBitmapStart: nat, sizeInodeBitmap: nat, blockBitmapStart: nat, sizeBlockBitmap: nat,
    inodeStart: nat, sizeInodeArray: nat, dataStart: nat, nDataBlocks: nat)

  function Layout(sectors: nat): SuperBlock
    requires sectors < UINT32
  {
    var size := sectors / SECTOR_PER_BLOCK;
    var blockBitmapStart := 2 + 1;
    var sizeBlockBitmap := size / BITS_PER_BLOCK + if size % BITS_PER_BLOCK != 0 then 1 else 0;
    var inodeStart := blockBitmapStart + sizeBlockBitmap;
    var sizeInodeArray := BITS_PER_BLOCK / INODES_PER_BLOCK;
    var dataStart := inodeStart + sizeInodeArray;
    SuperBlock(size, 2, 1, blockBitmapStart, sizeBlockBitmap, inodeStart, sizeInodeArray, dataStart,
               (size - dataStart) % UINT32)
  }

  /** INODE_IN_BLOCK. */
  function InodeBlock(s: SuperBlock, i: nat): nat {
    i / INODES_PER_BLOCK + s.inodeStart
  }

  datatype Region = BootBlock | Super | InodeMap | BlockMap | InodeArray | Data

  function First(s: SuperBlock, r: Region): nat {
    match r
    case BootBlock => 0
    case Super => 1
    case InodeMap => s.inodeBitmapStart
    case BlockMap => s.blockBitmapStart
    case InodeArray => s.inodeStart
    case Data => s.dataStart
  }

  function Blocks(s: SuperBlock, r: Region): nat {
    match r
    case BootBlock => 1
    case Super => 1
    case InodeMap => s.sizeInodeBitmap
    case BlockMap => s.sizeBlockBitmap
    case InodeArray => s.sizeInodeArray
    case Data => s.nDataBlocks
  }

  predicate In(s: SuperBlock, r: Region, b: nat) {
    First(s, r) <= b < First(s, r) + Blocks(s, r)
  }

  predicate InSome(s: SuperBlock, b: nat) {
    exists r :: In(s, r, b)
  }

  lemma RegionsApart(sectors: nat, b: nat, q: Region, r: Region)
    requires sectors < UINT32 && In(Layout(sectors), q, b) && In(Layout(sectors), r, b)
    ensures q == r
  {
  }

  lemma RegionsCover(sectors: nat, b: nat)
    requires sectors < UINT32
    ensures var s := Layout(sectors); InSome(s, b) <==> b < s.dataStart || In(s, Data, b)
  {
    var s := Layout(sectors);
    if b < s.dataStart {
      var r := if b == 0 then BootBlock else if b == 1 then Super else if b == 2 then InodeMap else if b < s.inodeStart then BlockMap else InodeArray;
      assert In(s, r, b);
    }
  }

  /** No block lies in two regions; and the blocks of the regions are those of the partition, all of
      them and no others, exactly when the partition is at least as large as the metadata. */
  lemma RegionsTile(sectors: nat)
    requires sectors < UINT32
    ensures var s := Layout(sectors);
            && (forall b: nat, q, r | In(s, q, b) && In(s, r, b) :: q == r)
            && ((forall b: nat :: InSome(s, b) <==> b < s.size) <==> s.dataStart <= s.size)
  {
    var s := Layout(sectors);
    forall b: nat, q, r | In(s, q, b) && In(s, r, b)
      ensures q == r
    {
      RegionsApart(sectors, b, q, r);
    }
    forall b: nat
      ensures InSome(s, b) <==> b < s.dataStart || In(s, Data, b)
    {
      RegionsCover(sectors, b);
    }
    hide Layout, InSome;
    if s.size < s.dataStart {
      assert InSome(s, s.size);
    }
  }

  /** The block map has one bit for every block and no block to spare. */
  lemma BitmapCovers(sectors: nat)
    requires sectors < UINT32
    ensures var s := Layout(sectors);
            s.size <= s.sizeBlockBitmap * BITS_PER_BLOCK < s.size + BITS_PER_BLOCK
  {
  }

  /** For every partition size, the bits of all metadata blocks and of the root directory's block
      lie in the first block of the block map. */
  lemma MetadataInFirstBitmapBlock(sectors: nat)
    requires sectors < UINT32
    ensures Layout(sectors).dataStart < BITS_PER_BLOCK
  {
    assert sectors / SECTOR_PER_BLOCK < UINT32 / SECTOR_PER_BLOCK;
  }

  /** Each inode has its own place, inside the inode array. */
  lemma InodePlaces(sectors: nat, i: nat, j: nat)
    requires sectors < UINT32 && i < BITS_PER_BLOCK && j < BITS_PER_BLOCK
    ensures var s := Layout(sectors);
            && s.inodeStart <= InodeBlock(s, i) < s.dataStart
            && (InodeBlock(s, i) == InodeBlock(s, j) && i % INODES_PER_BLOCK == j % INODES_PER_BLOCK ==> i == j)
  {
  }

  /** Every place of the inode array is that of one inode the inode map has a bit for. */
  lemma InodeArrayFull(sectors: nat, b: nat, o: nat)
    requires sectors < UINT32 && In(Layout(sectors), InodeArray, b) && o < INODES_PER_BLOCK
    ensures var s := Layout(sectors);
            exists i: nat :: i < s.sizeInodeBitmap * BITS_PER_BLOCK && InodeBlock(s, i) == b && i % INODES_PER_BLOCK == o
  {
    var s := Layout(sectors);
    var i := (b - s.inodeStart) * INODES_PER_BLOCK + o;
    assert InodeBlock(s, i) == b;
  }
}
