/**
 The bitmap allocators: alloc_inode, alloc_data_block with its window that
 slides over the blocks of the block map, the two frees, and the bitmaps a
 new file system starts with (fs/fs.c:221-243, 287-338).
 */
module BlockAllocator {
  import opened Wrappers
  import opened FileGrowth
  import opened Bitmap
  import opened DiskLayout

  const WORDS_PER_BLOCK: nat := 1024

  /** The block map, block by block. */
  type Maps = m: seq<Words> | forall k | 0 <= k < |m| :: |m[k]| == WORDS_PER_BLOCK witness []

  predicate Covered(m: Maps, b: nat) {
    b / BITS_PER_BLOCK < |m|
  }

  predicate IsUsed(m: Maps, b: nat)
    requires Covered(m, b)
  {
    Check(m[b / BITS_PER_BLOCK], b % BITS_PER_BLOCK)
  }

  function WithBit(m: Maps, b: nat): (n: Maps)
    requires Covered(m, b)
    ensures |n| == |m|
  {
    m[b / BITS_PER_BLOCK := SetBit(m[b / BITS_PER_BLOCK], b % BITS_PER_BLOCK)]
  }

  function WithoutBit(m: Maps, b: nat): (n: Maps)
    requires Covered(m, b)
    ensures |n| == |m|
  {
    m[b / BITS_PER_BLOCK := ClearBit(m[b / BITS_PER_BLOCK], b % BITS_PER_BLOCK)]
  }

  /** The set the bitmap stands for. */
  ghost function UsedSet(m: Maps, size: nat): set<nat>
    requires size <= |m| * BITS_PER_BLOCK
  {
    set b: nat | b < size && IsUsed(m, b)
  }

  lemma BitChanges(m: Maps, b: nat, c: nat)
    requires Covered(m, b) && Covered(m, c)
    ensures IsUsed(WithBit(m, b), c) <==> c == b || IsUsed(m, c)
    ensures IsUsed(WithoutBit(m, b), c) <==> c != b && IsUsed(m, c)
  {
    hide Check, SetBit, ClearBit;
    ReadBits(m[b / BITS_PER_BLOCK], b % BITS_PER_BLOCK, c % BITS_PER_BLOCK);
  }

  lemma SetChanges(m: Maps, size: nat, b: nat)
    requires size <= |m| * BITS_PER_BLOCK && b < size
    ensures UsedSet(WithBit(m, b), size) == UsedSet(m, size) + {b}
    ensures UsedSet(WithoutBit(m, b), size) == UsedSet(m, size) - {b}
  {
    hide IsUsed, WithBit, WithoutBit;
    forall c: nat | c < size
      ensures IsUsed(WithBit(m, b), c) <==> c == b || IsUsed(m, c)
      ensures IsUsed(WithoutBit(m, b), c) <==> c != b && IsUsed(m, c)
    {
      BitChanges(m, b, c);
    }
  }

  /** Freeing the block just allocated restores every word of the block map. */
  lemma FreeUndoesAlloc(m: Maps, b: nat)
    requires Covered(m, b) && !IsUsed(m, b)
    ensures WithoutBit(WithBit(m, b), b) == m
  {
    ClearUndoesSet(m[b / BITS_PER_BLOCK], b % BITS_PER_BLOCK);
  }

  lemma UsedMeans(m: Maps, b: nat)
    requires Covered(m, b)
    ensures IsUsed(m, b) == Check(m[b / BITS_PER_BLOCK], b % BITS_PER_BLOCK)
    ensures WithBit(m, b) == m[b / BITS_PER_BLOCK := SetBit(m[b / BITS_PER_BLOCK], b % BITS_PER_BLOCK)]
  {
  }

  lemma ZeroWords(w: Words)
    requires forall k | 0 <= k < |w| :: w[k] == 0
    ensures forall j: nat | InRange(w, j) :: !Check(w, j)
  {
    forall j: nat | InRange(w, j)
      ensures !Check(w, j)
    {
      ZeroBit(Offset(j));
    }
  }

  lemma ZeroBit(k: bv6)
    requires k < 32
    ensures !BitOf(0, k)
  {
  }

  class Allocator {
    const dataStart: nat
    const size: nat
    var maps: Maps
    var inodeMap: Words

    ghost predicate Ready()
      reads this
    {
      && dataStart < BITS_PER_BLOCK && dataStart < size <= |maps| * BITS_PER_BLOCK
      && |inodeMap| == WORDS_PER_BLOCK
    }

    ghost function Used(): set<nat>
      requires Ready()
      reads this
    {
      UsedSet(maps, size)
    }

    /** init_file_system's bitmaps, for a partition larger than its metadata: in use are the
        metadata and the root directory's block, and inode 0. */
    constructor (sectors: nat)
      requires sectors < UINT32 && Layout(sectors).dataStart < Layout(sectors).size
      ensures Ready() && dataStart == Layout(sectors).dataStart && size == Layout(sectors).size
      ensures forall b: nat :: b in Used() <==> b <= dataStart
      ensures forall i: nat | i < BITS_PER_BLOCK :: Check(inodeMap, i) <==> i == 0
    {
      var s := Layout(sectors);
      MetadataInFirstBitmapBlock(sectors);
      BitmapCovers(sectors);
      var zero: Words := seq(WORDS_PER_BLOCK, _ => 0);
      var first := zero;
      ZeroWords(zero);
      for i := 0 to s.dataStart + 1
        invariant |first| == WORDS_PER_BLOCK
        invariant forall j: nat | j < BITS_PER_BLOCK :: Check(first, j) <==> j < i
      {
        var next := SetBit(first, i);
        forall j: nat | j < BITS_PER_BLOCK
          ensures Check(next, j) <==> j < i + 1
        {
          ReadBits(first, i, j);
        }
        first := next;
      }
      maps := [first] + seq(s.sizeBlockBitmap - 1, _ => zero);
      inodeMap := SetBit(zero, 0);
      dataStart, size := s.dataStart, s.size;
      forall j: nat | j < BITS_PER_BLOCK
        ensures Check(SetBit(zero, 0), j) <==> j == 0
      {
        ReadBits(zero, 0, j);
      }
    }

    /** alloc_data_block: the least free data block, and only its bit changes; None where the
        source returns an unset variable, which is when no data block is free. */
    method AllocDataBlock() returns (r: Option<nat>)
      requires Ready()
      modifies this`maps
      ensures Ready() && r == NextFree(old(Used()), dataStart, size)
      ensures maps == if r.Some? then WithBit(old(maps), r.value) else old(maps)
      ensures Used() == if r.Some? then old(Used()) + {r.value} else old(Used())
      ensures r.Some? && (forall b: nat | b <= dataStart :: b in old(Used())) ==> dataStart < r.value
    {
      hide IsUsed, WithBit, Check, SetBit;
      var window := 0;
      var block := maps[window];
      var i := dataStart;
      while i < size
        invariant dataStart <= i && window < |maps| && block == maps[window]
        invariant window == if i == dataStart then 0 else (i - 1) / BITS_PER_BLOCK
        invariant maps == old(maps)
        invariant NextFree(Used(), dataStart, size) == NextFree(Used(), i, size)
      {
        if i / BITS_PER_BLOCK != window {
          window := window + 1;
          block := maps[window];
        }
        var offset := i % BITS_PER_BLOCK;
        assert IsUsed(maps, i) == Check(block, offset) by { UsedMeans(maps, i); }
        if !Check(block, offset) {
          SetChanges(maps, size, i);
          UsedMeans(maps, i);
          block := SetBit(block, offset);
          maps := maps[window := block];
          return Some(i);
        }
        i := i + 1;
      }
      return None;
    }

    /** free_data_block. */
    method FreeDataBlock(b: nat)
      requires Ready() && b < size
      modifies this`maps
      ensures Ready() && maps == WithoutBit(old(maps), b) && Used() == old(Used()) - {b}
    {
      SetChanges(maps, size, b);
      var window := b / BITS_PER_BLOCK;
      maps := maps[window := ClearBit(maps[window], b % BITS_PER_BLOCK)];
    }

    /** alloc_inode: the least free inode number. */
    method AllocInode() returns (r: Option<nat>)
      requires Ready()
      modifies this`inodeMap
      ensures Ready()
      ensures r.None? ==> inodeMap == old(inodeMap) && forall i: nat | i < BITS_PER_BLOCK :: Check(inodeMap, i)
      ensures r.Some? ==> r.value < BITS_PER_BLOCK && !Check(old(inodeMap), r.value) && inodeMap == SetBit(old(inodeMap), r.value)
      ensures r.Some? ==> forall i: nat | i < r.value :: Check(old(inodeMap), i)
    {
      for i := 0 to BITS_PER_BLOCK
        invariant inodeMap == old(inodeMap) && forall j: nat | j < i :: Check(inodeMap, j)
      {
        if !Check(inodeMap, i) {
          inodeMap := SetBit(inodeMap, i);
          return Some(i);
        }
      }
      return None;
    }

    method FreeInode(i: nat)
      requires Ready() && i < BITS_PER_BLOCK
      modifies this`inodeMap
      ensures Ready() && inodeMap == ClearBit(old(inodeMap), i)
    {
      inodeMap := ClearBit(inodeMap, i);
    }
  }
}
