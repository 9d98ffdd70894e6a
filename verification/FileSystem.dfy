/**
 Open files over a plain array of blocks: alloc_data_block, find_data_block,
 write, read and seek (fs/fs.c:307-329, 848-984), updating the state in place.
 What block_get returns for a block it does not read is a recycled page, so
 the contents of those pages are inputs.
 */
module FileSystem {
  import opened Wrappers
  import opened Blocks
  import opened FileMap
  import opened FileGrowth
  import opened FileBytes
  import opened FileCalls
  import FileSizes

  class OpenFiles {
    const dataStart: nat
    ghost const reserved: set<nat>
    var blocks: seq<Block>
    var used: set<nat>
    var files: seq<Inode>
    var offsets: seq<int>

    ghost function State(): Fs
      reads this
    {
      Fs(dataStart, blocks, used, reserved, files)
    }

    ghost predicate Valid()
      reads this
    {
      Forest(State()) && |offsets| == |files|
    }

    /** alloc_data_block: the least free data block, or None where the source returns an unset id. */
    method AllocDataBlock() returns (r: Option<nat>)
      modifies this`used
      ensures r == NextFree(old(used), dataStart, |blocks|)
      ensures used == if r.Some? then old(used) + {r.value} else old(used)
    {
      var i := dataStart;
      while i < |blocks|
        invariant dataStart <= i
        invariant used == old(used)
        invariant NextFree(used, dataStart, |blocks|) == NextFree(used, i, |blocks|)
      {
        if i !in used {
          used := used + {i};
          return Some(i);
        }
        i := i + 1;
      }
      return None;
    }

    /** "if addrs[a] is zero, allocate": the inode's own address slots. */
    method EnsureAddr(f: nat, ghost r: Ref, a: nat, page: Block) returns (b: Option<nat>)
      requires Shape(State()) && f < |files|
      requires (r == Direct(a) && a < NDIRECT) || (r == Single && a == SINGLE) || (r == Double && a == DOUBLE)
      modifies this`blocks, this`used, this`files
      ensures var o := Ensure(old(State()), f, r, page);
              && (b.Some? <==> o.Some?)
              && (b.Some? ==> State() == o.value && b.value == At(State(), f, r))
      ensures b.None? ==> State() == old(State())
    {
      hide Word, PutWord, Cleared, NextFree;
      if files[f].addrs[a] == 0 {
        b := AllocDataBlock();
        if b.None? { return; }
        files := files[f := files[f].(addrs := files[f].addrs[a := b.value])];
        blocks := blocks[b.value := if a < NDIRECT then blocks[b.value] else Cleared(page)];
      }
      b := Some(files[f].addrs[a]);
    }

    /** "if the j-th word of pointer block p is zero, allocate". */
    method EnsureWord(f: nat, r: Ref, p: nat, j: nat, page: Block) returns (b: Option<nat>)
      requires Shape(State()) && f < |files| && IsRef(r) && j < ADDR_PER_BLOCK
      requires Parent(r).Some? && p == At(State(), f, Parent(r).value)
      requires j == match r case InSingle(w) => w case Mid(w) => w case InDouble(_, w) => w case _ => j
      modifies this`blocks, this`used, this`files
      ensures var o := Ensure(old(State()), f, r, page);
              && (b.Some? <==> o.Some?)
              && (b.Some? ==> State() == o.value && b.value == At(State(), f, r))
      ensures b.None? ==> State() == old(State())
    {
      hide Word, PutWord, Cleared, NextFree;
      var word := if 0 < p < |blocks| then Word(blocks[p], j) else 0;
      if word == 0 {
        b := AllocDataBlock();
        if b.None? { return; }
        blocks := blocks[b.value := if r.Mid? then Cleared(page) else blocks[b.value]];
        if 0 < p < |blocks| {
          blocks := blocks[p := PutWord(blocks[p], j, b.value)];
        }
        word := if 0 < p < |blocks| then Word(blocks[p], j) else 0;
      }
      b := Some(word);
    }

    /** find_data_block on file `f`; page1 and page2 are what fresh pointer blocks' pages hold.
        Where the partition is full it stops with what it has linked. */
    method FindDataBlock(f: nat, offset: nat, page1: Block, page2: Block) returns (r: Option<nat>)
      requires Shape(State()) && f < |files| && offset < INT_LIMIT
      modifies this`blocks, this`used, this`files
      ensures Progress(State(), r.Some?) == WalkTo(old(State()), f, offset / BLOCK_SIZE, page1, page2)
      ensures r.Some? ==> r.value == At(State(), f, Leaf(offset / BLOCK_SIZE))
      ensures SizesGrow(old(State()), State(), f, offset / BLOCK_SIZE + 1)
    {
      hide Ensure, At, Word, PutWord;
      WalkSizes(State(), f, offset / BLOCK_SIZE, page1, page2);
      var i := offset / BLOCK_SIZE;
      files := files[f := files[f].(size := if files[f].size > i + 1 then files[f].size else i + 1)];
      if i < NDIRECT {
        r := EnsureAddr(f, Direct(i), i, page1);
      } else if i < NDIRECT + ADDR_PER_BLOCK {
        var top := EnsureAddr(f, Single, SINGLE, page1);
        if top.None? { return None; }
        r := EnsureWord(f, InSingle(i - NDIRECT), top.value, i - NDIRECT, page2);
      } else {
        var j := (i - NDIRECT - ADDR_PER_BLOCK) / ADDR_PER_BLOCK;
        var k := (i - NDIRECT - ADDR_PER_BLOCK) % ADDR_PER_BLOCK;
        var top := EnsureAddr(f, Double, DOUBLE, page1);
        if top.None? { return None; }
        var mid := EnsureWord(f, Mid(j), top.value, j, page2);
        if mid.None? { return None; }
        r := EnsureWord(f, InDouble(j, k), mid.value, k, page2);
      }
    }

    /** One pass of the write loop. */
    method WriteChunk(f: nat, at: nat, chunk: seq<Byte>, page1: Block, page2: Block, unread: Block) returns (ok: bool)
      requires Shape(State()) && f < |files| && at < INT_LIMIT && at % BLOCK_SIZE + |chunk| <= BLOCK_SIZE
      modifies this`blocks, this`used, this`files
      ensures Progress(State(), ok) == WritePass(old(State()), f, at, chunk, page1, page2, unread)
    {
      hide At, Leaf, WalkTo, Overlay;
      EveryOffsetAddressable(at);
      var id := FindDataBlock(f, at, page1, page2);
      if id.None? || id.value >= |blocks| { return false; }
      var base := if |chunk| != BLOCK_SIZE then blocks[id.value] else unread;
      blocks := blocks[id.value := Overlay(base, at % BLOCK_SIZE, chunk)];
      return true;
    }

    /** The write loop. */
    method WriteLoop(f: nat, data: seq<Byte>, pages: nat -> Block, unread: nat -> Block) returns (ok: bool, fileOff: nat)
      requires Shape(State()) && f < |files| == |offsets| && 0 <= offsets[f] && offsets[f] + |data| < INT_LIMIT
      modifies this`blocks, this`used, this`files
      ensures Progress(State(), ok) == WriteFrom(old(State()), f, offsets[f], data, 0, pages, unread)
      ensures |files| == |offsets| && (ok ==> fileOff == offsets[f] + |data|)
    {
      hide Shape, WritePass, WriteFrom;
      ghost var s0 := State();
      var buffOff, k := 0, 0;
      fileOff := offsets[f];
      assert data[0..] == data;
      while buffOff < |data|
        invariant 0 <= buffOff <= |data| && fileOff == offsets[f] + buffOff
        invariant Shape(State()) && |files| == |offsets|
        invariant WriteFrom(s0, f, offsets[f], data, 0, pages, unread) == WriteFrom(State(), f, fileOff, data[buffOff..], k, pages, unread)
      {
        var fileEnd := ChunkEnd(fileOff, offsets[f] + |data|);
        var copySize := fileEnd - fileOff;
        WriteUnfold(State(), f, fileOff, data, buffOff, k, pages, unread);
        ok := WriteChunk(f, fileOff, data[buffOff..buffOff + copySize], pages(2 * k), pages(2 * k + 1), unread(k));
        if !ok { return; }
        buffOff := buffOff + copySize;
        fileOff := fileEnd;
        k := k + 1;
      }
      WriteUnfold(State(), f, fileOff, data, buffOff, k, pages, unread);
      ok := true;
    }

    /** write. Where it fails the offset stays. With clean pages it goes through exactly when there are as
        many free blocks as the request needs; then the span holds the data, and nothing else mapped in any
        file has changed; else only a first part of the data is there. */
    method Write(f: nat, data: seq<Byte>, pages: nat -> Block, unread: nat -> Block) returns (ok: bool)
      requires Shape(State()) && f < |files| == |offsets| && 0 <= offsets[f] && offsets[f] + |data| < INT_LIMIT
      modifies this
      ensures Progress(State(), ok) == WriteFrom(old(State()), f, old(offsets[f]), data, 0, pages, unread)
      ensures offsets == if ok then old(offsets)[f := old(offsets[f]) + |data|] else old(offsets)
      ensures old(Valid()) && AllClean(pages) ==>
                && Valid() && (ok <==> old(Needed(State(), f, offsets[f], |data|)) <= old(|Free(State())|))
                && (ok ==> Wrote(old(State()), State(), f, old(offsets[f]), data))
                && (!ok ==> WrotePart(old(State()), State(), f, old(offsets[f]), data))
      ensures data != [] ==> FileSizes.CallSizes(old(State()), State(), f, old(offsets[f]) / BLOCK_SIZE, BlocksEnd(old(offsets[f]), |data|), ok)
    {
      hide Shape, Forest, Wrote, AllClean, Needed, WriteFrom, Free, WrotePart, FileSizes.CallSizes;
      if data != [] {
        FileSizes.WriteSizes(State(), f, offsets[f], data, 0, pages, unread);
      }
      if Forest(State()) && AllClean(pages) {
        WriteExact(State(), f, offsets[f], data, 0, pages, unread);
      }
      var fileOff;
      ok, fileOff := WriteLoop(f, data, pages, unread);
      if ok {
        offsets := offsets[f := fileOff];
      }
    }

    /** One pass of the read loop. */
    method ReadChunk(f: nat, at: nat, size: nat, page1: Block, page2: Block) returns (ok: bool, data: seq<Byte>)
      requires Shape(State()) && f < |files| && at < INT_LIMIT && at % BLOCK_SIZE + size <= BLOCK_SIZE
      modifies this`blocks, this`used, this`files
      ensures Progress(State(), ok) == ReadPass(old(State()), f, at, page1, page2)
      ensures data == if ok then PassBytes(State(), f, at, size) else []
    {
      hide At, Leaf, WalkTo;
      EveryOffsetAddressable(at);
      var id := FindDataBlock(f, at, page1, page2);
      if id.None? || id.value >= |blocks| { return false, []; }
      return true, blocks[id.value][at % BLOCK_SIZE..at % BLOCK_SIZE + size];
    }

    /** The read loop. */
    method ReadLoop(f: nat, buff: array<Byte>, size: nat, pages: nat -> Block) returns (ok: bool, fileOff: nat)
      requires Shape(State()) && f < |files| == |offsets| && size <= buff.Length && 0 <= offsets[f] && offsets[f] + size < INT_LIMIT
      modifies this`blocks, this`used, this`files, buff
      ensures Progress(State(), ok) == ReadFrom(old(State()), f, offsets[f], size, 0, pages).p
      ensures StartsWith(buff[..], ReadFrom(old(State()), f, offsets[f], size, 0, pages).bytes, old(buff[..]))
      ensures |files| == |offsets| && (ok ==> fileOff == offsets[f] + size)
    {
      hide Shape, ReadPass, PassBytes, ReadFrom, ReadSoFar, StartsWith;
      ghost var all := ReadFrom(State(), f, offsets[f], size, 0, pages);
      ghost var was, got := buff[..], [];
      StartsAnywhere(was);
      var buffOff, k := 0, 0;
      fileOff := offsets[f];
      ReadStarts(State(), f, fileOff, size, pages);
      while buffOff < size
        invariant 0 <= buffOff <= size && fileOff == offsets[f] + buffOff
        invariant Shape(State()) && |files| == |offsets|
        invariant ReadSoFar(all, got, State(), f, fileOff, size - buffOff, k, pages)
        invariant |got| == buffOff && StartsWith(buff[..], got, was)
      {
        var fileEnd := ChunkEnd(fileOff, offsets[f] + size);
        var copySize := fileEnd - fileOff;
        ReadAdvance(all, got, State(), f, fileOff, size - buffOff, k, pages);
        var done, data := ReadChunk(f, fileOff, copySize, pages(2 * k), pages(2 * k + 1));
        if !done { return false, fileOff; }
        CopyTo(buff, buffOff, data, got, was);
        got := got + data;
        buffOff := buffOff + copySize;
        fileOff := fileEnd;
        k := k + 1;
      }
      ReadAdvance(all, got, State(), f, fileOff, size - buffOff, k, pages);
      ok := true;
    }

    /** memcpy into the caller's buffer. */
    static method CopyTo(buff: array<Byte>, at: nat, data: seq<Byte>, ghost got: seq<Byte>, ghost was: seq<Byte>)
      requires at + |data| <= buff.Length == |was| && |got| == at && StartsWith(buff[..], got, was)
      modifies buff
      ensures StartsWith(buff[..], got + data, was)
    {
      ghost var tail := was[at + |data|..];
      assert forall n | at + |data| <= n < buff.Length :: buff[n] == (got + was[at..])[n] == tail[n - (at + |data|)];
      assert forall n | 0 <= n < at :: buff[n] == (got + was[at..])[n] == got[n];
      forall n | 0 <= n < |data| {
        buff[at + n] := data[n];
      }
    }

    /** read. With clean pages it goes through exactly when the holes in the span can be filled; what it has
        copied are the bytes of the file, and no byte of any file changes in any case. */
    method Read(f: nat, buff: array<Byte>, size: nat, pages: nat -> Block) returns (ok: bool)
      requires Shape(State()) && f < |files| == |offsets| && size <= buff.Length && 0 <= offsets[f] && offsets[f] + size < INT_LIMIT
      modifies this, buff
      ensures Progress(State(), ok) == ReadFrom(old(State()), f, old(offsets[f]), size, 0, pages).p
      ensures StartsWith(buff[..], ReadFrom(old(State()), f, old(offsets[f]), size, 0, pages).bytes, old(buff[..]))
      ensures offsets == if ok then old(offsets)[f := old(offsets[f]) + size] else old(offsets)
      ensures old(Valid()) && AllClean(pages) ==>
                && Valid() && (ok <==> old(Needed(State(), f, offsets[f], size)) <= old(|Free(State())|))
                && DidRead(old(State()), State(), f, old(offsets[f]), ReadFrom(old(State()), f, old(offsets[f]), size, 0, pages).bytes)
      ensures size > 0 ==> FileSizes.CallSizes(old(State()), State(), f, old(offsets[f]) / BLOCK_SIZE, BlocksEnd(old(offsets[f]), size), ok)
    {
      hide Shape, Forest, DidRead, AllClean, Needed, ReadFrom, Free, FileSizes.CallSizes;
      if size > 0 {
        FileSizes.ReadSizes(State(), f, offsets[f], size, 0, pages);
      }
      if Forest(State()) && AllClean(pages) {
        ReadExact(State(), f, offsets[f], size, 0, pages);
      }
      var fileOff;
      ok, fileOff := ReadLoop(f, buff, size, pages);
      if ok {
        offsets := offsets[f := fileOff];
      }
    }

    /** seek: sets the offset, to anything, and nothing else. */
    method Seek(f: nat, offset: int)
      requires f < |offsets|
      modifies this`offsets
      ensures offsets == old(offsets)[f := offset]
    {
      offsets := offsets[f := offset];
    }

    /** Writing, seeking back and reading the same length: the read cannot fail and returns the bytes written. */
    method WriteSeekRead(f: nat, data: seq<Byte>, buff: array<Byte>, pages: nat -> Block, unread: nat -> Block) returns (ok: bool)
      requires Valid() && f < |files| && 0 <= offsets[f] && offsets[f] + |data| < INT_LIMIT && |data| <= buff.Length && AllClean(pages)
      modifies this, buff
      ensures ok <==> old(Needed(State(), f, offsets[f], |data|)) <= old(|Free(State())|)
      ensures ok ==> buff[..|data|] == data && Wrote(old(State()), State(), f, old(offsets[f]), data)
      ensures Valid() && offsets == if ok then old(offsets)[f := old(offsets[f]) + |data|] else old(offsets)
    {
      hide Forest, Shape, Wrote, DidRead, AllClean, Needed, WriteFrom, ReadFrom, Free, WrotePart;
      ghost var s0 := State();
      ShapeOf(s0);
      var start := offsets[f];
      ok := Write(f, data, pages, unread);
      if !ok { return; }
      Seek(f, start);
      WriteThenRead(s0, f, start, data, 0, 0, pages, unread);
      ok := Read(f, buff, |data|, pages);
    }
  }
}
