/**
 What reads and writes do to inode sizes, and what they leave alone on the
 disk (fs/fs.c:848-984). Both grow a file, which find_data_block counts in
 blocks; a block that is allocated for data keeps what the disk had in it.
 */
module FileSizes {
  import opened Wrappers
  import opened Blocks
  import opened FileMap
  import opened FileGrowth
  import opened FindDataBlock
  import opened FileBytes
  import opened FileCalls
  import opened FileRuns

  lemma WritePassSizes(fs: Fs, f: nat, at: nat, chunk: seq<Byte>, page1: Block, page2: Block, unread: Block)
    requires Shape(fs) && f < |fs.files| && at < INT_LIMIT && at % BLOCK_SIZE + |chunk| <= BLOCK_SIZE
    ensures SizesGrow(fs, WritePass(fs, f, at, chunk, page1, page2, unread).fs, f, at / BLOCK_SIZE + 1)
  {
    hide WalkTo, At, Leaf, Overlay;
    EveryOffsetAddressable(at);
    WalkSizes(fs, f, at / BLOCK_SIZE, page1, page2);
  }

  lemma ReadPassSizes(fs: Fs, f: nat, at: nat, page1: Block, page2: Block)
    requires Shape(fs) && f < |fs.files| && at < INT_LIMIT
    ensures SizesGrow(fs, ReadPass(fs, f, at, page1, page2).fs, f, at / BLOCK_SIZE + 1)
  {
    hide WalkTo, At, Leaf;
    EveryOffsetAddressable(at);
    WalkSizes(fs, f, at / BLOCK_SIZE, page1, page2);
  }

  /** What a call that starts in file block `lo` and needs the file to reach `blocks` does to the sizes. */
  ghost predicate CallSizes(fs: Fs, n: Fs, f: nat, lo: nat, blocks: nat, ok: bool) {
    if ok then SizesGrow(fs, n, f, blocks)
    else exists i: nat :: lo < i <= blocks && SizesGrow(fs, n, f, i)
  }

  /** The block of the first chunk is the last the request touches, or the others follow it. */
  lemma NextChunk(at: nat, len: nat, n: nat)
    requires 0 < n <= len && at % BLOCK_SIZE + n <= BLOCK_SIZE
    requires n == len || ((at + n) % BLOCK_SIZE == 0 && (at + n) / BLOCK_SIZE == at / BLOCK_SIZE + 1)
    ensures n == len ==> BlocksEnd(at, len) == at / BLOCK_SIZE + 1
    ensures n < len ==> BlocksEnd(at + n, len - n) == BlocksEnd(at, len) && at / BLOCK_SIZE + 1 < BlocksEnd(at, len)
  {
  }

  lemma GrowTwice(a: Fs, b: Fs, c: Fs, f: nat, i: nat, j: nat)
    requires SizesGrow(a, b, f, i) && SizesGrow(b, c, f, j) && i <= j
    ensures SizesGrow(a, c, f, j)
  {
  }

  /** A write that goes through makes the file reach the last block it touches; one that stops, some earlier
      one of them. */
  lemma {:induction false} WriteSizes(fs: Fs, f: nat, at: nat, data: seq<Byte>, k: nat, pages: nat -> Block, unread: nat -> Block)
    requires Shape(fs) && f < |fs.files| && at + |data| < INT_LIMIT && data != []
    ensures var p := WriteFrom(fs, f, at, data, k, pages, unread);
            CallSizes(fs, p.fs, f, at / BLOCK_SIZE, BlocksEnd(at, |data|), p.ok)
    decreases |data|
  {
    hide Shape, WritePass, SizesGrow, BlocksEnd;
    var n := ChunkEnd(at, at + |data|) - at;
    NextChunk(at, |data|, n);
    var p := WritePass(fs, f, at, data[..n], pages(2 * k), pages(2 * k + 1), unread(k));
    WritePassSizes(fs, f, at, data[..n], pages(2 * k), pages(2 * k + 1), unread(k));
    if p.ok && n < |data| {
      WriteSizes(p.fs, f, at + n, data[n..], k + 1, pages, unread);
      ThenSizes(fs, p.fs, WriteFrom(p.fs, f, at + n, data[n..], k + 1, pages, unread), f, at / BLOCK_SIZE, BlocksEnd(at, |data|));
    }
  }

  lemma ThenSizes(fs: Fs, n: Fs, p: Progress, f: nat, lo: nat, blocks: nat)
    requires SizesGrow(fs, n, f, lo + 1) && lo + 1 < blocks && CallSizes(n, p.fs, f, lo + 1, blocks, p.ok)
    ensures CallSizes(fs, p.fs, f, lo, blocks, p.ok)
  {
    hide SizesGrow;
    if p.ok {
      GrowTwice(fs, n, p.fs, f, lo + 1, blocks);
    } else {
      var i: nat :| lo + 1 < i <= blocks && SizesGrow(n, p.fs, f, i);
      GrowTwice(fs, n, p.fs, f, lo + 1, i);
    }
  }

  /** So does a read: past the end it makes the file longer. */
  lemma {:induction false} ReadSizes(fs: Fs, f: nat, at: nat, size: nat, k: nat, pages: nat -> Block)
    requires Shape(fs) && f < |fs.files| && at + size < INT_LIMIT && 0 < size
    ensures var p := ReadFrom(fs, f, at, size, k, pages).p;
            CallSizes(fs, p.fs, f, at / BLOCK_SIZE, BlocksEnd(at, size), p.ok)
    decreases size
  {
    hide Shape, ReadPass, PassBytes, ReadFrom, SizesGrow, BlocksEnd;
    ReadUnfold(fs, f, at, size, k, pages);
    var n := ChunkEnd(at, at + size) - at;
    NextChunk(at, size, n);
    var p := ReadPass(fs, f, at, pages(2 * k), pages(2 * k + 1));
    ReadPassSizes(fs, f, at, pages(2 * k), pages(2 * k + 1));
    if p.ok && n < size {
      ReadSizes(p.fs, f, at + n, size - n, k + 1, pages);
      ThenSizes(fs, p.fs, ReadFrom(p.fs, f, at + n, size - n, k + 1, pages).p, f, at / BLOCK_SIZE, BlocksEnd(at, size));
    } else if p.ok {
      ReadUnfold(p.fs, f, at + n, size - n, k + 1, pages);
    }
  }

  // ----- what a walk writes -----

  /** A block that is allocated is the least free one. */
  lemma EnsureLeast(fs: Fs, f: nat, r: Ref, page: Block)
    requires Shape(fs) && f < |fs.files| && IsRef(r) && At(fs, f, r) == 0
    requires Parent(r).Some? ==> 0 < At(fs, f, Parent(r).value) < |fs.blocks|
    ensures var o := Ensure(fs, f, r, page);
            o.Some? ==> At(o.value, f, r) in Free(fs) && forall b | b in Free(fs) :: At(o.value, f, r) <= b
  {
    hide At, Link, Cleared;
    EnsureAllocates(fs, f, r, page);
  }

  /** Block `b` of the disk changes only if it is a pointer block of the path. */
  ghost predicate Touches(fs: Fs, n: Fs, f: nat, path: seq<Ref>) {
    && Shape(n) && |n.blocks| == |fs.blocks| && f < |n.files|
    && forall b: nat | b < |fs.blocks| && n.blocks[b] != fs.blocks[b] :: IsPointerOn(n, f, path, b)
  }

  ghost predicate IsPointerOn(n: Fs, f: nat, path: seq<Ref>, b: nat)
    requires Shape(n) && f < |n.files|
  {
    b != 0 && exists r :: r in path && IsRef(r) && IsPointer(r) && At(n, f, r) == b
  }

  lemma LinkTouches(fs: Fs, f: nat, r: Ref, b: U32, init: Block)
    requires CanLink(fs, f, r, b, init) && (!IsPointer(r) ==> init == fs.blocks[b])
    ensures var n := Link(fs, f, r, b, init);
            && At(n, f, r) == b && (Parent(r).Some? ==> IsRef(Parent(r).value) && At(n, f, Parent(r).value) == At(fs, f, Parent(r).value))
            && (Parent(r).Some? ==> At(fs, f, Parent(r).value) != 0)
            && forall c: nat | c < |fs.blocks| && n.blocks[c] != fs.blocks[c] ::
                 (IsPointer(r) && c == b) || (Parent(r).Some? && IsRef(Parent(r).value) && c == At(fs, f, Parent(r).value))
  {
    hide Word, PutWord, Injective, InData;
    LinkAt(fs, f, r, b, init, f, r);
    if Parent(r).Some? {
      LinkAt(fs, f, r, b, init, f, Parent(r).value);
      ClaimUnseen(fs, b, init, f, Parent(r).value);
    }
  }

  lemma EnsureTouches(fs: Fs, f: nat, r: Ref, page: Block, path: seq<Ref>)
    requires Forest(fs) && f < |fs.files| && IsRef(r) && ParentMapped(fs, f, r) && r in path && (Parent(r).Some? ==> Parent(r).value in path)
    requires IsPointer(r) && At(fs, f, r) == 0 ==> Clean(page)
    ensures var o := Ensure(fs, f, r, page); o.Some? ==> Touches(fs, o.value, f, path)
  {
    hide Link, At, Injective, InData, Cleared, Clean, IsPointerOn;
    var next := NextFree(fs.used, fs.dataStart, |fs.blocks|);
    if At(fs, f, r) == 0 && next.Some? {
      var b: nat := next.value;
      var init := if IsPointer(r) then Cleared(page) else fs.blocks[b];
      CleanCleared(page);
      LinkTouches(fs, f, r, b, init);
      var n := Link(fs, f, r, b, init);
      forall c: nat | c < |fs.blocks| && n.blocks[c] != fs.blocks[c]
        ensures IsPointerOn(n, f, path, c)
      {
        PointerOn(n, f, path, if IsPointer(r) && c == b then r else Parent(r).value);
      }
    }
  }

  lemma PointerOn(n: Fs, f: nat, path: seq<Ref>, r: Ref)
    requires Shape(n) && r in path && IsPointer(r) && Mapped(n, f, r)
    ensures IsPointerOn(n, f, path, At(n, f, r))
  {
  }

  lemma TouchesTwice(a: Fs, b: Fs, c: Fs, f: nat, path: seq<Ref>)
    requires Touches(a, b, f, path) && Touches(b, c, f, path)
    requires forall r | r in path && IsRef(r) && At(b, f, r) != 0 :: At(c, f, r) == At(b, f, r)
    ensures Touches(a, c, f, path)
  {
    hide At;
    forall x: nat | x < |a.blocks| && c.blocks[x] != a.blocks[x]
      ensures IsPointerOn(c, f, path, x)
    {
      if b.blocks[x] != a.blocks[x] {
        assert IsPointerOn(b, f, path, x);
        var r :| r in path && IsRef(r) && IsPointer(r) && At(b, f, r) == x;
        assert At(c, f, r) == x;
      }
    }
  }

  /** One more step down the path. */
  lemma StepTouches(fs: Fs, m: Fs, f: nat, done: seq<Ref>, r: Ref, page: Block, path: seq<Ref>)
    requires GrowsAlong(fs, m, f, done) && KeepsData(fs, m) && Touches(fs, m, f, path)
    requires f < |fs.files| && IsRef(r) && ParentMapped(m, f, r) && r !in done && r in path && (Parent(r).Some? ==> Parent(r).value in path)
    requires IsPointer(r) && At(fs, f, r) == 0 ==> Clean(page)
    ensures var o := Ensure(m, f, r, page); o.Some? ==> Touches(fs, o.value, f, path)
  {
    hide At, Ensure, Clean, Touches, KeepsData;
    StepGrows(fs, m, f, done, r, page);
    var o := Ensure(m, f, r, page);
    if o.Some? {
      assert At(m, f, r) == At(fs, f, r);
      EnsureTouches(m, f, r, page, path);
      EnsureGrows(m, f, r, page);
      MappedStay(m, o.value, f, [r], path);
      TouchesTwice(fs, m, o.value, f, path);
    }
  }

  lemma MappedStay(a: Fs, b: Fs, f: nat, done: seq<Ref>, path: seq<Ref>)
    requires GrowsAlong(a, b, f, done) && f < |a.files|
    ensures forall r | r in path && IsRef(r) && At(a, f, r) != 0 :: At(b, f, r) == At(a, f, r)
  {
    hide At;
  }

  /** With clean pages a walk, through or not, writes no block but the pointer blocks of its path: a block it links
      for data holds what the disk held there. */
  lemma WalkTouches(fs: Fs, f: nat, i: nat, page1: Block, page2: Block)
    requires Forest(fs) && f < |fs.files| && i < MAX_BLOCKS && PagesOk(fs, f, i, page1, page2)
    ensures Touches(fs, WalkTo(fs, f, i, page1, page2).fs, f, Path(i))
  {
    hide At, Ensure, Clean, Leaf, GrowsAlong, KeepsData, Touches;
    var p := Path(i);
    var s0 := Grow(fs, f, i);
    GrowForest(fs, f, i);
    GrowTouches(fs, f, i);
    StepTouches(fs, s0, f, [], p[0], page1, p);
    StepGrows(fs, s0, f, [], p[0], page1);
    var o1 := Ensure(s0, f, p[0], page1);
    assert [] + [p[0]] == p[..1] && p[..|p|] == p;
    if |p| > 1 && o1.Some? {
      StepTouches(fs, o1.value, f, p[..1], p[1], page2, p);
      StepGrows(fs, o1.value, f, p[..1], p[1], page2);
      var o2 := Ensure(o1.value, f, p[1], page2);
      assert p[..1] + [p[1]] == p[..2];
      if |p| > 2 && o2.Some? {
        StepTouches(fs, o2.value, f, p[..2], p[2], page2, p);
      }
    }
  }

  lemma GrowTouches(fs: Fs, f: nat, i: nat)
    requires Shape(fs) && f < |fs.files| && i < MAX_BLOCKS
    ensures Touches(fs, Grow(fs, f, i), f, Path(i))
  {
    hide Path;
  }

  /** Of the block it writes to, a pass of the write loop changes the bytes of the chunk alone, also where the block
      is new; other blocks change only as the walk changes them. */
  lemma WritePassTouches(fs: Fs, f: nat, at: nat, chunk: seq<Byte>, page1: Block, page2: Block, unread: Block)
    requires Forest(fs) && f < |fs.files| && at < INT_LIMIT && at % BLOCK_SIZE + |chunk| <= BLOCK_SIZE && Clean(page1) && Clean(page2)
    requires WritePass(fs, f, at, chunk, page1, page2, unread).ok
    ensures var n, i, o := WritePass(fs, f, at, chunk, page1, page2, unread).fs, at / BLOCK_SIZE, at % BLOCK_SIZE;
            && i < MAX_BLOCKS && Shape(n) && f < |n.files| && |n.blocks| == |fs.blocks|
            && forall b: nat | b < |fs.blocks| && n.blocks[b] != fs.blocks[b] && !IsPointerOn(n, f, Path(i), b) ::
                 && b == At(n, f, Leaf(i))
                 && forall k: nat | k < BLOCK_SIZE && !(o <= k < o + |chunk|) :: n.blocks[b][k] == fs.blocks[b][k]
  {
    hide At, Leaf, Path, WalkTo, Clean, Overlay, PagesOk, Walked, Injective, InData, GrowsAlong, KeepsData;
    EveryOffsetAddressable(at);
    var i := at / BLOCK_SIZE;
    CleanPagesOk(fs, f, i, page1, page2);
    WalkTouches(fs, f, i, page1, page2);
    WalkWalks(fs, f, i, page1, page2);
    var w := WalkTo(fs, f, i, page1, page2).fs;
    var n := WritePass(fs, f, at, chunk, page1, page2, unread).fs;
    WriteUnseen(fs, w, f, i, n);
    forall b: nat | b < |fs.blocks| && n.blocks[b] != fs.blocks[b] && !IsPointerOn(n, f, Path(i), b)
      ensures w.blocks[b] == fs.blocks[b]
    {
      if IsPointerOn(w, f, Path(i), b) {
        SamePointers(w, n, f, Path(i), b);
      }
    }
  }

  lemma WriteUnseen(fs: Fs, w: Fs, f: nat, i: nat, n: Fs)
    requires i < MAX_BLOCKS && Walked(fs, w, f, i)
    requires At(w, f, Leaf(i)) < |w.blocks| == |n.blocks| && n == w.(blocks := w.blocks[At(w, f, Leaf(i)) := n.blocks[At(w, f, Leaf(i))]])
    ensures Shape(n) && |n.files| == |w.files| && forall s: Ref | IsRef(s) :: At(n, f, s) == At(w, f, s)
  {
    hide At, Leaf, Path;
    DataWriteUnseen(w, f, i, n.blocks[At(w, f, Leaf(i))]);
  }

  lemma SamePointers(w: Fs, n: Fs, f: nat, path: seq<Ref>, b: nat)
    requires Shape(w) && Shape(n) && f < |w.files| && f < |n.files| && forall s: Ref | IsRef(s) :: At(n, f, s) == At(w, f, s)
    requires IsPointerOn(w, f, path, b)
    ensures IsPointerOn(n, f, path, b)
  {
    hide At;
  }

  // ----- runs -----

  predicate Names(c: Call, g: nat) {
    !c.DoSeek? && c.f == g
  }

  /** One call never shrinks a file, and changes no size but its own file's. */
  lemma DoSizes(s: Session, c: Call, g: nat)
    requires CanDo(s, c) && g < |s.fs.files|
    ensures var n := Do(s, c);
            |n.fs.files| == |s.fs.files| && SizeOf(s.fs, g) <= SizeOf(n.fs, g) && (!Names(c, g) ==> SizeOf(n.fs, g) == SizeOf(s.fs, g))
  {
    hide WriteFrom, ReadFrom, Shape;
    match c
    case DoWrite(f, data, pages, unread) =>
      if data == [] {
        WriteNothing(s.fs, f, s.offsets[f], pages, unread);
      } else {
        WriteSizes(s.fs, f, s.offsets[f], data, 0, pages, unread);
      }
    case DoRead(f, size, pages) =>
      if size == 0 {
        ReadUnfold(s.fs, f, s.offsets[f], 0, 0, pages);
      } else {
        ReadSizes(s.fs, f, s.offsets[f], size, 0, pages);
      }
    case DoSeek(_, _) =>
  }

  lemma WriteNothing(fs: Fs, f: nat, at: nat, pages: nat -> Block, unread: nat -> Block)
    requires Shape(fs) && f < |fs.files| && at < INT_LIMIT
    ensures WriteFrom(fs, f, at, [], 0, pages, unread) == Progress(fs, true)
  {
  }

  /** A call that has the free blocks it needs moves its file's offset by its length, any other read or write leaves it;
      seek puts it where it is told. No other offset moves. */
  lemma DoOffsets(s: Session, c: Call, g: nat)
    requires Forest(s.fs) && CanDo(s, c) && g < |s.offsets|
    ensures var n := Do(s, c);
            && |n.offsets| == |s.offsets|
            && n.offsets[g] ==
               if g != c.f then s.offsets[g]
               else
                 match c
                 case DoWrite(f, data, _, _) => if Needed(s.fs, f, s.offsets[f], |data|) <= |Free(s.fs)| then s.offsets[f] + |data| else s.offsets[f]
                 case DoRead(f, size, _) => if Needed(s.fs, f, s.offsets[f], size) <= |Free(s.fs)| then s.offsets[f] + size else s.offsets[f]
                 case DoSeek(_, offset) => offset
  {
    hide Forest, WriteFrom, ReadFrom, AllClean, Needed, Free, Wrote, WrotePart, DidRead;
    match c
    case DoWrite(f, data, pages, unread) => WriteExact(s.fs, f, s.offsets[f], data, 0, pages, unread);
    case DoRead(f, size, pages) => ReadExact(s.fs, f, s.offsets[f], size, 0, pages);
    case DoSeek(_, _) =>
  }

  /** Over every run no file ever shrinks, and one that no call reads or writes keeps its size. */
  lemma {:induction false} SizesOverRuns(s: Session, calls: seq<Call>, g: nat)
    requires RunOk(s, calls) && g < |s.fs.files|
    ensures var n := Run(s, calls);
            && |n.fs.files| == |s.fs.files| && SizeOf(s.fs, g) <= SizeOf(n.fs, g)
            && ((forall k | 0 <= k < |calls| :: !Names(calls[k], g)) ==> SizeOf(n.fs, g) == SizeOf(s.fs, g))
    decreases |calls|
  {
    hide CanDo, Do, SizeOf, Names;
    if calls == [] {
    } else {
      DoSizes(s, calls[0], g);
      SizesOverRuns(Do(s, calls[0]), calls[1..], g);
      assert (forall k | 0 <= k < |calls| :: !Names(calls[k], g)) ==>
          !Names(calls[0], g) && forall k | 0 <= k < |calls[1..]| :: !Names(calls[1..][k], g);
    }
  }
}
