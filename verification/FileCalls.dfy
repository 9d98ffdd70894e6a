/**
 Whole calls of write and read as functions of the file system (fs/fs.c:924-984),
 with what they leave when the partition runs full, and runs of calls.
 */
module FileCalls {
  import opened Wrappers
  import opened Blocks
  import opened FileMap
  import opened FileGrowth
  import opened FindDataBlock
  import opened FileBytes

  const INT_LIMIT: nat := 0x8000_0000

  /** Where the chunk that starts at `at` ends: at the block's end or the request's. */
  function ChunkEnd(at: nat, end: nat): (e: nat)
    requires at < end
    ensures at < e <= end && Pos(at / BLOCK_SIZE, at % BLOCK_SIZE) == at
    ensures e - at <= BLOCK_SIZE - at % BLOCK_SIZE
    ensures e == end || (e % BLOCK_SIZE == 0 && e / BLOCK_SIZE == at / BLOCK_SIZE + 1)
  {
    var blockEnd := (at / BLOCK_SIZE + 1) * BLOCK_SIZE;
    if blockEnd > end then end else blockEnd
  }

  /** One pass of the write loop. A word left over in a recycled page may name a block past the
      partition; there the model stops. */
  function WritePass(fs: Fs, f: nat, at: nat, chunk: seq<Byte>, page1: Block, page2: Block, unread: Block): (p: Progress)
    requires Shape(fs) && f < |fs.files| && at < INT_LIMIT && at % BLOCK_SIZE + |chunk| <= BLOCK_SIZE
    ensures Shape(p.fs) && SameFrame(fs, p.fs)
  {
    EveryOffsetAddressable(at);
    var i := at / BLOCK_SIZE;
    var w := WalkTo(fs, f, i, page1, page2);
    var b := At(w.fs, f, Leaf(i));
    if !w.ok || b >= |fs.blocks| then Progress(w.fs, false)
    else
      var base := if |chunk| != BLOCK_SIZE then w.fs.blocks[b] else unread;
      Progress(w.fs.(blocks := w.fs.blocks[b := Overlay(base, at % BLOCK_SIZE, chunk)]), true)
  }

  /** One pass of the read loop; the bytes read are those of the state after it. */
  function ReadPass(fs: Fs, f: nat, at: nat, page1: Block, page2: Block): (p: Progress)
    requires Shape(fs) && f < |fs.files| && at < INT_LIMIT
    ensures Shape(p.fs) && SameFrame(fs, p.fs)
    ensures p.ok ==> at / BLOCK_SIZE < MAX_BLOCKS && At(p.fs, f, Leaf(at / BLOCK_SIZE)) < |fs.blocks|
  {
    EveryOffsetAddressable(at);
    var i := at / BLOCK_SIZE;
    var w := WalkTo(fs, f, i, page1, page2);
    Progress(w.fs, w.ok && At(w.fs, f, Leaf(i)) < |fs.blocks|)
  }

  /** The bytes a pass of the read loop copies. */
  function PassBytes(fs: Fs, f: nat, at: nat, n: nat): (s: seq<Byte>)
    requires Shape(fs) && f < |fs.files| && at / BLOCK_SIZE < MAX_BLOCKS && At(fs, f, Leaf(at / BLOCK_SIZE)) < |fs.blocks|
    requires at % BLOCK_SIZE + n <= BLOCK_SIZE
    ensures |s| == n
  {
    fs.blocks[At(fs, f, Leaf(at / BLOCK_SIZE))][at % BLOCK_SIZE..at % BLOCK_SIZE + n]
  }

  /** The write loop from its k-th pass on. */
  function WriteFrom(fs: Fs, f: nat, at: nat, data: seq<Byte>, k: nat, pages: nat -> Block, unread: nat -> Block): (p: Progress)
    requires Shape(fs) && f < |fs.files| && at + |data| < INT_LIMIT
    ensures Shape(p.fs) && SameFrame(fs, p.fs)
    decreases |data|
  {
    if data == [] then Progress(fs, true)
    else
      var n := ChunkEnd(at, at + |data|) - at;
      var p := WritePass(fs, f, at, data[..n], pages(2 * k), pages(2 * k + 1), unread(k));
      if !p.ok then p else WriteFrom(p.fs, f, at + n, data[n..], k + 1, pages, unread)
  }

  /** The loop at byte `b` of the request: it ends, or one pass and the rest. */
  lemma WriteUnfold(fs: Fs, f: nat, at: nat, data: seq<Byte>, b: nat, k: nat, pages: nat -> Block, unread: nat -> Block)
    requires Shape(fs) && f < |fs.files| && b <= |data| && at + (|data| - b) < INT_LIMIT
    ensures b == |data| ==> WriteFrom(fs, f, at, data[b..], k, pages, unread) == Progress(fs, true)
    ensures b < |data| ==>
              var n := ChunkEnd(at, at + (|data| - b)) - at;
              var p := WritePass(fs, f, at, data[b..b + n], pages(2 * k), pages(2 * k + 1), unread(k));
              WriteFrom(fs, f, at, data[b..], k, pages, unread) ==
              if p.ok then WriteFrom(p.fs, f, at + n, data[b + n..], k + 1, pages, unread) else p
  {
    hide Shape, WritePass;
    if b < |data| {
      var n := ChunkEnd(at, at + (|data| - b)) - at;
      assert data[b..][..n] == data[b..b + n] && data[b..][n..] == data[b + n..];
    }
  }

  datatype Reading = Reading(p: Progress, bytes: seq<Byte>)

  /** The read loop from its k-th pass on, and the bytes it copies. */
  function ReadFrom(fs: Fs, f: nat, at: nat, size: nat, k: nat, pages: nat -> Block): (r: Reading)
    requires Shape(fs) && f < |fs.files| && at + size < INT_LIMIT
    ensures Shape(r.p.fs) && SameFrame(fs, r.p.fs) && |r.bytes| <= size && (r.p.ok ==> |r.bytes| == size)
    decreases size
  {
    if size == 0 then Reading(Progress(fs, true), [])
    else
      var n := ChunkEnd(at, at + size) - at;
      var p := ReadPass(fs, f, at, pages(2 * k), pages(2 * k + 1));
      if !p.ok then Reading(p, [])
      else
        var rest := ReadFrom(p.fs, f, at + n, size - n, k + 1, pages);
        Reading(rest.p, PassBytes(p.fs, f, at, n) + rest.bytes)
  }

  lemma ReadUnfold(fs: Fs, f: nat, at: nat, size: nat, k: nat, pages: nat -> Block)
    requires Shape(fs) && f < |fs.files| && at + size < INT_LIMIT
    ensures size == 0 ==> ReadFrom(fs, f, at, size, k, pages) == Reading(Progress(fs, true), [])
    ensures 0 < size ==>
              var n := ChunkEnd(at, at + size) - at;
              var p := ReadPass(fs, f, at, pages(2 * k), pages(2 * k + 1));
              var r := ReadFrom(fs, f, at, size, k, pages);
              if p.ok then
                var rest := ReadFrom(p.fs, f, at + n, size - n, k + 1, pages);
                r == Reading(rest.p, PassBytes(p.fs, f, at, n) + rest.bytes)
              else r == Reading(p, [])
  {
    hide Shape, ReadPass, PassBytes;
  }

  /** `all` is what the loop yields that has copied `got` and goes on in state `fs`. */
  predicate ReadSoFar(all: Reading, got: seq<Byte>, fs: Fs, f: nat, at: nat, size: nat, k: nat, pages: nat -> Block) {
    && Shape(fs) && f < |fs.files| && at + size < INT_LIMIT
    && var rest := ReadFrom(fs, f, at, size, k, pages); all.p == rest.p && all.bytes == got + rest.bytes
  }

  /** A buffer that was `was` and starts with `got` now. */
  predicate StartsWith(buff: seq<Byte>, got: seq<Byte>, was: seq<Byte>) {
    |got| <= |was| && buff == got + was[|got|..]
  }

  lemma StartsAnywhere(was: seq<Byte>)
    ensures StartsWith(was, [], was)
  {
  }

  lemma ReadStarts(fs: Fs, f: nat, at: nat, size: nat, pages: nat -> Block)
    requires Shape(fs) && f < |fs.files| && at + size < INT_LIMIT
    ensures ReadSoFar(ReadFrom(fs, f, at, size, 0, pages), [], fs, f, at, size, 0, pages)
  {
    hide Shape, ReadFrom;
    assert [] + ReadFrom(fs, f, at, size, 0, pages).bytes == ReadFrom(fs, f, at, size, 0, pages).bytes;
  }

  lemma ReadAdvance(all: Reading, got: seq<Byte>, fs: Fs, f: nat, at: nat, size: nat, k: nat, pages: nat -> Block)
    requires ReadSoFar(all, got, fs, f, at, size, k, pages)
    ensures size == 0 ==> all == Reading(Progress(fs, true), got)
    ensures 0 < size ==>
              var n := ChunkEnd(at, at + size) - at;
              var p := ReadPass(fs, f, at, pages(2 * k), pages(2 * k + 1));
              if p.ok then ReadSoFar(all, got + PassBytes(p.fs, f, at, n), p.fs, f, at + n, size - n, k + 1, pages)
              else all == Reading(p, got)
  {
    hide Shape, ReadPass, PassBytes, ReadFrom;
    ReadUnfold(fs, f, at, size, k, pages);
    if 0 < size {
      var n := ChunkEnd(at, at + size) - at;
      var p := ReadPass(fs, f, at, pages(2 * k), pages(2 * k + 1));
      if p.ok {
        var rest := ReadFrom(p.fs, f, at + n, size - n, k + 1, pages).bytes;
        assert got + (PassBytes(p.fs, f, at, n) + rest) == (got + PassBytes(p.fs, f, at, n)) + rest;
      }
    }
  }

  // ----- what the passes lack -----

  /** The places on the path of file block `i`. */
  function Steps(i: nat): (s: set<Ref>)
    requires i < MAX_BLOCKS
    ensures |s| <= 3 && forall r :: r in s <==> r in Path(i)
  {
    var p := Path(i);
    if |p| == 1 then {p[0]} else if |p| == 2 then {p[0], p[1]} else {p[0], p[1], p[2]}
  }

  /** The places on the paths of file blocks `lo` to `hi - 1`. */
  function Places(lo: nat, hi: nat): (s: set<Ref>)
    requires hi <= MAX_BLOCKS
    ensures forall r | r in s :: IsRef(r)
    decreases hi - lo
  {
    if lo >= hi then {} else Steps(lo) + Places(lo + 1, hi)
  }

  /** Of those, the ones where no block is linked yet: what a request over these file blocks has to allocate. */
  ghost function Lacking(fs: Fs, f: nat, lo: nat, hi: nat): (s: set<Ref>)
    requires Shape(fs) && f < |fs.files| && hi <= MAX_BLOCKS
  {
    set r | r in Places(lo, hi) && At(fs, f, r) == 0
  }

  /** The file blocks a request touches are those from its first to before this one. */
  function BlocksEnd(at: nat, len: nat): (hi: nat)
    ensures at + len < INT_LIMIT ==> hi <= MAX_BLOCKS
  {
    if len == 0 then at / BLOCK_SIZE else (at + len - 1) / BLOCK_SIZE + 1
  }

  ghost predicate AllClean(pages: nat -> Block) {
    forall n :: Clean(pages(n))
  }

  /** A linked leaf has a linked path. */
  lemma PathLinked(fs: Fs, f: nat, i: nat, r: Ref)
    requires Shape(fs) && i < MAX_BLOCKS && Mapped(fs, f, Leaf(i)) && r in Path(i)
    ensures At(fs, f, r) != 0
  {
    hide Word;
  }

  /** Of the places in a list, the ones where no block is linked. */
  ghost function Unlinked(fs: Fs, f: nat, p: seq<Ref>): (s: set<Ref>)
    requires Shape(fs) && f < |fs.files| && forall k | 0 <= k < |p| :: IsRef(p[k])
    ensures forall r :: r in s <==> r in p && At(fs, f, r) == 0
    ensures (forall j, k | 0 <= j < k < |p| :: p[j] != p[k]) ==> |s| == UnlinkedCount(fs, f, p)
  {
    if p == [] then {}
    else
      var rest := Unlinked(fs, f, p[1..]);
      if At(fs, f, p[0]) == 0 then {p[0]} + rest else rest
  }

  ghost function UnlinkedCount(fs: Fs, f: nat, p: seq<Ref>): nat
    requires Shape(fs) && f < |fs.files| && forall k | 0 <= k < |p| :: IsRef(p[k])
  {
    if p == [] then 0 else (if At(fs, f, p[0]) == 0 then 1 else 0) + UnlinkedCount(fs, f, p[1..])
  }

  lemma PathDistinct(i: nat)
    requires i < MAX_BLOCKS
    ensures forall j, k | 0 <= j < k < |Path(i)| :: Path(i)[j] != Path(i)[k]
  {
    hide Leaf;
    var p := Path(i);
    assert |p| == 3 ==> Parent(p[2]) == Some(p[1]) && Parent(p[1]) == Some(p[0]);
  }

  lemma MissingIsCount(fs: Fs, f: nat, i: nat)
    requires Shape(fs) && f < |fs.files| && i < MAX_BLOCKS
    ensures Missing(fs, f, i) == UnlinkedCount(fs, f, Path(i))
  {
    hide At, Leaf, Path;
    var p := Path(i);
    if |p| == 1 {
      assert p[1..] == [];
    } else if |p| == 2 {
      assert p[1..] == [p[1]] && [p[1]][1..] == [];
      assert UnlinkedCount(fs, f, [p[1]]) == if At(fs, f, p[1]) == 0 then 1 else 0;
    } else {
      assert p[1..] == [p[1], p[2]] && [p[1], p[2]][1..] == [p[2]] && [p[2]][1..] == [];
      assert UnlinkedCount(fs, f, [p[2]]) == if At(fs, f, p[2]) == 0 then 1 else 0;
      assert UnlinkedCount(fs, f, [p[1], p[2]]) == (if At(fs, f, p[1]) == 0 then 1 else 0) + UnlinkedCount(fs, f, [p[2]]);
    }
  }

  lemma MissingIsLacking(fs: Fs, f: nat, i: nat)
    requires Shape(fs) && f < |fs.files| && i < MAX_BLOCKS
    ensures Missing(fs, f, i) == |Lacking(fs, f, i, i + 1)|
  {
    hide At, Leaf, Path, Missing, UnlinkedCount;
    assert Places(i, i + 1) == Steps(i);
    assert Lacking(fs, f, i, i + 1) == Unlinked(fs, f, Path(i));
    PathDistinct(i);
    MissingIsCount(fs, f, i);
  }

  /** What the walk of a pass does to the map and to the free blocks. */
  ghost predicate Walked(fs: Fs, n: Fs, f: nat, i: nat)
    requires i < MAX_BLOCKS
  {
    && Forest(n) && SameFrame(fs, n) && Shape(fs) && f < |fs.files| && Mapped(n, f, Leaf(i)) && At(n, f, Leaf(i)) < |n.blocks|
    && |Free(fs)| == |Free(n)| + |Lacking(fs, f, i, i + 1)|
    && forall r | IsRef(r) :: At(n, f, r) == 0 <==> At(fs, f, r) == 0 && r !in Path(i)
  }

  lemma WalkWalks(fs: Fs, f: nat, i: nat, page1: Block, page2: Block)
    requires Forest(fs) && f < |fs.files| && i < MAX_BLOCKS && PagesOk(fs, f, i, page1, page2)
    ensures var w := WalkTo(fs, f, i, page1, page2);
            && GrowsAlong(fs, w.fs, f, Path(i)) && KeepsData(fs, w.fs)
            && (w.ok <==> |Lacking(fs, f, i, i + 1)| <= |Free(fs)|)
            && (w.ok ==> Walked(fs, w.fs, f, i))
  {
    hide At, PagesOk, WalkTo, FindBlock, Missing, KeepsData, Clean, Lacking;
    var w := WalkTo(fs, f, i, page1, page2);
    MissingIsLacking(fs, f, i);
    FullWalkGrows(fs, f, i, page1, page2);
    FindBlockGrows(fs, f, i, page1, page2);
    if w.ok {
      forall r | IsRef(r)
        ensures At(w.fs, f, r) == 0 <==> At(fs, f, r) == 0 && r !in Path(i)
      {
        if r in Path(i) {
          PathLinked(w.fs, f, i, r);
        }
      }
    }
  }

  // ----- passes -----

  lemma ShapeOf(fs: Fs)
    requires Forest(fs)
    ensures Shape(fs)
  {
  }

  /** How a pass or a call moves the map: Walked, and no byte outside [lo, hi) of the file. */
  lemma WriteWalked(fs: Fs, n: Fs, m: Fs, f: nat, i: nat, x: Block)
    requires i < MAX_BLOCKS && Forest(fs) && Walked(fs, n, f, i) && m == n.(blocks := n.blocks[At(n, f, Leaf(i)) := x])
    ensures Walked(fs, m, f, i)
  {
    hide At, Leaf, Path, Lacking;
    DataWriteUnseen(n, f, i, x);
    assert Free(m) == Free(n);
  }

  /** What the pass does to the block the walk found. */
  lemma PassStores(fs: Fs, n: Fs, f: nat, at: nat, chunk: seq<Byte>, unread: Block)
    requires Forest(fs) && at < INT_LIMIT && at / BLOCK_SIZE < MAX_BLOCKS && at % BLOCK_SIZE + |chunk| <= BLOCK_SIZE
    requires Walked(fs, n, f, at / BLOCK_SIZE) && GrowsAlong(fs, n, f, Path(at / BLOCK_SIZE)) && KeepsData(fs, n)
    ensures var b := At(n, f, Leaf(at / BLOCK_SIZE));
            && b < |fs.blocks| == |n.blocks|
            && var base := if |chunk| != BLOCK_SIZE then n.blocks[b] else unread;
               var m := n.(blocks := n.blocks[b := Overlay(base, at % BLOCK_SIZE, chunk)]);
               Walked(fs, m, f, at / BLOCK_SIZE) && Wrote(fs, m, f, at, chunk)
  {
    hide At, Leaf, Path, Overlay, Wrote, Lacking, GrowsAlong, KeepsData, Free, Injective, InData;
    var i := at / BLOCK_SIZE;
    var b := At(n, f, Leaf(i));
    var base := if |chunk| != BLOCK_SIZE then n.blocks[b] else unread;
    ChunkWritten(fs, n, f, i, at % BLOCK_SIZE, chunk, base);
    WriteWalked(fs, n, n.(blocks := n.blocks[b := Overlay(base, at % BLOCK_SIZE, chunk)]), f, i, Overlay(base, at % BLOCK_SIZE, chunk));
  }

  /** One pass of the write loop with clean pages: it fails exactly when the path lacks more blocks than
      are free, and then it has changed no byte. */
  lemma PassWrites(fs: Fs, f: nat, at: nat, chunk: seq<Byte>, page1: Block, page2: Block, unread: Block)
    requires Forest(fs) && f < |fs.files| && at < INT_LIMIT && at % BLOCK_SIZE + |chunk| <= BLOCK_SIZE
    requires Clean(page1) && Clean(page2)
    ensures var p, i := WritePass(fs, f, at, chunk, page1, page2, unread), at / BLOCK_SIZE;
            && i < MAX_BLOCKS && (p.ok <==> |Lacking(fs, f, i, i + 1)| <= |Free(fs)|)
            && (p.ok ==> Walked(fs, p.fs, f, i) && Wrote(fs, p.fs, f, at, chunk))
            && (!p.ok ==> DidRead(fs, p.fs, f, at, []))
  {
    hide At, Leaf, Path, Overlay, FindBlock, WalkTo, Wrote, DidRead, Lacking, Clean, GrowsAlong, KeepsData, Free, PagesOk, Walked, Forest, Shape;
    EveryOffsetAddressable(at);
    ShapeOf(fs);
    var i := at / BLOCK_SIZE;
    CleanPagesOk(fs, f, i, page1, page2);
    WalkWalks(fs, f, i, page1, page2);
    var w := WalkTo(fs, f, i, page1, page2);
    if w.ok {
      PassStores(fs, w.fs, f, at, chunk, unread);
    } else {
      WalkReadsNothing(fs, w.fs, f, i, at);
    }
  }

  /** One pass of the read loop with clean pages. */
  lemma PassReads(fs: Fs, f: nat, at: nat, n: nat, page1: Block, page2: Block)
    requires Forest(fs) && f < |fs.files| && at < INT_LIMIT && at % BLOCK_SIZE + n <= BLOCK_SIZE
    requires Clean(page1) && Clean(page2)
    ensures var p, i := ReadPass(fs, f, at, page1, page2), at / BLOCK_SIZE;
            && i < MAX_BLOCKS && (p.ok <==> |Lacking(fs, f, i, i + 1)| <= |Free(fs)|)
            && (p.ok ==> Walked(fs, p.fs, f, i) && DidRead(fs, p.fs, f, at, PassBytes(p.fs, f, at, n)))
            && (!p.ok ==> DidRead(fs, p.fs, f, at, []))
  {
    hide At, Leaf, Path, FindBlock, WalkTo, DidRead, Lacking, Clean, GrowsAlong, KeepsData;
    EveryOffsetAddressable(at);
    var i, o := at / BLOCK_SIZE, at % BLOCK_SIZE;
    CleanPagesOk(fs, f, i, page1, page2);
    WalkWalks(fs, f, i, page1, page2);
    var w := WalkTo(fs, f, i, page1, page2);
    if w.ok {
      ChunkRead(fs, w.fs, f, i, o, n);
    } else {
      WalkReadsNothing(fs, w.fs, f, i, at);
    }
  }

  lemma WalkReadsNothing(fs: Fs, n: Fs, f: nat, i: nat, at: nat)
    requires Forest(fs) && i < MAX_BLOCKS && GrowsAlong(fs, n, f, Path(i)) && KeepsData(fs, n)
    ensures DidRead(fs, n, f, at, [])
  {
    hide At, Path, Preserves, Injective, InData;
    WalkPreserves(fs, n, f, i, at);
  }

  lemma CleanPagesOk(fs: Fs, f: nat, i: nat, page1: Block, page2: Block)
    requires Shape(fs) && f < |fs.files| && i < MAX_BLOCKS && Clean(page1) && Clean(page2)
    ensures PagesOk(fs, f, i, page1, page2)
  {
  }

  // ----- calls -----

  /** How many blocks a request has to allocate, whatever it shares between its file blocks. */
  ghost function Needed(fs: Fs, f: nat, at: nat, len: nat): nat
    requires Shape(fs) && f < |fs.files| && at + len < INT_LIMIT
  {
    |Lacking(fs, f, at / BLOCK_SIZE, BlocksEnd(at, len))|
  }

  lemma WalkedShape(fs: Fs, n: Fs, f: nat, i: nat)
    requires i < MAX_BLOCKS && Walked(fs, n, f, i)
    ensures Shape(fs) && Shape(n) && f < |fs.files| && f < |n.files|
  {
  }

  lemma LackingSplit(fs: Fs, n: Fs, f: nat, i: nat, hi: nat)
    requires i < hi <= MAX_BLOCKS && Walked(fs, n, f, i)
    ensures |Lacking(fs, f, i, hi)| == |Lacking(fs, f, i, i + 1)| + |Lacking(n, f, i + 1, hi)|
  {
    hide At, Leaf, Path, Forest;
    WalkedShape(fs, n, f, i);
    var a, b := Lacking(fs, f, i, i + 1), Lacking(n, f, i + 1, hi);
    assert Places(i, i + 1) == Steps(i);
    assert Lacking(fs, f, i, hi) == a + b;
    assert a !! b;
  }

  lemma NeededSplit(fs: Fs, n: Fs, f: nat, at: nat, len: nat, end: nat)
    requires 0 < len && at + len < INT_LIMIT && at / BLOCK_SIZE < MAX_BLOCKS && end == ChunkEnd(at, at + len)
    requires Walked(fs, n, f, at / BLOCK_SIZE)
    ensures |Lacking(fs, f, at / BLOCK_SIZE, at / BLOCK_SIZE + 1)| + Needed(n, f, end, at + len - end) == Needed(fs, f, at, len)
  {
    hide Walked, Lacking, Forest;
    EveryOffsetAddressable(end);
    var i, hi := at / BLOCK_SIZE, BlocksEnd(at, len);
    WalkedShape(fs, n, f, i);
    if end == at + len {
      assert hi == i + 1;
      NothingLacking(n, f, end / BLOCK_SIZE);
    } else {
      assert end / BLOCK_SIZE == i + 1 && BlocksEnd(end, at + len - end) == hi;
      LackingSplit(fs, n, f, i, hi);
    }
  }

  lemma NothingLacking(fs: Fs, f: nat, i: nat)
    requires Shape(fs) && f < |fs.files| && i <= MAX_BLOCKS
    ensures |Lacking(fs, f, i, i)| == 0
  {
    assert Lacking(fs, f, i, i) == {};
  }

  /** A write that stops has written a part of its bytes, from the first on, and nothing else. */
  ghost predicate WrotePart(fs: Fs, n: Fs, f: nat, at: nat, data: seq<Byte>) {
    exists j: nat | j <= |data| :: Wrote(fs, n, f, at, data[..j])
  }

  /** A whole write with clean pages: it goes through exactly when there are as many free blocks as the
      paths of its file blocks lack; then its bytes are there and nothing else has changed; else a part is. */
  lemma {:induction false} WriteExact(fs: Fs, f: nat, at: nat, data: seq<Byte>, k: nat, pages: nat -> Block, unread: nat -> Block)
    requires Forest(fs) && f < |fs.files| && at + |data| < INT_LIMIT && AllClean(pages)
    ensures var p := WriteFrom(fs, f, at, data, k, pages, unread);
            && Forest(p.fs) && (p.ok <==> Needed(fs, f, at, |data|) <= |Free(fs)|)
            && (p.ok ==> Wrote(fs, p.fs, f, at, data))
            && (!p.ok ==> WrotePart(fs, p.fs, f, at, data))
    decreases |data|
  {
    hide Forest, Wrote, DidRead, Walked, Lacking, Clean, WritePass, Free, At, Leaf, Needed, ChunkEnd, BlocksEnd, Shape;
    ShapeOf(fs);
    EveryOffsetAddressable(at);
    if data == [] {
      NothingNeeded(fs, f, at);
      NothingWritten(fs, f, at);
    } else {
      var end := ChunkEnd(at, at + |data|);
      var n := end - at;
      var chunk, rest := data[..n], data[n..];
      assert chunk + rest == data;
      PassWrites(fs, f, at, chunk, pages(2 * k), pages(2 * k + 1), unread(k));
      var p := WritePass(fs, f, at, chunk, pages(2 * k), pages(2 * k + 1), unread(k));
      if p.ok {
        WroteForest(fs, p.fs, f, at, chunk);
        NeededSplit(fs, p.fs, f, at, |data|, end);
        FreeAfter(fs, p.fs, f, at / BLOCK_SIZE);
        WriteExact(p.fs, f, end, rest, k + 1, pages, unread);
        ThenWrites(fs, p.fs, WriteFrom(p.fs, f, end, rest, k + 1, pages, unread), f, at, chunk, rest);
      } else {
        PartOfNone(fs, p.fs, f, at, data);
        NeededMore(fs, f, at, |data|);
      }
    }
  }

  lemma NothingNeeded(fs: Fs, f: nat, at: nat)
    requires Shape(fs) && f < |fs.files| && at < INT_LIMIT
    ensures Needed(fs, f, at, 0) == 0
  {
    EveryOffsetAddressable(at);
    NothingLacking(fs, f, at / BLOCK_SIZE);
  }

  lemma NothingWritten(fs: Fs, f: nat, lo: nat)
    requires Forest(fs)
    ensures Wrote(fs, fs, f, lo, []) && DidRead(fs, fs, f, lo, [])
  {
  }

  lemma WroteForest(fs: Fs, n: Fs, f: nat, at: nat, data: seq<Byte>)
    requires Wrote(fs, n, f, at, data)
    ensures Forest(n)
  {
  }

  lemma FreeAfter(fs: Fs, n: Fs, f: nat, i: nat)
    requires i < MAX_BLOCKS && Walked(fs, n, f, i)
    ensures |Free(fs)| == |Free(n)| + |Lacking(fs, f, i, i + 1)|
  {
  }

  lemma ThenWrites(fs: Fs, n: Fs, p: Progress, f: nat, at: nat, d: seq<Byte>, e: seq<Byte>)
    requires Wrote(fs, n, f, at, d) && (p.ok ==> Wrote(n, p.fs, f, at + |d|, e)) && (!p.ok ==> WrotePart(n, p.fs, f, at + |d|, e))
    ensures p.ok ==> Wrote(fs, p.fs, f, at, d + e)
    ensures !p.ok ==> WrotePart(fs, p.fs, f, at, d + e)
  {
    hide Wrote;
    if p.ok {
      WroteTrans(fs, n, p.fs, f, at, d, e);
    } else {
      var j: nat :| j <= |e| && Wrote(n, p.fs, f, at + |d|, e[..j]);
      WroteTrans(fs, n, p.fs, f, at, d, e[..j]);
      assert d + e[..j] == (d + e)[..|d| + j];
    }
  }

  lemma PartOfNone(fs: Fs, n: Fs, f: nat, at: nat, data: seq<Byte>)
    requires DidRead(fs, n, f, at, [])
    ensures WrotePart(fs, n, f, at, data) && Forest(n)
  {
    hide Preserves, Forest;
    assert data[..0] == [];
    assert Wrote(fs, n, f, at, data[..0]);
  }

  /** The first block's needs are part of the request's. */
  lemma NeededMore(fs: Fs, f: nat, at: nat, len: nat)
    requires Shape(fs) && f < |fs.files| && 0 < len && at + len < INT_LIMIT
    ensures at / BLOCK_SIZE < MAX_BLOCKS && |Lacking(fs, f, at / BLOCK_SIZE, at / BLOCK_SIZE + 1)| <= Needed(fs, f, at, len)
  {
    hide At, Path, Places, Shape;
    EveryOffsetAddressable(at);
    var i, hi := at / BLOCK_SIZE, BlocksEnd(at, len);
    BeyondFirst(at, len);
    PlacesGrow(i, hi);
    LackingGrows(fs, f, i, hi);
    SubsetSize(Lacking(fs, f, i, i + 1), Lacking(fs, f, i, hi));
  }

  lemma BeyondFirst(at: nat, len: nat)
    requires 0 < len && at + len < INT_LIMIT
    ensures at / BLOCK_SIZE < BlocksEnd(at, len) <= MAX_BLOCKS
  {
  }

  lemma LackingGrows(fs: Fs, f: nat, i: nat, hi: nat)
    requires Shape(fs) && f < |fs.files| && i < hi <= MAX_BLOCKS && Places(i, i + 1) <= Places(i, hi)
    ensures Lacking(fs, f, i, i + 1) <= Lacking(fs, f, i, hi)
  {
    hide At, Path, Places, Shape;
  }

  lemma PlacesGrow(i: nat, hi: nat)
    requires i < hi <= MAX_BLOCKS
    ensures Places(i, i + 1) <= Places(i, hi)
  {
    hide Path;
  }

  lemma {:induction false} SubsetSize(a: set<Ref>, b: set<Ref>)
    requires a <= b
    ensures |a| <= |b|
  {
    if a == {} {
    } else {
      var x :| x in a;
      SubsetSize(a - {x}, b - {x});
    }
  }

  /** A whole read with clean pages: it goes through exactly when holes in the span can be filled; its bytes
      are those of the file, and no byte of any file changes whether it goes through or not. */
  lemma {:induction false} ReadExact(fs: Fs, f: nat, at: nat, size: nat, k: nat, pages: nat -> Block)
    requires Forest(fs) && f < |fs.files| && at + size < INT_LIMIT && AllClean(pages)
    ensures var r := ReadFrom(fs, f, at, size, k, pages);
            && Forest(r.p.fs) && (r.p.ok <==> Needed(fs, f, at, size) <= |Free(fs)|)
            && DidRead(fs, r.p.fs, f, at, r.bytes)
    decreases size
  {
    hide Forest, Wrote, DidRead, Walked, Lacking, Clean, ReadPass, PassBytes, Free, At, Leaf, Needed, ChunkEnd, BlocksEnd, Shape;
    ShapeOf(fs);
    EveryOffsetAddressable(at);
    if size == 0 {
      NothingNeeded(fs, f, at);
      NothingWritten(fs, f, at);
    } else {
      var end := ChunkEnd(at, at + size);
      PassReads(fs, f, at, end - at, pages(2 * k), pages(2 * k + 1));
      var p := ReadPass(fs, f, at, pages(2 * k), pages(2 * k + 1));
      if p.ok {
        var got := PassBytes(p.fs, f, at, end - at);
        ReadForest(fs, p.fs, f, at, got);
        NeededSplit(fs, p.fs, f, at, size, end);
        FreeAfter(fs, p.fs, f, at / BLOCK_SIZE);
        ReadExact(p.fs, f, end, at + size - end, k + 1, pages);
        ThenReads(fs, p.fs, ReadFrom(p.fs, f, end, at + size - end, k + 1, pages), f, at, got);
      } else {
        ReadForest(fs, p.fs, f, at, []);
        NeededMore(fs, f, at, size);
      }
    }
  }

  lemma ThenReads(fs: Fs, n: Fs, r: Reading, f: nat, at: nat, d: seq<Byte>)
    requires DidRead(fs, n, f, at, d) && DidRead(n, r.p.fs, f, at + |d|, r.bytes)
    ensures DidRead(fs, r.p.fs, f, at, d + r.bytes)
  {
    DidReadTrans(fs, n, r.p.fs, f, at, d, r.bytes);
  }

  lemma ReadForest(fs: Fs, n: Fs, f: nat, at: nat, data: seq<Byte>)
    requires DidRead(fs, n, f, at, data)
    ensures Forest(n)
  {
  }

  // ----- how much a request needs -----

  lemma StepsInPath(i: nat, r: Ref)
    requires i < MAX_BLOCKS && r in Steps(i)
    ensures r in Path(i)
  {
    hide Path;
  }

  lemma PlacesOf(lo: nat, hi: nat, r: Ref) returns (i: nat)
    requires hi <= MAX_BLOCKS && r in Places(lo, hi)
    ensures lo <= i < hi && r in Path(i)
    decreases hi - lo
  {
    hide Path, Steps, IsRef;
    if r in Steps(lo) {
      StepsInPath(lo, r);
      i := lo;
    } else {
      i := PlacesOf(lo + 1, hi, r);
    }
  }

  /** A span that holds bytes needs nothing. */
  lemma HoldsNeeds(fs: Fs, f: nat, at: nat, data: seq<Byte>)
    requires Shape(fs) && f < |fs.files| && at + |data| < INT_LIMIT && Holds(fs, f, at, data)
    ensures Needed(fs, f, at, |data|) == 0
  {
    hide At, Leaf, Path;
    EveryOffsetAddressable(at);
    var lo, hi := at / BLOCK_SIZE, BlocksEnd(at, |data|);
    forall r | r in Places(lo, hi)
      ensures At(fs, f, r) != 0
    {
      var i := PlacesOf(lo, hi, r);
      var o := if i == lo then at % BLOCK_SIZE else 0;
      assert at <= Pos(i, o) < at + |data|;
      assert Readable(fs, f, i);
      PathLinked(fs, f, i, r);
    }
    assert Lacking(fs, f, lo, hi) == {};
  }

  /** And no span needs more than three blocks for each file block it touches. */
  lemma NeededBound(fs: Fs, f: nat, at: nat, len: nat)
    requires Shape(fs) && f < |fs.files| && at + len < INT_LIMIT
    ensures at / BLOCK_SIZE <= BlocksEnd(at, len) && Needed(fs, f, at, len) <= 3 * (BlocksEnd(at, len) - at / BLOCK_SIZE)
  {
    EveryOffsetAddressable(at);
    PlacesBound(at / BLOCK_SIZE, BlocksEnd(at, len));
    SubsetSize(Lacking(fs, f, at / BLOCK_SIZE, BlocksEnd(at, len)), Places(at / BLOCK_SIZE, BlocksEnd(at, len)));
  }

  lemma {:induction false} PlacesBound(lo: nat, hi: nat)
    requires lo <= hi <= MAX_BLOCKS
    ensures |Places(lo, hi)| <= 3 * (hi - lo)
    decreases hi - lo
  {
    hide Path, Steps;
    if lo == hi {
    } else {
      PlacesBound(lo + 1, hi);
      UnionSize(Steps(lo), Places(lo + 1, hi));
    }
  }

  lemma UnionSize(a: set<Ref>, b: set<Ref>)
    ensures |a + b| <= |a| + |b|
  {
    assert a + b == a + (b - a);
    SubsetSize(b - a, b);
  }

  /** Writing, then reading the same span: the read cannot fail and yields exactly the bytes written,
      at every offset and length, and over all the boundaries between. */
  lemma WriteThenRead(fs: Fs, f: nat, at: nat, data: seq<Byte>, k: nat, m: nat, pages: nat -> Block, unread: nat -> Block)
    requires Forest(fs) && f < |fs.files| && at + |data| < INT_LIMIT && AllClean(pages)
    requires WriteFrom(fs, f, at, data, k, pages, unread).ok
    ensures var r := ReadFrom(WriteFrom(fs, f, at, data, k, pages, unread).fs, f, at, |data|, m, pages); r.p.ok && r.bytes == data
    ensures Wrote(fs, ReadFrom(WriteFrom(fs, f, at, data, k, pages, unread).fs, f, at, |data|, m, pages).p.fs, f, at, data)
  {
    hide Forest, At, Leaf, WriteFrom, ReadFrom, AllClean, Needed, Preserves, Holds;
    ShapeOf(fs);
    var w := WriteFrom(fs, f, at, data, k, pages, unread).fs;
    WriteExact(fs, f, at, data, k, pages, unread);
    HoldsNeeds(w, f, at, data);
    ReadExact(w, f, at, |data|, m, pages);
    var r := ReadFrom(w, f, at, |data|, m, pages);
    HoldsKept(w, r.p.fs, f, at, data);
    HoldsUnique(r.p.fs, f, at, r.bytes, data);
    PreservesEmpty(w, r.p.fs, f, at, at + |data|);
    PreservesTrans(fs, w, r.p.fs, f, at, at + |data|, at + |data|);
  }
}
