/**
 What one call of find_data_block guarantees (fs/fs.c:848-922), and exactly
 when: the pages block_get hands out unread for new pointer blocks must be
 zero, because memset(p, 0, sizeof(BLOCK_SIZE)) clears only four bytes.
 */
module FindDataBlock {
  import opened Wrappers
  import opened Blocks
  import opened FileMap
  import opened FileGrowth

  lemma StepGrows(fs: Fs, m: Fs, f: nat, done: seq<Ref>, r: Ref, page: Block)
    requires GrowsAlong(fs, m, f, done) && KeepsData(fs, m)
    requires f < |fs.files| && IsRef(r) && ParentMapped(m, f, r) && r !in done
    requires IsPointer(r) && At(fs, f, r) == 0 ==> Clean(page)
    ensures var o := Ensure(m, f, r, page);
            if o.None? then |Free(m)| == 0 && At(fs, f, r) == 0
            else && GrowsAlong(fs, o.value, f, done + [r]) && KeepsData(fs, o.value) && Mapped(o.value, f, r)
                 && |Free(m)| == |Free(o.value)| + if At(fs, f, r) == 0 then 1 else 0
  {
    hide At, Ensure, Clean;
    assert At(m, f, r) == At(fs, f, r);
    EnsureGrows(m, f, r, page);
    var o := Ensure(m, f, r, page);
    if o.Some? {
      GrowsTrans(fs, m, o.value, f, done, [r]);
    }
  }

  /** One call extends the forest along one path, or fails exactly when too few blocks are free. */
  lemma FindBlockGrows(fs: Fs, f: nat, i: nat, page1: Block, page2: Block)
    requires Forest(fs) && f < |fs.files| && i < MAX_BLOCKS && PagesOk(fs, f, i, page1, page2)
    ensures var o := FindBlock(fs, f, i, page1, page2);
            && (o.None? <==> |Free(fs)| < Missing(fs, f, i))
            && (o.Some? ==>
                  && GrowsAlong(fs, o.value, f, Path(i)) && KeepsData(fs, o.value) && Mapped(o.value, f, Leaf(i))
                  && |Free(fs)| == |Free(o.value)| + Missing(fs, f, i) && SizesGrow(fs, o.value, f, i + 1))
  {
    hide At, Ensure, Grow, Clean, Leaf, GrowsAlong, KeepsData, SizesGrow;
    WalkSizes(fs, f, i, page1, page2);
    var p := Path(i);
    GrowForest(fs, f, i);
    StepGrows(fs, Grow(fs, f, i), f, [], p[0], page1);
    var o1 := Ensure(Grow(fs, f, i), f, p[0], page1);
    assert [] + [p[0]] == p[..1] && p[..|p|] == p;
    if |p| > 1 && o1.Some? {
      StepGrows(fs, o1.value, f, p[..1], p[1], page2);
      var o2 := Ensure(o1.value, f, p[1], page2);
      assert p[..1] + [p[1]] == p[..2];
      if |p| > 2 && o2.Some? {
        StepGrows(fs, o2.value, f, p[..2], p[2], page2);
        assert p[..2] + [p[2]] == p;
      }
    }
  }

  lemma GrowsAlongMore(fs: Fs, n: Fs, f: nat, path: seq<Ref>, more: seq<Ref>)
    requires GrowsAlong(fs, n, f, path) && path <= more
    ensures GrowsAlong(fs, n, f, more)
  {
    hide At;
  }

  /** A call that finds the partition full has linked part of the path, and still nothing else. */
  lemma FullWalkGrows(fs: Fs, f: nat, i: nat, page1: Block, page2: Block)
    requires Forest(fs) && f < |fs.files| && i < MAX_BLOCKS && PagesOk(fs, f, i, page1, page2)
    ensures var w := WalkTo(fs, f, i, page1, page2); GrowsAlong(fs, w.fs, f, Path(i)) && KeepsData(fs, w.fs)
  {
    hide At, Ensure, Grow, Clean, Leaf, GrowsAlong, KeepsData;
    var p := Path(i);
    var s0 := Grow(fs, f, i);
    GrowForest(fs, f, i);
    GrowsAlongMore(fs, s0, f, [], p);
    StepGrows(fs, s0, f, [], p[0], page1);
    var o1 := Ensure(s0, f, p[0], page1);
    assert [] + [p[0]] == p[..1] && p[..|p|] == p;
    if o1.Some? {
      GrowsAlongMore(fs, o1.value, f, p[..1], p);
      if |p| > 1 {
        StepGrows(fs, o1.value, f, p[..1], p[1], page2);
        var o2 := Ensure(o1.value, f, p[1], page2);
        assert p[..1] + [p[1]] == p[..2];
        if o2.Some? {
          GrowsAlongMore(fs, o2.value, f, p[..2], p);
          if |p| > 2 {
            StepGrows(fs, o2.value, f, p[..2], p[2], page2);
            assert p[..2] + [p[2]] == p;
          }
        }
      }
    }
  }

  /** Allocation never overwrites a block number that is already stored in a used block. */
  lemma StoredNumbersStay(fs: Fs, f: nat, r: Ref, page: Block, c: nat, j: nat)
    requires Shape(fs) && f < |fs.files| && IsRef(r) && 0 < c < |fs.blocks| && c in fs.used && j < ADDR_PER_BLOCK
    requires Word(fs.blocks[c], j) != 0
    ensures var o := Ensure(fs, f, r, page);
            o.Some? ==> Word(o.value.blocks[c], j) == Word(fs.blocks[c], j) && fs.used <= o.value.used
  {
    hide Word, PutWord, Cleared;
  }

  /** What a successful Ensure does to the used set and to the inode, whatever the page held. */
  lemma EnsureAllocates(fs: Fs, f: nat, r: Ref, page: Block)
    requires Shape(fs) && f < |fs.files| && IsRef(r)
    requires Parent(r).Some? ==> 0 < At(fs, f, Parent(r).value) < |fs.blocks|
    ensures var o := Ensure(fs, f, r, page);
            o.Some? ==>
              && At(o.value, f, r) != 0
              && (At(fs, f, r) != 0 ==> o.value == fs)
              && (At(fs, f, r) == 0 ==> At(o.value, f, r) !in fs.used && o.value.used == fs.used + {At(o.value, f, r)})
  {
    hide Word, PutWord, Cleared;
  }

  /** The place for word `j` of the pointer block linked at `r`. */
  function Child(r: Ref, j: nat): (c: Ref)
    requires IsPointer(r) && IsRef(r) && j < ADDR_PER_BLOCK
    ensures IsRef(c) && Parent(c) == Some(r)
  {
    match r
    case Single => InSingle(j)
    case Double => Mid(j)
    case Mid(m) => InDouble(m, j)
  }

  /** A page word left over in a newly linked pointer block is a block number of the file. */
  lemma LeftoverSeen(fs: Fs, f: nat, r: Ref, page: Block, j: nat)
    requires Shape(fs) && f < |fs.files| && IsRef(r) && IsPointer(r) && At(fs, f, r) == 0
    requires Parent(r).Some? ==> 0 < At(fs, f, Parent(r).value) < |fs.blocks| && At(fs, f, Parent(r).value) in fs.used
    requires 1 <= j < ADDR_PER_BLOCK && Word(page, j) != 0
    ensures var o := Ensure(fs, f, r, page);
            o.Some? ==>
              var b := At(o.value, f, r);
              0 < b < |o.value.blocks| && b in o.value.used && Word(o.value.blocks[b], j) == Word(page, j)
  {
    hide Word, PutWord, Cleared;
  }

  /** Ensure at a place below `r` leaves the number at `r` alone. */
  lemma EnsureBelow(fs: Fs, f: nat, r: Ref, below: Ref, page: Block)
    requires Shape(fs) && f < |fs.files| && IsRef(r) && IsRef(below)
    requires (r == Single && below.InSingle?) || (r == Double && (below.Mid? || below.InDouble?))
    ensures var o := Ensure(fs, f, below, page);
            o.Some? ==> At(o.value, f, r) == At(fs, f, r)
  {
    hide Word, PutWord, Cleared;
  }

  /** In a clean growth that took at most the blocks at r1 and r2, only r1 and r2 are newly mapped. */
  lemma NewRefsAreAllocations(fs: Fs, n: Fs, f: nat, path: seq<Ref>, r: Ref, r1: Ref, r2: Ref)
    requires GrowsAlong(fs, n, f, path) && f < |fs.files| && IsRef(r) && IsRef(r1) && IsRef(r2)
    requires n.used <= fs.used + {At(n, f, r1), At(n, f, r2)}
    requires At(fs, f, r) == 0 && At(n, f, r) != 0
    ensures r == r1 || r == r2
  {
    hide At;
    assert Mapped(n, f, r) && At(n, f, r) in n.used && At(n, f, r) !in fs.used;
    assert At(n, f, r) == At(n, f, r1) || At(n, f, r) == At(n, f, r2);
  }

  lemma ChangedOnPath(fs: Fs, n: Fs, f: nat, path: seq<Ref>, r: Ref)
    requires GrowsAlong(fs, n, f, path) && f < |fs.files| && IsRef(r) && At(n, f, r) != At(fs, f, r)
    ensures r in path && 0 < At(n, f, r) < |n.blocks|
  {
    hide At;
    assert Mapped(n, f, r);
  }

  /** A dirty page for the first pointer block of the path breaks the block map. */
  lemma DirtyFirstPage(fs: Fs, f: nat, i: nat, page1: Block, page2: Block, j: nat)
    requires Forest(fs) && f < |fs.files| && i < MAX_BLOCKS && |Path(i)| >= 2
    requires At(fs, f, Path(i)[0]) == 0 && 1 <= j < ADDR_PER_BLOCK && Word(page1, j) != 0
    requires FindBlock(fs, f, i, page1, page2).Some?
    ensures !GrowsAlong(fs, FindBlock(fs, f, i, page1, page2).value, f, Path(i))
  {
    hide Word, PutWord, Cleared, Ensure, Grow, Leaf, GrowsAlong, Injective, InData;
    var p := Path(i);
    var n := FindBlock(fs, f, i, page1, page2).value;
    var s0 := Grow(fs, f, i);
    GrowForest(fs, f, i);
    var s1 := Ensure(s0, f, p[0], page1).value;
    LeftoverSeen(s0, f, p[0], page1, j);
    EnsureAllocates(s0, f, p[0], page1);
    var b := At(s1, f, p[0]);
    EnsureBelow(s1, f, p[0], p[1], page2);
    EnsureAllocates(s1, f, p[1], page2);
    StoredNumbersStay(s1, f, p[1], page2, b, j);
    var s2 := Ensure(s1, f, p[1], page2).value;
    if |p| == 3 {
      EnsureBelow(s2, f, p[0], p[2], page2);
      StoredNumbersStay(s2, f, p[2], page2, b, j);
    }
    var c := Child(p[0], j);
    assert At(n, f, p[0]) == b && At(n, f, c) == Word(page1, j) && At(fs, f, c) == 0;
    if GrowsAlong(fs, n, f, p) {
      ChangedOnPath(fs, n, f, p, c);
      assert c == p[1] && s2 == s1;
      if |p| == 3 {
        EnsureAllocates(s2, f, p[2], page2);
      }
      NewRefsAreAllocations(fs, n, f, p, p[1], p[0], if |p| == 3 then p[2] else p[0]);
    }
  }

  /** So does a dirty page for the second pointer block. */
  lemma DirtySecondPage(fs: Fs, f: nat, i: nat, page1: Block, page2: Block, j: nat)
    requires Forest(fs) && f < |fs.files| && i < MAX_BLOCKS && |Path(i)| == 3
    requires At(fs, f, Path(i)[0]) == 0 ==> Clean(page1)
    requires At(fs, f, Path(i)[1]) == 0 && 1 <= j < ADDR_PER_BLOCK && Word(page2, j) != 0
    requires FindBlock(fs, f, i, page1, page2).Some?
    ensures !GrowsAlong(fs, FindBlock(fs, f, i, page1, page2).value, f, Path(i))
  {
    hide Word, PutWord, Cleared, Ensure, Grow, Leaf, Clean, GrowsAlong, KeepsData, Injective, InData;
    var p := Path(i);
    var n := FindBlock(fs, f, i, page1, page2).value;
    var s0 := Grow(fs, f, i);
    GrowForest(fs, f, i);
    var s1 := Ensure(s0, f, p[0], page1).value;
    StepGrows(fs, s0, f, [], p[0], page1);
    EnsureAllocates(s0, f, p[0], page1);
    assert [] + [p[0]] == [p[0]];
    UntouchedBy(fs, s1, f, [p[0]], p[0], p[1]);
    LeftoverSeen(s1, f, p[1], page2, j);
    EnsureAllocates(s1, f, p[1], page2);
    EnsureBelow(s1, f, p[0], p[1], page2);
    var s2 := Ensure(s1, f, p[1], page2).value;
    var b := At(s2, f, p[1]);
    EnsureBelow(s2, f, p[0], p[2], page2);
    EnsureAllocates(s2, f, p[2], page2);
    StoredNumbersStay(s2, f, p[2], page2, b, j);
    var c := Child(p[1], j);
    StoredNumbersStay(s2, f, p[2], page2, At(s2, f, p[0]), p[1].j);
    assert At(n, f, p[1]) == b;
    assert At(n, f, c) == Word(page2, j) && At(fs, f, c) == 0;
    if GrowsAlong(fs, n, f, p) {
      ChangedOnPath(fs, n, f, p, c);
      assert c == p[2] && n == s2;
      NewRefsAreAllocations(fs, n, f, p, p[2], p[0], p[1]);
    }
  }

  lemma UntouchedBy(fs: Fs, n: Fs, f: nat, path: seq<Ref>, up: Ref, r: Ref)
    requires GrowsAlong(fs, n, f, path) && f < |fs.files| && IsRef(r) && r !in path && IsRef(up) && At(n, f, up) != 0
    ensures At(n, f, r) == At(fs, f, r) && 0 < At(n, f, up) < |n.blocks| && At(n, f, up) in n.used
  {
    hide At;
    assert Mapped(n, f, up);
  }

  /** find_data_block keeps the block maps a forest and touches only its own path
      exactly when every page it gets for a new pointer block is clean. */
  lemma FindBlockExact(fs: Fs, f: nat, i: nat, page1: Block, page2: Block)
    requires Forest(fs) && f < |fs.files| && i < MAX_BLOCKS
    requires FindBlock(fs, f, i, page1, page2).Some?
    ensures GrowsAlong(fs, FindBlock(fs, f, i, page1, page2).value, f, Path(i)) <==> PagesOk(fs, f, i, page1, page2)
  {
    hide FindBlock, GrowsAlong, At, Word;
    var p := Path(i);
    if PagesOk(fs, f, i, page1, page2) {
      FindBlockGrows(fs, f, i, page1, page2);
    } else if |p| >= 2 && At(fs, f, p[0]) == 0 && !Clean(page1) {
      var j :| 1 <= j < ADDR_PER_BLOCK && Word(page1, j) != 0;
      DirtyFirstPage(fs, f, i, page1, page2, j);
    } else {
      var j :| 1 <= j < ADDR_PER_BLOCK && Word(page2, j) != 0;
      DirtySecondPage(fs, f, i, page1, page2, j);
    }
  }

  // ----- a recycled page -----

  /** Every 32-bit word of the page is 1. */
  function OnesPage(): Block {
    seq(BLOCK_SIZE, k => if k % 4 == 0 then 1 else 0)
  }

  lemma OnesWord(j: nat)
    requires j < ADDR_PER_BLOCK
    ensures Word(OnesPage(), j) == 1
  {
    assert (4 * j) % 4 == 0 && (4 * j + 1) % 4 == 1 && (4 * j + 2) % 4 == 2 && (4 * j + 3) % 4 == 3;
  }

  lemma EnsureFinds(fs: Fs, f: nat, r: Ref, page: Block)
    requires Shape(fs) && f < |fs.files| && IsRef(r) && Free(fs) != {}
    ensures Ensure(fs, f, r, page).Some?
  {
    hide At, Link;
    var b :| b in Free(fs);
  }

  /** Linking a pointer block to hold one word leaves all but that block free. */
  lemma OneLess(fs: Fs, f: nat, page: Block)
    requires Shape(fs) && f < |fs.files| && At(fs, f, Single) == 0 && 2 <= |Free(fs)|
    ensures var o := Ensure(fs, f, Single, page); o.Some? && Free(o.value) != {}
  {
    hide At, Link, Cleared;
    var b :| b in Free(fs);
    EnsureFinds(fs, f, Single, page);
    EnsureAllocates(fs, f, Single, page);
    var n := Ensure(fs, f, Single, page).value;
    assert Free(n) == Free(fs) - {At(n, f, Single) as nat};
    assert |Free(fs) - {At(n, f, Single) as nat}| >= |Free(fs)| - 1;
  }

  lemma OnesSeen(fs: Fs, f: nat, page: Block)
    requires Forest(fs) && f < |fs.files| && At(fs, f, Single) == 0 && 2 <= |Free(fs)|
    requires forall j | 0 <= j < ADDR_PER_BLOCK :: Word(page, j) == 1
    ensures FindBlock(fs, f, 10, page, page).Some?
    ensures var n := FindBlock(fs, f, 10, page, page).value;
            n.dataStart == fs.dataStart && |n.files| == |fs.files| && At(n, f, InSingle(1)) == At(n, f, InSingle(2)) == 1
  {
    hide Word, PutWord, Cleared, Forest, Free;
    GrowForest(fs, f, 10);
    var s0 := Grow(fs, f, 10);
    OneLess(s0, f, page);
    var s1 := Ensure(s0, f, Single, page).value;
    EnsureFinds(s1, f, InSingle(0), page);
    LeftoverSeen(s0, f, Single, page, 1);
    LeftoverSeen(s0, f, Single, page, 2);
    EnsureAllocates(s0, f, Single, page);
    EnsureBelow(s1, f, Single, InSingle(0), page);
    StoredNumbersStay(s1, f, InSingle(0), page, At(s1, f, Single), 1);
    StoredNumbersStay(s1, f, InSingle(0), page, At(s1, f, Single), 2);
  }

  /** The claim without the condition on pages is false, in every state with two free blocks: the first write
      to file block 10 of a file, with a recycled page of ones, maps file blocks 11 and 12 to block 1. */
  lemma RecycledPageBreaksMap(fs: Fs, f: nat)
    requires Forest(fs) && f < |fs.files| && At(fs, f, Single) == 0 && 2 <= |Free(fs)|
    ensures var o := FindBlock(fs, f, 10, OnesPage(), OnesPage());
            && o.Some? && !Forest(o.value) && Shape(o.value) && f < |o.value.files|
            && At(o.value, f, Leaf(11)) == At(o.value, f, Leaf(12)) == 1
  {
    forall j: nat | j < ADDR_PER_BLOCK
      ensures Word(OnesPage(), j) == 1
    {
      OnesWord(j);
    }
    OnesSeen(fs, f, OnesPage());
    var n := FindBlock(fs, f, 10, OnesPage(), OnesPage()).value;
    hide At, Word, FindBlock;
    assert Leaf(11) == InSingle(1) && Leaf(12) == InSingle(2);
    assert Shape(n) ==> Mapped(n, f, Leaf(11)) && Mapped(n, f, Leaf(12));
  }
}
