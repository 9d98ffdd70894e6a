/**
 find_data_block as a walk that creates what is missing (fs/fs.c:848-922):
 which Ref a file block uses, what one call allocates, and exactly when the
 forest of block maps survives it.
 */
module FileGrowth {
  import opened Wrappers
  import opened Blocks
  import opened FileMap

  // ----- addressing ranges -----

  /** The place that holds the number of file block `i`. */
  function Leaf(i: nat): (r: Ref)
    requires i < MAX_BLOCKS
    ensures IsRef(r) && !IsPointer(r)
  {
    if i < NDIRECT then Direct(i)
    else if i < NDIRECT + ADDR_PER_BLOCK then InSingle(i - NDIRECT)
    else InDouble((i - NDIRECT - ADDR_PER_BLOCK) / ADDR_PER_BLOCK, (i - NDIRECT - ADDR_PER_BLOCK) % ADDR_PER_BLOCK)
  }

  /** The file block whose number is held at a leaf. */
  function IndexOf(r: Ref): (i: nat)
    requires IsRef(r) && !IsPointer(r)
    ensures i < MAX_BLOCKS && Leaf(i) == r
  {
    match r
    case Direct(i) => i
    case InSingle(j) => NDIRECT + j
    case InDouble(j, k) => NDIRECT + ADDR_PER_BLOCK + j * ADDR_PER_BLOCK + k
  }

  /** Addressing is a bijection: each leaf belongs to exactly one file block. */
  lemma LeafBijective(i: nat)
    requires i < MAX_BLOCKS
    ensures IndexOf(Leaf(i)) == i
  {
    if i >= NDIRECT + ADDR_PER_BLOCK {
      var x := i - NDIRECT - ADDR_PER_BLOCK;
      assert x == x / ADDR_PER_BLOCK * ADDR_PER_BLOCK + x % ADDR_PER_BLOCK;
    }
  }

  /** Word `j` of block `p`, from its four bytes, the least significant first; 0 where there is no such block. */
  function NumberIn(fs: Fs, p: nat, j: nat): nat
    requires j < 1024
  {
    if p == 0 || p >= |fs.blocks| then 0
    else
      var b0: int, b1: int, b2: int, b3: int := fs.blocks[p][4 * j], fs.blocks[p][4 * j + 1], fs.blocks[p][4 * j + 2], fs.blocks[p][4 * j + 3];
      b0 + 0x100 * b1 + 0x1_0000 * b2 + 0x100_0000 * b3
  }

  /** Where the number of file block `i` stands: the first ten in the inode, the next 1024 in the block that its word 10
      names, from word 0 on, and each further 1024 in a block that a word of the block in its word 11 names. */
  lemma LayoutExact(fs: Fs, f: nat, i: nat)
    requires Shape(fs) && f < |fs.files| && i < MAX_BLOCKS
    ensures var a := fs.files[f].addrs;
            At(fs, f, Leaf(i)) ==
            if i < 10 then a[i]
            else if i < 1034 then NumberIn(fs, a[10], i - 10)
            else NumberIn(fs, NumberIn(fs, a[11], (i - 1034) / 1024), (i - 1034) % 1024)
    ensures Leaf(9) == Direct(9) && Leaf(10) == InSingle(0) && Leaf(1033) == InSingle(1023)
            && Leaf(1034) == InDouble(0, 0) && Leaf(1035) == InDouble(0, 1) && Leaf(2058) == InDouble(1, 0)
  {
  }

  /** Storing a word writes its four bytes, the least significant first, and no other. */
  lemma PutWordExact(b: Block, i: nat, w: U32, k: nat)
    requires i < 1024 && k < 4096
    ensures PutWord(b, i, w)[k] ==
            if k == 4 * i then w % 0x100
            else if k == 4 * i + 1 then w / 0x100 % 0x100
            else if k == 4 * i + 2 then w / 0x1_0000 % 0x100
            else if k == 4 * i + 3 then w / 0x100_0000
            else b[k]
  {
    hide Word;
  }

  /** Every non-negative int offset is addressable, so find_data_block never returns its -1. */
  lemma EveryOffsetAddressable(offset: nat)
    requires offset < 0x8000_0000
    ensures offset / BLOCK_SIZE < MAX_BLOCKS
  {
  }

  // ----- allocation -----

  function NextFree(used: set<nat>, lo: nat, hi: nat): (r: Option<nat>)
    ensures r.Some? ==> lo <= r.value < hi && r.value !in used && forall b | lo <= b < r.value :: b in used
    ensures r.None? ==> forall b | lo <= b < hi :: b in used
    decreases hi - lo
  {
    if lo >= hi then None
    else if lo !in used then Some(lo)
    else NextFree(used, lo + 1, hi)
  }

  ghost function Free(fs: Fs): set<nat> {
    set b: nat | fs.dataStart <= b < |fs.blocks| && b !in fs.used
  }

  /** What the pointer block holds after memset(p, 0, sizeof(BLOCK_SIZE)), which clears four bytes. */
  function Cleared(page: Block): (r: Block)
    ensures Word(r, 0) == 0 && forall j | 1 <= j < ADDR_PER_BLOCK :: Word(r, j) == Word(page, j)
  {
    PutWord(page, 0, 0)
  }

  /** The recycled page is zero apart from the four bytes that are cleared anyway. */
  predicate Clean(page: Block) {
    forall j | 1 <= j < ADDR_PER_BLOCK :: Word(page, j) == 0
  }

  /** Makes sure a block is linked at `r`; None when every data block is taken. */
  function Ensure(fs: Fs, f: nat, r: Ref, page: Block): (o: Option<Fs>)
    requires Shape(fs) && f < |fs.files| && IsRef(r)
    ensures o.Some? ==> Shape(o.value) && SameFrame(fs, o.value)
  {
    if At(fs, f, r) != 0 then Some(fs)
    else
      match NextFree(fs.used, fs.dataStart, |fs.blocks|)
      case None => None
      case Some(b) => Some(Link(fs, f, r, b, if IsPointer(r) then Cleared(page) else fs.blocks[b]))
  }

  function Grow(fs: Fs, f: nat, i: nat): (n: Fs)
    requires Shape(fs) && f < |fs.files|
    ensures Shape(n) && SameFrame(fs, n)
  {
    var node := fs.files[f];
    fs.(files := fs.files[f := node.(size := if node.size > i + 1 then node.size else i + 1)])
  }

  /** The Refs from the inode down to file block `i`. */
  function Path(i: nat): (p: seq<Ref>)
    requires i < MAX_BLOCKS
    ensures 0 < |p| <= 3 && p[|p| - 1] == Leaf(i) && forall k | 0 <= k < |p| :: IsRef(p[k])
    ensures Parent(p[0]).None? && forall k | 1 <= k < |p| :: Parent(p[k]) == Some(p[k - 1])
  {
    var r := Leaf(i);
    match r
    case Direct(_) => [r]
    case InSingle(_) => [Single, r]
    case InDouble(j, _) => [Double, Mid(j), r]
  }

  /** Ensure, unless an earlier step already failed. */
  function Then(o: Option<Fs>, f: nat, r: Ref, page: Block): (n: Option<Fs>)
    requires o.Some? ==> Shape(o.value) && f < |o.value.files| && IsRef(r)
    ensures n.Some? ==> o.Some? && Shape(n.value) && SameFrame(o.value, n.value)
  {
    if o.None? then None else Ensure(o.value, f, r, page)
  }

  /** The whole of find_data_block: the state after it; the block found is At(.., Leaf(i)). */
  function FindBlock(fs: Fs, f: nat, i: nat, page1: Block, page2: Block): (o: Option<Fs>)
    requires Shape(fs) && f < |fs.files| && i < MAX_BLOCKS
    ensures o.Some? ==> Shape(o.value) && SameFrame(fs, o.value)
  {
    var p := Path(i);
    var o := Then(Some(Grow(fs, f, i)), f, p[0], page1);
    if |p| == 1 then o
    else
      var o2 := Then(o, f, p[1], page2);
      if |p| == 2 then o2 else Then(o2, f, p[2], page2)
  }

  /** A state, and whether the call that led to it went through. */
  datatype Progress = Progress(fs: Fs, ok: bool)

  /** Ensure, or a stop where every block is taken: what was linked before stays linked. */
  function Advance(w: Progress, f: nat, r: Ref, page: Block): (n: Progress)
    requires Shape(w.fs) && f < |w.fs.files| && IsRef(r)
    ensures Shape(n.fs) && SameFrame(w.fs, n.fs) && (!w.ok ==> n == w)
  {
    if !w.ok then w
    else
      match Ensure(w.fs, f, r, page)
      case None => Progress(w.fs, false)
      case Some(n) => Progress(n, true)
  }

  /** find_data_block with what it leaves when the partition is full. */
  function WalkTo(fs: Fs, f: nat, i: nat, page1: Block, page2: Block): (w: Progress)
    requires Shape(fs) && f < |fs.files| && i < MAX_BLOCKS
    ensures Shape(w.fs) && SameFrame(fs, w.fs)
    ensures w.ok <==> FindBlock(fs, f, i, page1, page2).Some?
    ensures w.ok ==> w.fs == FindBlock(fs, f, i, page1, page2).value
  {
    var p := Path(i);
    var w := Advance(Progress(Grow(fs, f, i), true), f, p[0], page1);
    if |p| == 1 then w
    else
      var w2 := Advance(w, f, p[1], page2);
      if |p| == 2 then w2 else Advance(w2, f, p[2], page2)
  }

  // ----- what one walk does -----

  /** Files keep every block they had, nothing off the path changes, and new blocks were free. */
  ghost predicate GrowsAlong(fs: Fs, n: Fs, f: nat, path: seq<Ref>) {
    && Forest(n) && Shape(fs)
    && SameFrame(fs, n) && fs.used <= n.used
    && forall g: nat, s: Ref | g < |fs.files| && IsRef(s) ::
         || At(n, g, s) == At(fs, g, s)
         || (g == f && s in path && At(fs, g, s) == 0 && At(n, g, s) !in fs.used)
  }

  /** Blocks that were in use and are not pointer blocks of this walk keep their bytes. */
  ghost predicate KeepsData(fs: Fs, n: Fs) {
    && |n.blocks| == |fs.blocks| && Shape(fs) && Shape(n)
    && forall g: nat, s: Ref | Mapped(fs, g, s) && !IsPointer(s) && At(fs, g, s) < |fs.blocks| ::
         n.blocks[At(fs, g, s)] == fs.blocks[At(fs, g, s)]
  }

  lemma GrowForest(fs: Fs, f: nat, i: nat)
    requires Forest(fs) && f < |fs.files|
    ensures var n := Grow(fs, f, i); GrowsAlong(fs, n, f, []) && KeepsData(fs, n) && Free(n) == Free(fs) && n.used == fs.used
    ensures forall g: nat, s: Ref | g < |fs.files| && IsRef(s) :: At(Grow(fs, f, i), g, s) == At(fs, g, s)
  {
    var n := Grow(fs, f, i);
    forall g: nat, s: Ref | g < |fs.files| && IsRef(s)
      ensures At(n, g, s) == At(fs, g, s)
    {
    }
    assert forall g: nat, s: Ref :: Mapped(n, g, s) <==> Mapped(fs, g, s);
  }

  lemma CleanCleared(page: Block)
    ensures AllZero(Cleared(page)) <==> Clean(page)
  {
    hide Cleared, Word;
  }

  lemma LinkKeepsData(fs: Fs, f: nat, r: Ref, b: U32, init: Block)
    requires CanLink(fs, f, r, b, init)
    ensures KeepsData(fs, Link(fs, f, r, b, init))
  {
    var n := Link(fs, f, r, b, init);
    if Parent(r).Some? {
      ClaimUnseen(fs, b, init, f, Parent(r).value);
    }
    forall g: nat, s: Ref | Mapped(fs, g, s) && !IsPointer(s)
      ensures n.blocks[At(fs, g, s)] == fs.blocks[At(fs, g, s)]
    {
      assert At(fs, g, s) in fs.used;
      assert Parent(r).Some? ==> At(fs, g, s) != At(fs, f, Parent(r).value);
    }
  }

  /** Linking a free block grows the maps by that one place. */
  lemma LinkGrows(fs: Fs, f: nat, r: Ref, b: U32, init: Block)
    requires CanLink(fs, f, r, b, init)
    ensures var n := Link(fs, f, r, b, init); GrowsAlong(fs, n, f, [r]) && At(n, f, r) == b
  {
    hide At, Forest, Link;
    LinkForest(fs, f, r, b, init);
    LinkFrame(fs, f, r, b, init);
    LinkAt(fs, f, r, b, init, f, r);
    var n := Link(fs, f, r, b, init);
    forall g: nat, s: Ref | g < |fs.files| && IsRef(s)
      ensures At(n, g, s) == if g == f && s == r then b else At(fs, g, s)
    {
      LinkAt(fs, f, r, b, init, g, s);
    }
  }

  lemma LinkFrame(fs: Fs, f: nat, r: Ref, b: U32, init: Block)
    requires CanLink(fs, f, r, b, init)
    ensures var n := Link(fs, f, r, b, init);
            Shape(fs) && Shape(n) && SameFrame(fs, n) && n.used == fs.used + {b as nat} && Free(n) == Free(fs) - {b as nat}
  {
    hide Forest;
  }

  lemma EnsureGrows(fs: Fs, f: nat, r: Ref, page: Block)
    requires Forest(fs) && f < |fs.files| && IsRef(r) && ParentMapped(fs, f, r)
    requires IsPointer(r) && At(fs, f, r) == 0 ==> Clean(page)
    ensures var o := Ensure(fs, f, r, page);
            if o.None? then Free(fs) == {} && At(fs, f, r) == 0
            else && GrowsAlong(fs, o.value, f, [r]) && KeepsData(fs, o.value) && At(o.value, f, r) != 0
                 && |Free(fs)| == |Free(o.value)| + if At(fs, f, r) == 0 then 1 else 0
  {
    hide GrowsAlong, KeepsData, Link, At, Cleared;
    if At(fs, f, r) == 0 {
      var next := NextFree(fs.used, fs.dataStart, |fs.blocks|);
      if next.Some? {
        var b := next.value;
        var init := if IsPointer(r) then Cleared(page) else fs.blocks[b];
        CleanCleared(page);
        LinkGrows(fs, f, r, b, init);
        LinkFrame(fs, f, r, b, init);
        LinkKeepsData(fs, f, r, b, init);
      }
    } else {
      StaysGrown(fs, f, r);
    }
  }

  lemma StaysGrown(fs: Fs, f: nat, r: Ref)
    requires Forest(fs)
    ensures GrowsAlong(fs, fs, f, [r]) && KeepsData(fs, fs)
  {
    hide At;
  }

  lemma GrowsTrans(a: Fs, b: Fs, c: Fs, f: nat, p: seq<Ref>, q: seq<Ref>)
    requires GrowsAlong(a, b, f, p) && GrowsAlong(b, c, f, q)
    ensures GrowsAlong(a, c, f, p + q)
    ensures KeepsData(a, b) && KeepsData(b, c) ==> KeepsData(a, c)
  {
    forall g: nat, s: Ref | g < |a.files| && IsRef(s)
      ensures At(c, g, s) == At(a, g, s) || (g == f && s in p + q && At(a, g, s) == 0 && At(c, g, s) !in a.used)
    {
      assert At(b, g, s) == At(a, g, s) || (g == f && s in p && At(a, g, s) == 0 && At(b, g, s) !in a.used);
      assert At(c, g, s) == At(b, g, s) || (g == f && s in q && At(b, g, s) == 0 && At(c, g, s) !in b.used);
    }
    if KeepsData(a, b) && KeepsData(b, c) {
      forall g: nat, s: Ref | Mapped(a, g, s) && !IsPointer(s) && At(a, g, s) < |a.blocks|
        ensures c.blocks[At(a, g, s)] == a.blocks[At(a, g, s)]
      {
        assert At(b, g, s) == At(a, g, s) && Mapped(b, g, s);
      }
    }
  }

  /** Pages handed out for pointer blocks that this walk has to create are clean. */
  predicate PagesOk(fs: Fs, f: nat, i: nat, page1: Block, page2: Block)
    requires Shape(fs) && f < |fs.files| && i < MAX_BLOCKS
  {
    var p := Path(i);
    && (|p| >= 2 && At(fs, f, p[0]) == 0 ==> Clean(page1))
    && (|p| == 3 && At(fs, f, p[1]) == 0 ==> Clean(page2))
  }

  /** How many blocks the walk has to allocate. */
  function Missing(fs: Fs, f: nat, i: nat): nat
    requires Shape(fs) && f < |fs.files| && i < MAX_BLOCKS
  {
    var p := Path(i);
    (if At(fs, f, p[0]) == 0 then 1 else 0) +
    (if |p| >= 2 && At(fs, f, p[1]) == 0 then 1 else 0) +
    (if |p| == 3 && At(fs, f, p[2]) == 0 then 1 else 0)
  }

  // ----- inode sizes -----

  function Max(a: nat, b: nat): (m: nat)
    ensures (m == a || m == b) && a <= m && b <= m
  {
    if a > b then a else b
  }

  function SizeOf(fs: Fs, g: nat): nat
    requires g < |fs.files|
  {
    fs.files[g].size
  }

  /** File `f` has at least `blocks` blocks afterwards and no more than it had or that; no other size differs. */
  ghost predicate SizesGrow(fs: Fs, n: Fs, f: nat, blocks: nat) {
    && |n.files| == |fs.files| && f < |fs.files|
    && (forall g: nat | g < |fs.files| :: SizeOf(n, g) == if g == f then Max(SizeOf(fs, g), blocks) else SizeOf(fs, g))
  }

  ghost predicate SameSizes(fs: Fs, n: Fs) {
    |n.files| == |fs.files| && forall g: nat | g < |fs.files| :: SizeOf(n, g) == SizeOf(fs, g)
  }

  lemma LinkSizes(fs: Fs, f: nat, r: Ref, b: U32, init: Block)
    requires Shape(fs) && f < |fs.files| && IsRef(r) && fs.dataStart <= b < |fs.blocks|
    ensures SameSizes(fs, Link(fs, f, r, b, init))
  {
    hide Word, PutWord;
  }

  lemma AdvanceSizes(w: Progress, f: nat, r: Ref, page: Block)
    requires Shape(w.fs) && f < |w.fs.files| && IsRef(r)
    ensures SameSizes(w.fs, Advance(w, f, r, page).fs)
  {
    hide Link, At, Cleared;
    var next := NextFree(w.fs.used, w.fs.dataStart, |w.fs.blocks|);
    if next.Some? {
      LinkSizes(w.fs, f, r, next.value, if IsPointer(r) then Cleared(page) else w.fs.blocks[next.value]);
    }
  }

  /** find_data_block makes the file reach the block it is asked for, through or not, and never shrinks it. */
  lemma WalkSizes(fs: Fs, f: nat, i: nat, page1: Block, page2: Block)
    requires Shape(fs) && f < |fs.files| && i < MAX_BLOCKS
    ensures SizesGrow(fs, WalkTo(fs, f, i, page1, page2).fs, f, i + 1)
  {
    hide Shape, Advance;
    var p := Path(i);
    var s0 := Grow(fs, f, i);
    assert SizesGrow(fs, s0, f, i + 1);
    AdvanceSizes(Progress(s0, true), f, p[0], page1);
    var w := Advance(Progress(s0, true), f, p[0], page1);
    if |p| > 1 {
      AdvanceSizes(w, f, p[1], page2);
      if |p| > 2 {
        AdvanceSizes(Advance(w, f, p[1], page2), f, p[2], page2);
      }
    }
  }
}
