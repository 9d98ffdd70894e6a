/**
 The block map of a file (find_data_block, fs/fs.c:848-922): ten direct
 addresses, one single-indirect block and one double-indirect block, over a
 plain array of blocks and the set of blocks marked in the block bitmap.

 Every place that can hold a block number is a Ref, so the whole forest of
 all files is the partial function At from (file, Ref) to block numbers.
 */
module FileMap {
  import opened Wrappers
  import opened Blocks

  const NDIRECT: nat := 10
  const SINGLE: nat := 10   // addrs[10]
  const DOUBLE: nat := 11   // addrs[11]
  const NADDRS: nat := 13
  const MAX_BLOCKS: nat := NDIRECT + ADDR_PER_BLOCK + ADDR_PER_BLOCK * ADDR_PER_BLOCK

  datatype Inode = Inode(size: nat, addrs: seq<U32>)

  /** A place that holds a block number: in the inode, or in a pointer block. */
  datatype Ref =
    | Direct(i: nat)
    | Single
    | InSingle(j: nat)
    | Double
    | Mid(j: nat)
    | InDouble(j: nat, k: nat)

  /** reserved: blocks in use by directories, which no file may touch. */
  datatype Fs = Fs(dataStart: nat, blocks: seq<Block>, used: set<nat>, reserved: set<nat>, files: seq<Inode>)

  predicate IsRef(r: Ref) {
    match r
    case Direct(i) => i < NDIRECT
    case InSingle(j) => j < ADDR_PER_BLOCK
    case Mid(j) => j < ADDR_PER_BLOCK
    case InDouble(j, k) => j < ADDR_PER_BLOCK && k < ADDR_PER_BLOCK
    case _ => true
  }

  /** Refs to blocks that hold block numbers, as opposed to file bytes. */
  predicate IsPointer(r: Ref) {
    r.Single? || r.Double? || r.Mid?
  }

  predicate Shape(fs: Fs) {
    && 0 < fs.dataStart <= |fs.blocks| < 0x1_0000_0000
    && forall f | 0 <= f < |fs.files| :: |fs.files[f].addrs| == NADDRS
  }

  function WordAt(fs: Fs, b: U32, j: nat): (w: U32)
    requires j < ADDR_PER_BLOCK
  {
    if 0 < b < |fs.blocks| then Word(fs.blocks[b], j) else 0
  }

  /** The block number stored at `r`; 0 when it or a pointer block above it is missing. */
  function At(fs: Fs, f: nat, r: Ref): (b: U32)
    requires Shape(fs) && f < |fs.files| && IsRef(r)
  {
    var a := fs.files[f].addrs;
    match r
    case Direct(i) => a[i]
    case Single => a[SINGLE]
    case InSingle(j) => WordAt(fs, a[SINGLE], j)
    case Double => a[DOUBLE]
    case Mid(j) => WordAt(fs, a[DOUBLE], j)
    case InDouble(j, k) => WordAt(fs, WordAt(fs, a[DOUBLE], j), k)
  }

  /** The Ref whose block holds the number at `r`; only for Refs inside pointer blocks. */
  function Parent(r: Ref): Option<Ref> {
    match r
    case InSingle(_) => Some(Single)
    case Mid(_) => Some(Double)
    case InDouble(j, _) => Some(Mid(j))
    case _ => None
  }

  predicate Mapped(fs: Fs, f: nat, r: Ref)
    requires Shape(fs)
  {
    f < |fs.files| && IsRef(r) && At(fs, f, r) != 0
  }

  /** Every mapped number is an allocated data block that no directory uses. */
  ghost predicate InData(fs: Fs)
    requires Shape(fs)
  {
    forall f: nat, r: Ref | Mapped(fs, f, r) ::
      var b := At(fs, f, r);
      fs.dataStart <= b < |fs.blocks| && b in fs.used && b !in fs.reserved
  }

  /** No block is reached twice: not by two files, not by two indices, not as data and pointer block. */
  ghost predicate Injective(fs: Fs)
    requires Shape(fs)
  {
    forall f: nat, r: Ref, g: nat, s: Ref | Mapped(fs, f, r) && Mapped(fs, g, s) && At(fs, f, r) == At(fs, g, s) ::
      f == g && r == s
  }

  /** The block maps of all files form a forest of allocated data blocks. */
  ghost predicate Forest(fs: Fs) {
    Shape(fs) && fs.reserved <= fs.used && InData(fs) && Injective(fs)
  }

  // ----- linking one block -----

  /** The parts of the state that linking never resizes. */
  predicate SameFrame(fs: Fs, n: Fs) {
    n.dataStart == fs.dataStart && |n.blocks| == |fs.blocks| && n.reserved == fs.reserved && |n.files| == |fs.files|
  }

  /** Stores block number `w` at word `j` of pointer block `p`. */
  function Store(fs: Fs, p: U32, j: nat, w: U32): (n: Fs)
    requires j < ADDR_PER_BLOCK
    ensures SameFrame(fs, n) && n.files == fs.files && n.used == fs.used
  {
    if 0 < p < |fs.blocks| then fs.(blocks := fs.blocks[p := PutWord(fs.blocks[p], j, w)]) else fs
  }

  function SetAddr(fs: Fs, f: nat, a: nat, w: U32): (n: Fs)
    requires Shape(fs) && f < |fs.files| && a < NADDRS
    ensures Shape(n)
  {
    fs.(files := fs.files[f := fs.files[f].(addrs := fs.files[f].addrs[a := w])])
  }

  /** Writes block number `b` at `r`. */
  function SetRef(fs: Fs, f: nat, r: Ref, b: U32): (n: Fs)
    requires Shape(fs) && f < |fs.files| && IsRef(r)
    ensures Shape(n) && SameFrame(fs, n) && n.used == fs.used
  {
    match r
    case Direct(i) => SetAddr(fs, f, i, b)
    case Single => SetAddr(fs, f, SINGLE, b)
    case Double => SetAddr(fs, f, DOUBLE, b)
    case InSingle(j) => Store(fs, At(fs, f, Single), j, b)
    case Mid(j) => Store(fs, At(fs, f, Double), j, b)
    case InDouble(j, k) => Store(fs, At(fs, f, Mid(j)), k, b)
  }

  /** Marks `b` used and gives it the contents `init`. */
  function Claim(fs: Fs, b: U32, init: Block): (n: Fs)
    requires Shape(fs) && fs.dataStart <= b < |fs.blocks|
    ensures Shape(n)
  {
    fs.(used := fs.used + {b}, blocks := fs.blocks[b := init])
  }

  /** Claims `b` and links it at `r`. */
  function Link(fs: Fs, f: nat, r: Ref, b: U32, init: Block): (n: Fs)
    requires Shape(fs) && f < |fs.files| && IsRef(r)
    requires fs.dataStart <= b < |fs.blocks|
    ensures Shape(n) && SameFrame(fs, n) && n.used == fs.used + {b}
  {
    SetRef(Claim(fs, b, init), f, r, b)
  }

  predicate ParentMapped(fs: Fs, f: nat, r: Ref)
    requires Shape(fs) && f < |fs.files| && IsRef(r)
  {
    Parent(r).Some? ==> Mapped(fs, f, Parent(r).value)
  }

  /** Nothing reads an unallocated block. */
  lemma ClaimUnseen(fs: Fs, b: U32, init: Block, g: nat, s: Ref)
    requires Forest(fs) && g < |fs.files| && IsRef(s)
    requires fs.dataStart <= b < |fs.blocks| && b !in fs.used
    ensures At(Claim(fs, b, init), g, s) == At(fs, g, s)
  {
    assert Mapped(fs, g, Single) ==> At(fs, g, Single) in fs.used;
    assert Mapped(fs, g, Double) ==> At(fs, g, Double) in fs.used;
    if s.InDouble? {
      assert Mapped(fs, g, Mid(s.j)) ==> At(fs, g, Mid(s.j)) in fs.used;
    }
  }

  /** A word stored in one pointer block is read back there and nowhere else. */
  lemma StoreSeen(fs: Fs, p: U32, j: nat, w: U32, q: U32, k: nat)
    requires j < ADDR_PER_BLOCK && k < ADDR_PER_BLOCK && 0 < p < |fs.blocks|
    ensures WordAt(Store(fs, p, j, w), q, k) == if p == q && j == k then w else WordAt(fs, q, k)
  {
  }

  ghost predicate CanLink(fs: Fs, f: nat, r: Ref, b: U32, init: Block) {
    && Forest(fs) && f < |fs.files| && IsRef(r) && ParentMapped(fs, f, r) && At(fs, f, r) == 0
    && fs.dataStart <= b < |fs.blocks| && b !in fs.used
    && (IsPointer(r) ==> AllZero(init))
  }

  /** Linking a block changes the map at that one place of that one file. */
  lemma LinkAt(fs: Fs, f: nat, r: Ref, b: U32, init: Block, g: nat, s: Ref)
    requires CanLink(fs, f, r, b, init) && g < |fs.files| && IsRef(s)
    ensures At(Link(fs, f, r, b, init), g, s) == if g == f && s == r then b else At(fs, g, s)
  {
    var m := Claim(fs, b, init);
    ClaimUnseen(fs, b, init, g, s);
    if Parent(r).Some? {
      ClaimUnseen(fs, b, init, f, Parent(r).value);
      LinkInPointerBlock(fs, f, r, b, init, g, s);
    } else {
      assert !IsPointer(r) || AllZero(m.blocks[b]);
    }
  }

  lemma LinkInPointerBlock(fs: Fs, f: nat, r: Ref, b: U32, init: Block, g: nat, s: Ref)
    requires CanLink(fs, f, r, b, init) && Parent(r).Some? && g < |fs.files| && IsRef(s)
    ensures At(Link(fs, f, r, b, init), g, s) == if g == f && s == r then b else At(fs, g, s)
  {
    var m := Claim(fs, b, init);
    var up := Parent(r).value;
    ClaimUnseen(fs, b, init, f, up);
    var p := At(fs, f, up);
    var j := if r.InDouble? then r.k else r.j;
    var n := Link(fs, f, r, b, init);
    assert n == Store(m, p, j, b);
    ClaimUnseen(fs, b, init, g, s);
    match s {
      case Direct(_) =>
      case Single =>
      case Double =>
      case InSingle(k) =>
        StoreSeen(m, p, j, b, At(fs, g, Single), k);
        assert Mapped(fs, f, up) && (Mapped(fs, g, Single) && At(fs, g, Single) == p ==> g == f && up == Single);
      case Mid(k) =>
        MidAfterLink(fs, f, r, b, init, g, k);
      case InDouble(i, k) =>
        MidAfterLink(fs, f, r, b, init, g, i);
        ClaimUnseen(fs, b, init, g, Mid(i));
        StoreSeen(m, p, j, b, At(n, g, Mid(i)), k);
        assert Mapped(fs, f, up) && (Mapped(fs, g, Mid(i)) && At(fs, g, Mid(i)) == p ==> g == f && up == Mid(i));
        if g == f && r == Mid(i) {
          assert AllZero(m.blocks[b]);
        }
    }
  }

  lemma MidAfterLink(fs: Fs, f: nat, r: Ref, b: U32, init: Block, g: nat, k: nat)
    requires CanLink(fs, f, r, b, init) && Parent(r).Some? && g < |fs.files| && k < ADDR_PER_BLOCK
    ensures At(Link(fs, f, r, b, init), g, Mid(k)) == if g == f && r == Mid(k) then b else At(fs, g, Mid(k))
  {
    var m := Claim(fs, b, init);
    var up := Parent(r).value;
    ClaimUnseen(fs, b, init, f, up);
    ClaimUnseen(fs, b, init, g, Mid(k));
    var p := At(fs, f, up);
    StoreSeen(m, p, if r.InDouble? then r.k else r.j, b, At(fs, g, Double), k);
    assert Mapped(fs, f, up) && (Mapped(fs, g, Double) && At(fs, g, Double) == p ==> g == f && up == Double);
  }

  /** ... and keeps the forest. */
  lemma LinkForest(fs: Fs, f: nat, r: Ref, b: U32, init: Block)
    requires CanLink(fs, f, r, b, init)
    ensures Forest(Link(fs, f, r, b, init))
  {
    var n := Link(fs, f, r, b, init);
    forall g: nat, s: Ref | Mapped(n, g, s)
      ensures n.dataStart <= At(n, g, s) < |n.blocks| && At(n, g, s) in n.used && At(n, g, s) !in n.reserved
    {
      LinkAt(fs, f, r, b, init, g, s);
      assert !(g == f && s == r) ==> Mapped(fs, g, s);
    }
    forall g: nat, s: Ref, h: nat, t: Ref | Mapped(n, g, s) && Mapped(n, h, t) && At(n, g, s) == At(n, h, t)
      ensures g == h && s == t
    {
      LinkAt(fs, f, r, b, init, g, s);
      LinkAt(fs, f, r, b, init, h, t);
      assert !(g == f && s == r) ==> Mapped(fs, g, s);
      assert !(h == f && t == r) ==> Mapped(fs, h, t);
    }
  }
}
