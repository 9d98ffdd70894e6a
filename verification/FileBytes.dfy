/** File contents as bytes, and what reading and writing one span of a file means (fs/fs.c:924-984). */
module FileBytes {
  import opened Blocks
  import opened FileMap
  import opened FileGrowth

  /** The offset in the file of byte `o` of file block `i`. */
  function Pos(i: nat, o: nat): nat {
    i * BLOCK_SIZE + o
  }

  /** Byte `o` of file block `i`. */
  function ByteOf(fs: Fs, f: nat, i: nat, o: nat): (b: Byte)
    requires Shape(fs) && i < MAX_BLOCKS && o < BLOCK_SIZE && Mapped(fs, f, Leaf(i)) && At(fs, f, Leaf(i)) < |fs.blocks|
  {
    fs.blocks[At(fs, f, Leaf(i))][o]
  }

  ghost predicate Readable(fs: Fs, f: nat, i: nat) {
    Shape(fs) && i < MAX_BLOCKS && Mapped(fs, f, Leaf(i)) && At(fs, f, Leaf(i)) < |fs.blocks|
  }

  /** The bytes of file `f` from `lo` on are `data`. */
  ghost predicate Holds(fs: Fs, f: nat, lo: nat, data: seq<Byte>) {
    forall i: nat, o: nat | i < MAX_BLOCKS && o < BLOCK_SIZE && lo <= Pos(i, o) < lo + |data| ::
      Readable(fs, f, i) && ByteOf(fs, f, i, o) == data[Pos(i, o) - lo]
  }

  ghost predicate SameByte(a: Fs, b: Fs, g: nat, i: nat, o: nat) {
    Readable(a, g, i) && o < BLOCK_SIZE ==> Readable(b, g, i) && ByteOf(b, g, i, o) == ByteOf(a, g, i, o)
  }

  /** Every block number stays, other files are untouched, and so is every byte of `f` outside [lo, hi). */
  ghost predicate Preserves(a: Fs, b: Fs, f: nat, lo: nat, hi: nat) {
    && Shape(a) && Shape(b) && SameFrame(a, b) && a.used <= b.used
    && (forall g: nat, s: Ref | g < |a.files| && IsRef(s) && At(b, g, s) != At(a, g, s) :: g == f && At(a, g, s) == 0)
    && (forall g: nat, i: nat, o: nat | !(g == f && lo <= Pos(i, o) < hi) :: SameByte(a, b, g, i, o))
  }

  ghost predicate Wrote(a: Fs, b: Fs, f: nat, lo: nat, data: seq<Byte>) {
    Forest(b) && Preserves(a, b, f, lo, lo + |data|) && Holds(b, f, lo, data)
  }

  ghost predicate DidRead(a: Fs, b: Fs, f: nat, lo: nat, data: seq<Byte>) {
    Forest(b) && Preserves(a, b, f, lo, lo) && Holds(b, f, lo, data)
  }

  lemma PreservesTrans(a: Fs, b: Fs, c: Fs, f: nat, lo: nat, mid: nat, hi: nat)
    requires Preserves(a, b, f, lo, mid) && Preserves(b, c, f, mid, hi) && lo <= mid <= hi
    ensures Preserves(a, c, f, lo, hi)
  {
    forall g: nat, s: Ref | g < |a.files| && IsRef(s) && At(c, g, s) != At(a, g, s)
      ensures g == f && At(a, g, s) == 0
    {
      assert At(b, g, s) != At(a, g, s) ==> g == f && At(a, g, s) == 0;
      assert At(c, g, s) != At(b, g, s) ==> g == f && At(b, g, s) == 0;
    }
    forall g: nat, i: nat, o: nat | !(g == f && lo <= Pos(i, o) < hi)
      ensures SameByte(a, c, g, i, o)
    {
      assert SameByte(a, b, g, i, o) && SameByte(b, c, g, i, o);
    }
  }

  lemma HoldsBoth(b: Fs, c: Fs, f: nat, lo: nat, d: seq<Byte>, e: seq<Byte>, hi: nat)
    requires Holds(b, f, lo, d) && Preserves(b, c, f, lo + |d|, hi) && Holds(c, f, lo + |d|, e)
    ensures Holds(c, f, lo, d + e)
  {
    hide At, Leaf;
    forall i: nat, o: nat | i < MAX_BLOCKS && o < BLOCK_SIZE && lo <= Pos(i, o) < lo + |d + e|
      ensures Readable(c, f, i) && ByteOf(c, f, i, o) == (d + e)[Pos(i, o) - lo]
    {
      if Pos(i, o) < lo + |d| {
        assert Readable(b, f, i) && ByteOf(b, f, i, o) == d[Pos(i, o) - lo];
        assert SameByte(b, c, f, i, o);
      }
    }
  }

  lemma WroteTrans(a: Fs, b: Fs, c: Fs, f: nat, lo: nat, d: seq<Byte>, e: seq<Byte>)
    requires Wrote(a, b, f, lo, d) && Wrote(b, c, f, lo + |d|, e)
    ensures Wrote(a, c, f, lo, d + e) && Forest(c) && SameFrame(a, c)
  {
    hide Holds, Forest;
    PreservesTrans(a, b, c, f, lo, lo + |d|, lo + |d| + |e|);
    HoldsBoth(b, c, f, lo, d, e, lo + |d| + |e|);
  }

  lemma DidReadTrans(a: Fs, b: Fs, c: Fs, f: nat, lo: nat, d: seq<Byte>, e: seq<Byte>)
    requires DidRead(a, b, f, lo, d) && DidRead(b, c, f, lo + |d|, e)
    ensures DidRead(a, c, f, lo, d + e) && Forest(c) && SameFrame(a, c)
  {
    hide Holds, Forest;
    PreservesEmpty(b, c, f, lo + |d|, lo);
    PreservesTrans(a, b, c, f, lo, lo, lo);
    HoldsBoth(b, c, f, lo, d, e, lo + |d|);
  }

  lemma PreservesEmpty(a: Fs, b: Fs, f: nat, lo: nat, mid: nat)
    requires Preserves(a, b, f, lo, lo)
    ensures Preserves(a, b, f, mid, mid)
  {
  }

  /** Two readings of the same span agree. */
  lemma HoldsUnique(fs: Fs, f: nat, lo: nat, d: seq<Byte>, e: seq<Byte>)
    requires Holds(fs, f, lo, d) && Holds(fs, f, lo, e) && |d| == |e| && lo + |d| <= MAX_BLOCKS * BLOCK_SIZE
    ensures d == e
  {
    hide At, Leaf;
    forall k | 0 <= k < |d|
      ensures d[k] == e[k]
    {
      var i, o := (lo + k) / BLOCK_SIZE, (lo + k) % BLOCK_SIZE;
      assert Pos(i, o) == lo + k;
      assert Readable(fs, f, i) && ByteOf(fs, f, i, o) == d[Pos(i, o) - lo];
    }
  }

  lemma HoldsKept(a: Fs, b: Fs, f: nat, lo: nat, d: seq<Byte>)
    requires Holds(a, f, lo, d) && Preserves(a, b, f, lo, lo)
    ensures Holds(b, f, lo, d)
  {
    hide At, Leaf;
    forall i: nat, o: nat | i < MAX_BLOCKS && o < BLOCK_SIZE && lo <= Pos(i, o) < lo + |d|
      ensures Readable(b, f, i) && ByteOf(b, f, i, o) == d[Pos(i, o) - lo]
    {
      assert Readable(a, f, i) && ByteOf(a, f, i, o) == d[Pos(i, o) - lo];
      assert SameByte(a, b, f, i, o);
    }
  }

  /** Overwriting a data block changes no block number. */
  lemma DataWriteUnseen(fs: Fs, f: nat, i: nat, x: Block)
    requires Forest(fs) && f < |fs.files| && i < MAX_BLOCKS && Mapped(fs, f, Leaf(i))
    ensures var n := fs.(blocks := fs.blocks[At(fs, f, Leaf(i)) := x]);
            Forest(n) && forall g: nat, s: Ref | g < |fs.files| && IsRef(s) :: At(n, g, s) == At(fs, g, s)
  {
    hide Leaf, Word;
    var n := fs.(blocks := fs.blocks[At(fs, f, Leaf(i)) := x]);
    forall g: nat, s: Ref | g < |fs.files| && IsRef(s)
      ensures At(n, g, s) == At(fs, g, s)
    {
      assert Mapped(fs, g, Single) ==> At(fs, g, Single) != At(fs, f, Leaf(i));
      assert Mapped(fs, g, Double) ==> At(fs, g, Double) != At(fs, f, Leaf(i));
      if s.InDouble? {
        assert Mapped(fs, g, Mid(s.j)) ==> At(fs, g, Mid(s.j)) != At(fs, f, Leaf(i));
      }
    }
    hide At;
    assert forall g: nat, s: Ref :: Mapped(n, g, s) <==> Mapped(fs, g, s);
  }

  /** The walk alone reads: it keeps every byte that was there. */
  lemma WalkPreserves(fs: Fs, n: Fs, f: nat, i: nat, lo: nat)
    requires Forest(fs) && i < MAX_BLOCKS && GrowsAlong(fs, n, f, Path(i)) && KeepsData(fs, n)
    ensures Preserves(fs, n, f, lo, lo)
  {
    forall g: nat, j: nat, o: nat
      ensures SameByte(fs, n, g, j, o)
    {
      if Readable(fs, g, j) {
        assert At(n, g, Leaf(j)) == At(fs, g, Leaf(j));
      }
    }
  }

  /** One iteration of the write loop; a whole-block chunk may start from any page. */
  lemma ChunkWritten(fs: Fs, n: Fs, f: nat, i: nat, o: nat, chunk: seq<Byte>, base: Block)
    requires Forest(fs) && i < MAX_BLOCKS && GrowsAlong(fs, n, f, Path(i)) && KeepsData(fs, n) && Mapped(n, f, Leaf(i))
    requires o + |chunk| <= BLOCK_SIZE
    requires |chunk| < BLOCK_SIZE ==> At(n, f, Leaf(i)) < |n.blocks| && base == n.blocks[At(n, f, Leaf(i))]
    ensures At(n, f, Leaf(i)) < |n.blocks|
    ensures Wrote(fs, n.(blocks := n.blocks[At(n, f, Leaf(i)) := Overlay(base, o, chunk)]), f, Pos(i, o), chunk)
  {
    hide At, Leaf, Path, Overlay, Preserves, Holds;
    assert Forest(n);
    var m := n.(blocks := n.blocks[At(n, f, Leaf(i)) := Overlay(base, o, chunk)]);
    var lo := Pos(i, o);
    DataWriteUnseen(n, f, i, Overlay(base, o, chunk));
    WalkPreserves(fs, n, f, i, lo);
    ChunkBytes(n, m, f, i, o, chunk, base);
    PreservesTrans(fs, n, m, f, lo, lo, lo + |chunk|);
  }

  /** A block of data is behind no other file block. */
  lemma LeafOnce(n: Fs, f: nat, i: nat, g: nat, j: nat)
    requires Forest(n) && i < MAX_BLOCKS && Mapped(n, f, Leaf(i)) && Readable(n, g, j) && At(n, g, Leaf(j)) == At(n, f, Leaf(i))
    ensures g == f && j == i
  {
    hide At, Leaf;
    LeafBijective(i);
    LeafBijective(j);
  }

  lemma ChunkKeeps(n: Fs, m: Fs, f: nat, i: nat, o: nat, chunk: seq<Byte>, base: Block)
    requires Forest(n) && i < MAX_BLOCKS && Mapped(n, f, Leaf(i)) && o + |chunk| <= BLOCK_SIZE
    requires |chunk| < BLOCK_SIZE ==> base == n.blocks[At(n, f, Leaf(i))]
    requires m == n.(blocks := n.blocks[At(n, f, Leaf(i)) := Overlay(base, o, chunk)])
    ensures Preserves(n, m, f, Pos(i, o), Pos(i, o) + |chunk|)
  {
    hide At, Leaf;
    DataWriteUnseen(n, f, i, Overlay(base, o, chunk));
    var lo := Pos(i, o);
    forall g: nat, j: nat, p: nat | !(g == f && lo <= Pos(j, p) < lo + |chunk|)
      ensures SameByte(n, m, g, j, p)
    {
      if Readable(n, g, j) && At(n, g, Leaf(j)) == At(n, f, Leaf(i)) {
        LeafOnce(n, f, i, g, j);
      }
    }
  }

  lemma ChunkBytes(n: Fs, m: Fs, f: nat, i: nat, o: nat, chunk: seq<Byte>, base: Block)
    requires Forest(n) && i < MAX_BLOCKS && Mapped(n, f, Leaf(i)) && o + |chunk| <= BLOCK_SIZE
    requires |chunk| < BLOCK_SIZE ==> base == n.blocks[At(n, f, Leaf(i))]
    requires m == n.(blocks := n.blocks[At(n, f, Leaf(i)) := Overlay(base, o, chunk)])
    ensures Preserves(n, m, f, Pos(i, o), Pos(i, o) + |chunk|)
    ensures Holds(m, f, Pos(i, o), chunk)
  {
    hide At, Leaf, Preserves;
    ChunkKeeps(n, m, f, i, o, chunk, base);
    DataWriteUnseen(n, f, i, Overlay(base, o, chunk));
    var lo := Pos(i, o);
    forall j: nat, p: nat | j < MAX_BLOCKS && p < BLOCK_SIZE && lo <= Pos(j, p) < lo + |chunk|
      ensures Readable(m, f, j) && ByteOf(m, f, j, p) == chunk[Pos(j, p) - lo]
    {
      assert j == i;
    }
  }

  /** One iteration of the read loop. */
  lemma ChunkRead(fs: Fs, n: Fs, f: nat, i: nat, o: nat, len: nat)
    requires Forest(fs) && i < MAX_BLOCKS && GrowsAlong(fs, n, f, Path(i)) && KeepsData(fs, n) && Mapped(n, f, Leaf(i))
    requires o + len <= BLOCK_SIZE
    ensures At(n, f, Leaf(i)) < |n.blocks|
    ensures DidRead(fs, n, f, Pos(i, o), n.blocks[At(n, f, Leaf(i))][o..o + len])
  {
    hide At, Leaf, Path, Preserves;
    WalkPreserves(fs, n, f, i, Pos(i, o));
    forall j: nat, p: nat | j < MAX_BLOCKS && p < BLOCK_SIZE && Pos(i, o) <= Pos(j, p) < Pos(i, o) + len
      ensures Readable(n, f, j) && ByteOf(n, f, j, p) == n.blocks[At(n, f, Leaf(i))][o..o + len][Pos(j, p) - Pos(i, o)]
    {
      assert j == i;
    }
  }
}
