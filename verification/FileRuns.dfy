/** Runs of write, read and seek calls on the files of a formatted partition (fs/fs.c:848-984). */
module FileRuns {
  import opened Blocks
  import opened FileMap
  import opened FileGrowth
  import opened FindDataBlock
  import opened FileBytes
  import opened FileCalls

  datatype Call =
    | DoWrite(f: nat, data: seq<Byte>, pages: nat -> Block, unread: nat -> Block)
    | DoRead(f: nat, size: nat, pages: nat -> Block)
    | DoSeek(f: nat, offset: int)

  /** The file system and the offset of every open file. */
  datatype Session = Session(fs: Fs, offsets: seq<int>)

  function UpTo(n: nat): (s: set<nat>)
    ensures forall b: nat :: b in s <==> b <= n
  {
    if n == 0 then {0} else UpTo(n - 1) + {n}
  }

  /** A new file system whose `n` files have no block yet; in use are the metadata and the root directory. */
  function Formatted(blocks: seq<Block>, dataStart: nat, n: nat): Session {
    Session(Fs(dataStart, blocks, UpTo(dataStart), UpTo(dataStart), seq(n, _ => Inode(0, seq(NADDRS, _ => 0)))),
            seq(n, _ => 0))
  }

  /** A file that exists, an offset and a length that an int holds, and clean pages for pointer blocks. */
  ghost predicate CanDo(s: Session, c: Call) {
    && Shape(s.fs) && c.f < |s.fs.files| == |s.offsets|
    && match c
       case DoWrite(f, data, pages, _) => 0 <= s.offsets[f] && s.offsets[f] + |data| < INT_LIMIT && AllClean(pages)
       case DoRead(f, size, pages) => 0 <= s.offsets[f] && s.offsets[f] + size < INT_LIMIT && AllClean(pages)
       case DoSeek(_, _) => true
  }

  /** A call, whether it goes through or finds the partition full. */
  function Do(s: Session, c: Call): Session
    requires CanDo(s, c)
  {
    match c
    case DoWrite(f, data, pages, unread) =>
      var p := WriteFrom(s.fs, f, s.offsets[f], data, 0, pages, unread);
      Session(p.fs, if p.ok then s.offsets[f := s.offsets[f] + |data|] else s.offsets)
    case DoRead(f, size, pages) =>
      var p := ReadFrom(s.fs, f, s.offsets[f], size, 0, pages).p;
      Session(p.fs, if p.ok then s.offsets[f := s.offsets[f] + size] else s.offsets)
    case DoSeek(f, offset) => s.(offsets := s.offsets[f := offset])
  }

  ghost predicate RunOk(s: Session, calls: seq<Call>)
    decreases |calls|
  {
    calls == [] || (CanDo(s, calls[0]) && RunOk(Do(s, calls[0]), calls[1..]))
  }

  function Run(s: Session, calls: seq<Call>): Session
    requires RunOk(s, calls)
    decreases |calls|
  {
    if calls == [] then s else Run(Do(s, calls[0]), calls[1..])
  }

  // ----- the block maps -----

  /** Every block number that a file had, it still has. */
  ghost predicate KeepsNumbers(a: Fs, b: Fs) {
    && Shape(a) && Shape(b) && SameFrame(a, b)
    && forall f: nat, r: Ref | Mapped(a, f, r) :: Mapped(b, f, r) && At(b, f, r) == At(a, f, r)
  }

  /** Every mapped byte of file `g` is as it was. */
  ghost predicate KeepsBytes(a: Fs, b: Fs, g: nat) {
    forall i: nat, o: nat :: SameByte(a, b, g, i, o)
  }

  lemma PreservesBoth(a: Fs, b: Fs, f: nat, lo: nat, hi: nat, g: nat)
    requires Preserves(a, b, f, lo, hi)
    ensures KeepsNumbers(a, b) && (g != f || lo == hi ==> KeepsBytes(a, b, g))
  {
    hide At;
    assert forall i: nat, o: nat :: g != f || lo == hi ==> SameByte(a, b, g, i, o);
  }

  predicate Writes(c: Call, g: nat) {
    c.DoWrite? && c.f == g
  }

  /** One call, through or not, keeps the forest and its numbers, and the bytes of every file it does not write. */
  lemma DoKeeps(s: Session, c: Call, g: nat)
    requires Forest(s.fs) && CanDo(s, c)
    ensures var n := Do(s, c);
            Forest(n.fs) && KeepsNumbers(s.fs, n.fs) && (!Writes(c, g) ==> KeepsBytes(s.fs, n.fs, g))
  {
    hide Forest, WriteFrom, ReadFrom, Preserves, Holds, AllClean, Needed, KeepsNumbers, KeepsBytes;
    match c
    case DoWrite(f, data, pages, unread) =>
      WriteExact(s.fs, f, s.offsets[f], data, 0, pages, unread);
      var p := WriteFrom(s.fs, f, s.offsets[f], data, 0, pages, unread);
      if p.ok {
        PreservesBoth(s.fs, p.fs, f, s.offsets[f], s.offsets[f] + |data|, g);
      } else {
        var j: nat :| j <= |data| && Wrote(s.fs, p.fs, f, s.offsets[f], data[..j]);
        PreservesBoth(s.fs, p.fs, f, s.offsets[f], s.offsets[f] + |data[..j]|, g);
      }
    case DoRead(f, size, pages) =>
      ReadExact(s.fs, f, s.offsets[f], size, 0, pages);
      PreservesBoth(s.fs, ReadFrom(s.fs, f, s.offsets[f], size, 0, pages).p.fs, f, s.offsets[f], s.offsets[f], g);
    case DoSeek(_, _) =>
      SameKept(s.fs, g);
  }

  lemma SameKept(fs: Fs, g: nat)
    requires Forest(fs)
    ensures KeepsNumbers(fs, fs) && KeepsBytes(fs, fs, g)
  {
  }

  lemma KeptTwice(a: Fs, b: Fs, c: Fs, g: nat)
    requires KeepsNumbers(a, b) && KeepsNumbers(b, c)
    ensures KeepsNumbers(a, c) && (KeepsBytes(a, b, g) && KeepsBytes(b, c, g) ==> KeepsBytes(a, c, g))
  {
    hide At;
    if KeepsBytes(a, b, g) && KeepsBytes(b, c, g) {
      forall i: nat, o: nat
        ensures SameByte(a, c, g, i, o)
      {
        assert SameByte(a, b, g, i, o) && SameByte(b, c, g, i, o);
      }
    }
  }

  lemma {:induction false} RunKeeps(s: Session, calls: seq<Call>, g: nat)
    requires Forest(s.fs) && RunOk(s, calls)
    ensures var n := Run(s, calls);
            && Forest(n.fs) && KeepsNumbers(s.fs, n.fs)
            && ((forall k | 0 <= k < |calls| :: !Writes(calls[k], g)) ==> KeepsBytes(s.fs, n.fs, g))
    decreases |calls|
  {
    hide Forest, CanDo, Do, KeepsNumbers, KeepsBytes, Writes;
    if calls == [] {
      SameKept(s.fs, g);
    } else {
      DoKeeps(s, calls[0], g);
      RunKeeps(Do(s, calls[0]), calls[1..], g);
      KeptTwice(s.fs, Do(s, calls[0]).fs, Run(s, calls).fs, g);
      assert (forall k | 0 <= k < |calls| :: !Writes(calls[k], g)) ==>
          !Writes(calls[0], g) && forall k | 0 <= k < |calls[1..]| :: !Writes(calls[1..][k], g);
    }
  }

  lemma FormattedForest(blocks: seq<Block>, dataStart: nat, n: nat)
    requires 0 < dataStart < |blocks| < 0x1_0000_0000
    ensures Forest(Formatted(blocks, dataStart, n).fs)
  {
    var fs := Formatted(blocks, dataStart, n).fs;
    assert forall f: nat, r: Ref :: !Mapped(fs, f, r);
  }

  /** Where the block of file block `i` is, every (file, block) pair has its own, none is a pointer block
      of any file, and none is metadata, a directory's block or unallocated. */
  ghost predicate OwnBlocks(fs: Fs) {
    && Shape(fs)
    && (forall f: nat, i: nat, g: nat, j: nat | i < MAX_BLOCKS && j < MAX_BLOCKS && Mapped(fs, f, Leaf(i)) && Mapped(fs, g, Leaf(j)) && (f != g || i != j) ::
          At(fs, f, Leaf(i)) != At(fs, g, Leaf(j)))
    && (forall f: nat, i: nat, g: nat, r: Ref | i < MAX_BLOCKS && IsPointer(r) && Mapped(fs, f, Leaf(i)) && Mapped(fs, g, r) ::
          At(fs, f, Leaf(i)) != At(fs, g, r))
    && (forall f: nat, i: nat | i < MAX_BLOCKS && Mapped(fs, f, Leaf(i)) ::
          fs.dataStart <= At(fs, f, Leaf(i)) < |fs.blocks| && At(fs, f, Leaf(i)) in fs.used && At(fs, f, Leaf(i)) !in fs.reserved)
  }

  lemma ForestOwns(fs: Fs)
    requires Forest(fs)
    ensures OwnBlocks(fs)
  {
    hide At;
    forall f: nat, i: nat, g: nat, j: nat | i < MAX_BLOCKS && j < MAX_BLOCKS && Mapped(fs, f, Leaf(i)) && Mapped(fs, g, Leaf(j)) && (f != g || i != j)
      ensures At(fs, f, Leaf(i)) != At(fs, g, Leaf(j))
    {
      LeafBijective(i);
      LeafBijective(j);
    }
  }

  /** Over every run of calls on a formatted partition, failed ones included: at every point the block
      maps are a forest and each file block has a block of its own, and from there on find_data_block
      gives it the same block number for good. */
  lemma TreeOverRuns(blocks: seq<Block>, dataStart: nat, n: nat, before: seq<Call>, after: seq<Call>)
    requires 0 < dataStart < |blocks| < 0x1_0000_0000
    requires RunOk(Formatted(blocks, dataStart, n), before) && RunOk(Run(Formatted(blocks, dataStart, n), before), after)
    ensures var s := Run(Formatted(blocks, dataStart, n), before);
            var m := Run(s, after);
            && Forest(s.fs) && OwnBlocks(s.fs)
            && forall f: nat, i: nat | i < MAX_BLOCKS && Mapped(s.fs, f, Leaf(i)) ::
                 m.fs.dataStart == s.fs.dataStart && Shape(m.fs) && Mapped(m.fs, f, Leaf(i)) && At(m.fs, f, Leaf(i)) == At(s.fs, f, Leaf(i))
  {
    hide Forest, OwnBlocks, RunOk, Run, At;
    FormattedForest(blocks, dataStart, n);
    RunKeeps(Formatted(blocks, dataStart, n), before, 0);
    var s := Run(Formatted(blocks, dataStart, n), before);
    RunKeeps(s, after, 0);
    ForestOwns(s.fs);
  }

  /** Without clean pages that fails from the start: the first write to file block 10 of any file of a new
      file system, with a recycled page of ones, maps file blocks 11 and 12 to the superblock. */
  lemma RecycledPageAfterFormat(blocks: seq<Block>, dataStart: nat, n: nat, f: nat)
    requires 1 < dataStart && dataStart + 3 <= |blocks| < 0x1_0000_0000 && f < n
    ensures var fs := Formatted(blocks, dataStart, n).fs;
            && Forest(fs)
            && var o := FindBlock(fs, f, 10, OnesPage(), OnesPage());
               && o.Some? && !Forest(o.value) && Shape(o.value) && f < |o.value.files|
               && At(o.value, f, Leaf(11)) == At(o.value, f, Leaf(12)) == 1
  {
    hide FindBlock, Leaf, OnesPage;
    FormattedForest(blocks, dataStart, n);
    var fs := Formatted(blocks, dataStart, n).fs;
    assert {dataStart + 1, dataStart + 2} <= Free(fs);
    assert |Free(fs) - {dataStart + 1, dataStart + 2}| == |Free(fs)| - |{dataStart + 1, dataStart + 2}|;
    assert At(fs, f, Single) == 0;
    RecycledPageBreaksMap(fs, f);
  }

  // ----- the bytes -----

  lemma HoldsThrough(a: Fs, b: Fs, f: nat, lo: nat, d: seq<Byte>)
    requires Holds(a, f, lo, d) && KeepsBytes(a, b, f)
    ensures Holds(b, f, lo, d)
  {
    hide At, Leaf;
    forall i: nat, o: nat | i < MAX_BLOCKS && o < BLOCK_SIZE && lo <= Pos(i, o) < lo + |d|
      ensures Readable(b, f, i) && ByteOf(b, f, i, o) == d[Pos(i, o) - lo]
    {
      assert Readable(a, f, i) && ByteOf(a, f, i, o) == d[Pos(i, o) - lo];
      assert SameByte(a, b, f, i, o);
    }
  }

  /** What a write that went through has written is what a read of the span returns after any further
      run of calls that do not write the file. */
  lemma WrittenStays(s: Session, w: Call, calls: seq<Call>, pages: nat -> Block)
    requires Forest(s.fs) && CanDo(s, w) && w.DoWrite? && AllClean(pages) && RunOk(Do(s, w), calls)
    requires WriteFrom(s.fs, w.f, s.offsets[w.f], w.data, 0, w.pages, w.unread).ok
    requires forall k | 0 <= k < |calls| :: !Writes(calls[k], w.f)
    ensures var n := Run(Do(s, w), calls);
            && Shape(n.fs) && w.f < |n.fs.files|
            && var r := ReadFrom(n.fs, w.f, s.offsets[w.f], |w.data|, 0, pages); r.p.ok && r.bytes == w.data
  {
    hide Forest, Preserves, Holds, WriteFrom, ReadFrom, AllClean, Needed, KeepsBytes, Run, RunOk, At, Leaf;
    var f, lo := w.f, s.offsets[w.f];
    WriteExact(s.fs, f, lo, w.data, 0, w.pages, w.unread);
    var m := Do(s, w);
    RunKeeps(m, calls, f);
    var n := Run(m, calls);
    HoldsThrough(m.fs, n.fs, f, lo, w.data);
    HoldsNeeds(n.fs, f, lo, w.data);
    ReadExact(n.fs, f, lo, |w.data|, 0, pages);
    var r := ReadFrom(n.fs, f, lo, |w.data|, 0, pages);
    HoldsAgain(n.fs, r.p.fs, f, lo, w.data, r.bytes);
    HoldsUnique(r.p.fs, f, lo, r.bytes, w.data);
  }

  lemma HoldsAgain(a: Fs, b: Fs, f: nat, lo: nat, d: seq<Byte>, bytes: seq<Byte>)
    requires Holds(a, f, lo, d) && DidRead(a, b, f, lo, bytes)
    ensures Holds(b, f, lo, d)
  {
    hide Preserves, Forest, Holds;
    PreservesEmpty(a, b, f, lo, lo);
    HoldsKept(a, b, f, lo, d);
  }
}
