/** Disk blocks as bytes, and their little-endian 32-bit words (fs/fs.h). */
module Blocks {
  const BLOCK_SIZE: nat := 4096
  const ADDR_PER_BLOCK: nat := 1024

  type Byte = b: int | 0 <= b < 256
  type U32 = w: int | 0 <= w < 0x1_0000_0000
  type Block = s: seq<Byte> | |s| == BLOCK_SIZE witness seq(BLOCK_SIZE, _ => 0)

  function FromBytes(b0: int, b1: int, b2: int, b3: int): int {
    b0 + 0x100 * b1 + 0x1_0000 * b2 + 0x100_0000 * b3
  }

  /** The i-th element of the block read as an array of uint32_t. */
  function Word(b: Block, i: nat): (w: U32)
    requires i < ADDR_PER_BLOCK
  {
    FromBytes(b[4 * i], b[4 * i + 1], b[4 * i + 2], b[4 * i + 3])
  }

  lemma SplitBytes(w: U32)
    ensures FromBytes(w % 0x100, w / 0x100 % 0x100, w / 0x1_0000 % 0x100, w / 0x100_0000) == w
  {
    assert w / 0x100 == w / 0x1_0000 * 0x100 + w / 0x100 % 0x100;
    assert w / 0x1_0000 == w / 0x100_0000 * 0x100 + w / 0x1_0000 % 0x100;
  }

  /** Stores a word: reading it back gives the word, and every other word is untouched. */
  function PutWord(b: Block, i: nat, w: U32): (r: Block)
    requires i < ADDR_PER_BLOCK
    ensures Word(r, i) == w
    ensures forall j | 0 <= j < ADDR_PER_BLOCK && j != i :: Word(r, j) == Word(b, j)
  {
    SplitBytes(w);
    var r := b[..4 * i] + [w % 0x100, w / 0x100 % 0x100, w / 0x1_0000 % 0x100, w / 0x100_0000] + b[4 * i + 4..];
    assert forall k | 0 <= k < BLOCK_SIZE && !(4 * i <= k < 4 * i + 4) :: r[k] == b[k];
    r
  }

  /** Every word of the block is zero. */
  predicate AllZero(b: Block) {
    forall j | 0 <= j < ADDR_PER_BLOCK :: Word(b, j) == 0
  }

  /** memcpy of `src` into the block at byte `o`. */
  function Overlay(b: Block, o: nat, src: seq<Byte>): (r: Block)
    requires o + |src| <= BLOCK_SIZE
    ensures forall k | 0 <= k < BLOCK_SIZE :: r[k] == if o <= k < o + |src| then src[k - o] else b[k]
  {
    b[..o] + src + b[o + |src|..]
  }
}
