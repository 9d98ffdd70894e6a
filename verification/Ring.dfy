/** The ring buffer of a mailbox: buff, buff_used, start, end (libs/mailbox.c:75-83, 97-105). */
module Ring {
  import opened Blocks

  const MAX_MBOX_LENGTH: nat := 64

  datatype RingBuffer = RingBuffer(buff: seq<Byte>, start: nat, end: nat, used: nat)

  /** The buffer cell `i` places on from `from`. */
  function Cell(from: nat, i: nat): (k: nat)
    ensures k < MAX_MBOX_LENGTH
  {
    (from + i) % MAX_MBOX_LENGTH
  }

  predicate RingOk(r: RingBuffer) {
    && |r.buff| == MAX_MBOX_LENGTH && r.start < MAX_MBOX_LENGTH && r.used <= MAX_MBOX_LENGTH
    && r.end == Cell(r.start, r.used)
  }

  /** The bytes in the ring, oldest first. */
  function Contents(r: RingBuffer): (s: seq<Byte>)
    requires RingOk(r)
    ensures |s| == r.used
  {
    seq(r.used, i requires 0 <= i => r.buff[Cell(r.start, i)])
  }

  /** The index of buffer cell `k` counted from `from`. */
  function Lap(k: nat, from: nat): (i: nat)
    requires k < MAX_MBOX_LENGTH && from < MAX_MBOX_LENGTH
    ensures i < MAX_MBOX_LENGTH && Cell(from, i) == k
  {
    (k + MAX_MBOX_LENGTH - from) % MAX_MBOX_LENGTH
  }

  /** Appends a message that fits. */
  function Put(r: RingBuffer, msg: seq<Byte>): RingBuffer
    requires RingOk(r) && r.used + |msg| <= MAX_MBOX_LENGTH
  {
    RingBuffer(seq(MAX_MBOX_LENGTH, k requires 0 <= k < MAX_MBOX_LENGTH =>
                 if Lap(k, r.end) < |msg| then msg[Lap(k, r.end)] else r.buff[k]),
               r.start, Cell(r.end, |msg|), r.used + |msg|)
  }

  /** Takes the oldest `n` bytes out. */
  function Take(r: RingBuffer, n: nat): RingBuffer
    requires RingOk(r) && n <= r.used
  {
    r.(start := Cell(r.start, n), used := r.used - n)
  }

  lemma CellCell(s: nat, a: nat, b: nat)
    ensures Cell(Cell(s, a), b) == Cell(s, a + b)
  {
  }

  lemma CellWraps(s: nat, i: nat)
    requires s < MAX_MBOX_LENGTH && i <= MAX_MBOX_LENGTH
    ensures Cell(s, i) == if s + i < MAX_MBOX_LENGTH then s + i else s + i - MAX_MBOX_LENGTH
  {
  }

  lemma LapWraps(k: nat, s: nat)
    requires k < MAX_MBOX_LENGTH && s < MAX_MBOX_LENGTH
    ensures Lap(k, s) == if k >= s then k - s else k + MAX_MBOX_LENGTH - s
  {
  }

  lemma LapOfCell(s: nat, u: nat, i: nat)
    requires s < MAX_MBOX_LENGTH && u <= MAX_MBOX_LENGTH && i < MAX_MBOX_LENGTH
    ensures Lap(Cell(s, i), Cell(s, u)) == if i >= u then i - u else i + MAX_MBOX_LENGTH - u
  {
    hide Cell, Lap;
    CellWraps(s, i);
    CellWraps(s, u);
    LapWraps(Cell(s, i), Cell(s, u));
  }

  lemma LapUnique(from: nat, i: nat)
    requires from < MAX_MBOX_LENGTH && i < MAX_MBOX_LENGTH
    ensures forall k | 0 <= k < MAX_MBOX_LENGTH :: Lap(k, from) == i <==> k == Cell(from, i)
  {
    LapOfCell(from, 0, i);
    assert Cell(from, 0) == from;
  }

  /** The ring is a queue of bytes, across every wrap of the buffer. */
  lemma PutAppends(r: RingBuffer, msg: seq<Byte>)
    requires RingOk(r) && r.used + |msg| <= MAX_MBOX_LENGTH
    ensures RingOk(Put(r, msg)) && Contents(Put(r, msg)) == Contents(r) + msg
  {
    hide Cell, Lap;
    var n := Put(r, msg);
    CellCell(r.start, r.used, |msg|);
    forall i | 0 <= i < n.used
      ensures Contents(n)[i] == (Contents(r) + msg)[i]
    {
      LapOfCell(r.start, r.used, i);
    }
  }

  lemma TakeRemoves(r: RingBuffer, n: nat)
    requires RingOk(r) && n <= r.used
    ensures RingOk(Take(r, n)) && Contents(r) == Contents(r)[..n] + Contents(Take(r, n))
  {
    hide Cell;
    var t := Take(r, n);
    CellCell(r.start, n, r.used - n);
    forall i | 0 <= i < t.used
      ensures Contents(t)[i] == Contents(r)[n + i]
    {
      CellCell(r.start, n, i);
    }
  }

  /** The copy loops, in place. */
  class MailboxBuffer {
    const buff: array<Byte>
    var used: nat
    var start: nat
    var end: nat

    ghost predicate Valid()
      reads this, buff
    {
      buff.Length == MAX_MBOX_LENGTH && RingOk(State())
    }

    ghost function State(): RingBuffer
      reads this, buff
    {
      RingBuffer(buff[..], start, end, used)
    }

    /** init_mbox's part. */
    constructor ()
      ensures Valid() && fresh(buff) && used == 0 && start == 0
    {
      buff := new Byte[MAX_MBOX_LENGTH];
      used, start, end := 0, 0, 0;
    }

    method CopyIn(msg: seq<Byte>)
      requires Valid() && used + |msg| <= MAX_MBOX_LENGTH
      modifies this, buff
      ensures Valid() && State() == Put(old(State()), msg)
    {
      hide Cell, Lap;
      ghost var r := State();
      used := used + |msg|;
      for i := 0 to |msg|
        invariant start == r.start && end == r.end && used == r.used + |msg|
        invariant forall k | 0 <= k < MAX_MBOX_LENGTH ::
                    buff[k] == if Lap(k, r.end) < i then msg[Lap(k, r.end)] else r.buff[k]
      {
        buff[Cell(end, i)] := msg[i];
        LapUnique(end, i);
      }
      end := Cell(end, |msg|);
      PutAppends(r, msg);
      assert buff[..] == Put(r, msg).buff;
    }

    method CopyOut(dst: array<Byte>, n: nat)
      requires Valid() && n <= used && n <= dst.Length && dst != buff
      modifies this, dst
      ensures Valid() && State() == Take(old(State()), n) && dst[..n] == Contents(old(State()))[..n]
    {
      hide Cell;
      ghost var r := State();
      used := used - n;
      for i := 0 to n
        invariant start == r.start && end == r.end && used == r.used - n && buff[..] == r.buff
        invariant dst[..i] == Contents(r)[..i]
      {
        dst[i] := buff[Cell(start, i)];
        assert dst[..i + 1] == dst[..i] + [dst[i]] && Contents(r)[..i + 1] == Contents(r)[..i] + [Contents(r)[i]];
      }
      start := Cell(start, n);
      TakeRemoves(r, n);
    }
  }
}
