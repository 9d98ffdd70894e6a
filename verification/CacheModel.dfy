/**
 The write-back block cache (fs/fs.c:51-155) as a state and three operations.
 Slots hold pages of the kernel page allocator; View is the logical contents
 of a block: its cached page if it has one, else what is on the disk.
 */
module CacheModel {
  import opened Wrappers
  import opened Blocks
  import opened PageAllocator

  const DISK_BUFF_SIZE: nat := 32

  datatype Slot = Slot(buff: Option<nat>, using: bool, dirty: bool, id: nat)

  const EMPTY_SLOT: Slot := Slot(None, false, false, 0)

  /** mem: what each page holds. */
  datatype Cache = Cache(slots: seq<Slot>, hand: nat, ctrl: Ctrl, mem: map<nat, Block>, disk: seq<Block>)

  predicate Caches(s: Slot, b: nat) {
    s.buff.Some? && s.id == b
  }

  /** Distinct blocks in distinct live pages; an empty slot is neither pinned nor dirty. */
  ghost predicate Inv(c: Cache) {
    && |c.slots| == DISK_BUFF_SIZE && c.hand < DISK_BUFF_SIZE && Valid(c.ctrl)
    && (forall i | 0 <= i < DISK_BUFF_SIZE :: SlotOk(c, c.slots[i]))
    && (forall i, j | 0 <= i < j < DISK_BUFF_SIZE && c.slots[i].buff.Some? && c.slots[j].buff.Some? ::
          c.slots[i].id != c.slots[j].id && c.slots[i].buff != c.slots[j].buff)
  }

  ghost predicate SlotOk(c: Cache, s: Slot) {
    if s.buff.None? then !s.using && !s.dirty
    else s.id < |c.disk| && s.buff.value in c.mem && s.buff.value in c.ctrl.live
  }

  // ----- the two scans of block_get -----

  /** The first slot at or after `i` that caches block `b`. */
  function Find(s: seq<Slot>, b: nat, i: nat): (r: Option<nat>)
    requires i <= |s|
    ensures r.Some? ==> i <= r.value < |s| && Caches(s[r.value], b)
    ensures r.None? ==> forall k | i <= k < |s| :: !Caches(s[k], b)
    decreases |s| - i
  {
    if i == |s| then None else if Caches(s[i], b) then Some(i) else Find(s, b, i + 1)
  }

  /** The first unpinned slot among the `n` from `k` on, wrapping around. */
  function Scan(s: seq<Slot>, k: nat, n: nat): (r: Option<nat>)
    requires |s| == DISK_BUFF_SIZE && k < |s|
    ensures r.Some? ==> r.value < |s| && !s[r.value].using
    decreases n
  {
    if n == 0 then None else if !s[k].using then Some(k) else Scan(s, (k + 1) % DISK_BUFF_SIZE, n - 1)
  }

  function Wrap(k: nat, e: nat): (w: nat)
    ensures w < DISK_BUFF_SIZE
  {
    (k + e) % DISK_BUFF_SIZE
  }

  lemma WrapStep(k: nat, e: nat)
    ensures Wrap(Wrap(k, 1), e) == Wrap(k, e + 1)
  {
  }

  /** Where a scan stops: `d` steps on, everything before it pinned. */
  lemma {:induction false} ScanStops(s: seq<Slot>, k: nat, n: nat) returns (d: nat)
    requires |s| == DISK_BUFF_SIZE && k < DISK_BUFF_SIZE && n <= DISK_BUFF_SIZE
    ensures d <= n && forall e | 0 <= e < d :: s[Wrap(k, e)].using
    ensures d < n <==> Scan(s, k, n).Some?
    ensures d < n ==> Scan(s, k, n) == Some(Wrap(k, d)) && !s[Wrap(k, d)].using
    decreases n
  {
    if n == 0 || !s[k].using {
      d := 0;
      assert Wrap(k, 0) == k;
    } else {
      var rest := ScanStops(s, Wrap(k, 1), n - 1);
      d := rest + 1;
      WrapStep(k, rest);
      forall e | 0 <= e < d
        ensures s[Wrap(k, e)].using
      {
        if e > 0 {
          WrapStep(k, e - 1);
        }
      }
    }
  }

  /** The steps from `k` to `i`. */
  lemma Distance(k: nat, i: nat) returns (e: nat)
    requires k < DISK_BUFF_SIZE && i < DISK_BUFF_SIZE
    ensures e < DISK_BUFF_SIZE && Wrap(k, e) == i
  {
    e := if i >= k then i - k else i - k + DISK_BUFF_SIZE;
  }

  /** The victim scan ends whenever one slot is unpinned, wherever the hand is. */
  lemma ScanFinds(s: seq<Slot>, k: nat, i: nat)
    requires |s| == DISK_BUFF_SIZE && k < DISK_BUFF_SIZE && i < DISK_BUFF_SIZE && !s[i].using
    ensures Scan(s, k, DISK_BUFF_SIZE).Some?
  {
    var d := ScanStops(s, k, DISK_BUFF_SIZE);
    var e := Distance(k, i);
  }

  // ----- operations -----

  function View(c: Cache, b: nat): Block
    requires Inv(c) && b < |c.disk|
  {
    var i := Find(c.slots, b, 0);
    if i.Some? then c.mem[c.slots[i.value].buff.value] else c.disk[b]
  }

  /** block_get can return: the block is cached, or some slot is unpinned. */
  predicate CanGet(c: Cache, b: nat) {
    && |c.slots| == DISK_BUFF_SIZE && c.hand < DISK_BUFF_SIZE && b < |c.disk|
    && (Find(c.slots, b, 0).Some? || Scan(c.slots, c.hand, |c.slots|).Some?)
  }

  function Victim(c: Cache): (v: nat)
    requires |c.slots| == DISK_BUFF_SIZE && c.hand < DISK_BUFF_SIZE && Scan(c.slots, c.hand, |c.slots|).Some?
    ensures v < |c.slots| && !c.slots[v].using
  {
    Scan(c.slots, c.hand, |c.slots|).value
  }

  /** Empties slot `v`, writing its page back if dirty. */
  function Evict(c: Cache, v: nat): Cache
    requires Inv(c) && v < |c.slots|
  {
    var s := c.slots[v];
    if s.buff.None? then c
    else c.(disk := if s.dirty then c.disk[s.id := c.mem[s.buff.value]] else c.disk,
            ctrl := Free(c.ctrl, s.buff.value),
            slots := c.slots[v := EMPTY_SLOT])
  }

  /** Loads block `b` into the empty slot `v`; an unread page keeps what it held, or `junk` if it is new. */
  function Load(c: Cache, v: nat, b: nat, doRead: bool, junk: Block): Cache
    requires v < |c.slots| && b < |c.disk|
  {
    var p := NewPage(c.ctrl);
    c.(ctrl := Alloc(c.ctrl),
       mem := c.mem[p := if doRead then c.disk[b] else if p in c.mem then c.mem[p] else junk],
       slots := c.slots[v := Slot(Some(p), c.slots[v].using, !doRead, b)],
       hand := (c.hand + 1) % DISK_BUFF_SIZE)
  }

  function Get(c: Cache, b: nat, doRead: bool, junk: Block): Cache
    requires Inv(c) && CanGet(c, b)
  {
    var i := Find(c.slots, b, 0);
    if i.Some? then c.(slots := c.slots[i.value := c.slots[i.value].(using := true)])
    else Load(Evict(c, Victim(c)), Victim(c), b, doRead, junk)
  }

  /** The slot whose page is `p`. */
  function FindPage(s: seq<Slot>, p: nat, i: nat): (r: Option<nat>)
    requires i <= |s|
    ensures r.Some? ==> i <= r.value < |s| && s[r.value].buff == Some(p)
    ensures r.None? ==> forall k | i <= k < |s| :: s[k].buff != Some(p)
    decreases |s| - i
  {
    if i == |s| then None else if s[i].buff == Some(p) then Some(i) else FindPage(s, p, i + 1)
  }

  function Commit(c: Cache, p: nat, doWrite: bool): Cache {
    var i := FindPage(c.slots, p, 0);
    if i.None? then c
    else c.(slots := c.slots[i.value := c.slots[i.value].(using := false, dirty := doWrite || c.slots[i.value].dirty)])
  }

  /** block_sink from slot `i` on. */
  function Sink(c: Cache, i: nat): (n: Cache)
    requires Inv(c) && i <= |c.slots|
    decreases |c.slots| - i
  {
    if i == |c.slots| then c
    else if !c.slots[i].dirty then Sink(c, i + 1)
    else WriteBackInv(c, i); Sink(WriteBack(c, i), i + 1)
  }

  function WriteBack(c: Cache, i: nat): Cache
    requires Inv(c) && i < |c.slots| && c.slots[i].buff.Some?
  {
    var s := c.slots[i];
    c.(disk := c.disk[s.id := c.mem[s.buff.value]], slots := c.slots[i := s.(dirty := false)])
  }

  lemma WriteBackInv(c: Cache, i: nat)
    requires Inv(c) && i < |c.slots| && c.slots[i].buff.Some?
    ensures Inv(WriteBack(c, i)) && |WriteBack(c, i).disk| == |c.disk|
    ensures forall b | 0 <= b < |c.disk| :: View(WriteBack(c, i), b) == View(c, b)
  {
    var n := WriteBack(c, i);
    forall b | 0 <= b < |c.disk|
      ensures View(n, b) == View(c, b)
    {
      SameFind(c, n, b);
    }
  }

  /** Which slot caches a block does not depend on the pin and dirty flags. */
  lemma SameFind(c: Cache, n: Cache, b: nat)
    requires |c.slots| == |n.slots| && forall k | 0 <= k < |c.slots| :: n.slots[k].buff == c.slots[k].buff && n.slots[k].id == c.slots[k].id
    ensures Find(n.slots, b, 0) == Find(c.slots, b, 0)
  {
    SameFindFrom(c.slots, n.slots, b, 0);
  }

  lemma {:induction false} SameFindFrom(s: seq<Slot>, t: seq<Slot>, b: nat, i: nat)
    requires |s| == |t| && i <= |s| && forall k | 0 <= k < |s| :: t[k].buff == s[k].buff && t[k].id == s[k].id
    ensures Find(t, b, i) == Find(s, b, i)
    decreases |s| - i
  {
    if i == |s| || Caches(s[i], b) {
    } else {
      SameFindFrom(s, t, b, i + 1);
    }
  }
}
