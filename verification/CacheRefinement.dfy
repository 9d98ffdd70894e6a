/**
 The block cache refines a plain array of blocks (fs/fs.c:86-155). A caller
 holds a block from block_get to block_commit and may change it in between.
 block_get pins a block it finds but not one it loads, so the guarantee has
 an exact condition on the slot the victim scan picks.
 */
module CacheRefinement {
  import opened Wrappers
  import opened Blocks
  import opened PageAllocator
  import opened CacheModel

  /** A clean slot whose page no longer agrees with the disk: evicting it loses the change. */
  predicate Stale(c: Cache, s: Slot)
    requires s.buff.Some? ==> s.buff.value in c.mem && s.id < |c.disk|
  {
    s.buff.Some? && !s.dirty && c.mem[s.buff.value] != c.disk[s.id]
  }

  lemma FindUnique(c: Cache, b: nat, k: nat)
    requires Inv(c) && k < DISK_BUFF_SIZE && Caches(c.slots[k], b)
    ensures Find(c.slots, b, 0) == Some(k)
  {
  }

  /** Looking up a block after one slot changed to cache block `b` or nothing. */
  lemma FindElsewhere(s: seq<Slot>, t: seq<Slot>, v: nat, x: nat)
    requires |s| == |t| && v < |s| && forall k | 0 <= k < |s| && k != v :: t[k].buff == s[k].buff && t[k].id == s[k].id
    requires !Caches(s[v], x) && !Caches(t[v], x)
    ensures Find(t, x, 0) == Find(s, x, 0)
  {
    FindElsewhereFrom(s, t, v, x, 0);
  }

  lemma {:induction false} FindElsewhereFrom(s: seq<Slot>, t: seq<Slot>, v: nat, x: nat, i: nat)
    requires |s| == |t| && v < |s| && i <= |s|
    requires forall k | 0 <= k < |s| && k != v :: t[k].buff == s[k].buff && t[k].id == s[k].id
    requires !Caches(s[v], x) && !Caches(t[v], x)
    ensures Find(t, x, i) == Find(s, x, i)
    decreases |s| - i
  {
    if i == |s| || Caches(s[i], x) {
    } else {
      FindElsewhereFrom(s, t, v, x, i + 1);
    }
  }

  lemma EvictShape(c: Cache, v: nat)
    requires Inv(c) && v < DISK_BUFF_SIZE
    ensures var n := Evict(c, v);
            && Inv(n) && |n.disk| == |c.disk| && n.slots[v].buff.None? && n.mem == c.mem
            && (forall k | 0 <= k < DISK_BUFF_SIZE && k != v :: n.slots[k] == c.slots[k])
  {
    var s := c.slots[v];
    if s.buff.Some? {
      AlignedBase(c.ctrl, s.buff.value);
      FreeValid(c.ctrl, s.buff.value);
    }
  }

  lemma EvictInv(c: Cache, v: nat)
    requires Inv(c) && v < DISK_BUFF_SIZE
    ensures var n := Evict(c, v);
            && Inv(n) && |n.disk| == |c.disk| && n.slots[v].buff.None?
            && (forall x | 0 <= x < |c.disk| && !Caches(c.slots[v], x) :: View(n, x) == View(c, x))
            && (c.slots[v].buff.Some? ==>
                  var y := c.slots[v].id;
                  Find(n.slots, y, 0).None? && (View(n, y) == View(c, y) <==> !Stale(c, c.slots[v])))
  {
    hide Find, Valid, Free;
    EvictShape(c, v);
    var s := c.slots[v];
    if s.buff.Some? {
      FindUnique(c, s.id, v);
      forall x | 0 <= x < |c.disk| && x != s.id
        ensures View(Evict(c, v), x) == View(c, x)
      {
        FindElsewhere(c.slots, Evict(c, v).slots, v, x);
      }
    }
  }

  lemma LoadInv(c: Cache, v: nat, b: nat, doRead: bool, junk: Block)
    requires Inv(c) && v < DISK_BUFF_SIZE && b < |c.disk| && c.slots[v].buff.None? && Find(c.slots, b, 0).None?
    ensures var n := Load(c, v, b, doRead, junk);
            && Inv(n) && n.disk == c.disk && Find(n.slots, b, 0) == Some(v)
            && (forall x | 0 <= x < |c.disk| && (x != b || doRead) :: View(n, x) == View(c, x))
            && (forall q | q in c.mem && q in c.ctrl.live :: n.mem[q] == c.mem[q])
  {
    AllocValid(c.ctrl);
    var n := Load(c, v, b, doRead, junk);
    forall k | 0 <= k < DISK_BUFF_SIZE
      ensures SlotOk(n, n.slots[k])
    {
      assert SlotOk(c, c.slots[k]);
    }
    FindUnique(n, b, v);
    forall x | 0 <= x < |c.disk| && x != b
      ensures View(n, x) == View(c, x)
    {
      FindElsewhere(c.slots, n.slots, v, x);
      var k := Find(c.slots, x, 0);
      assert k.Some? ==> SlotOk(c, c.slots[k.value]);
    }
  }

  /** The page block_get returns. */
  function PageOf(c: Cache, b: nat): nat
    requires Inv(c) && Find(c.slots, b, 0).Some?
  {
    c.slots[Find(c.slots, b, 0).value].buff.value
  }

  /** block_get keeps the invariant, caches the block, and keeps the logical contents of every
      other block exactly when the slot it evicts is not stale. */
  lemma GetExact(c: Cache, b: nat, doRead: bool, junk: Block)
    requires Inv(c) && CanGet(c, b)
    ensures var n := Get(c, b, doRead, junk);
            var hit := Find(c.slots, b, 0).Some?;
            && Inv(n) && |n.disk| == |c.disk| && Find(n.slots, b, 0).Some?
            && ((forall x | 0 <= x < |c.disk| && x != b :: View(n, x) == View(c, x)) <==>
                hit || !Stale(c, c.slots[Victim(c)]))
            && (hit || doRead ==> View(n, b) == View(c, b))
            && n.mem[PageOf(n, b)] == View(n, b)
  {
    hide Find, Scan;
    var hit := Find(c.slots, b, 0);
    var n := Get(c, b, doRead, junk);
    if hit.Some? {
      SameFind(c, n, b);
      forall x | 0 <= x < |c.disk|
        ensures View(n, x) == View(c, x)
      {
        SameFind(c, n, x);
      }
    } else {
      var v := Victim(c);
      EvictInv(c, v);
      var e := Evict(c, v);
      FindElsewhere(c.slots, e.slots, v, b);
      LoadInv(e, v, b, doRead, junk);
      var s := c.slots[v];
      if Stale(c, s) {
        assert View(n, s.id) == View(e, s.id) != View(c, s.id);
      }
    }
  }

  // ----- callers holding blocks -----

  datatype Op =
    | GetBlock(b: nat, doRead: bool, junk: Block)
    | Modify(b: nat, x: Block)
    | CommitBlock(b: nat, doWrite: bool)
    | SinkAll

  /** held: blocks handed out and not committed since. */
  datatype Session = Session(c: Cache, held: set<nat>)

  /** Held blocks are cached, and only held blocks may differ from the disk without being dirty. */
  ghost predicate SessionInv(h: Session) {
    && Inv(h.c)
    && (forall b | b in h.held :: b < |h.c.disk| && Find(h.c.slots, b, 0).Some?)
    && OnlyHeldStale(h.c, h.held)
  }

  /** What a caller must respect; for a block not cached, the victim slot must not be held. */
  ghost predicate Legal(h: Session, op: Op) {
    && Inv(h.c)
    && match op
       case GetBlock(b, _, _) =>
         CanGet(h.c, b) && (Find(h.c.slots, b, 0).None? ==> var s := h.c.slots[Victim(h.c)]; s.buff.Some? ==> s.id !in h.held)
       case Modify(b, _) => b in h.held
       case CommitBlock(b, w) => b in h.held && (w || (Find(h.c.slots, b, 0).Some? && !Stale(h.c, h.c.slots[Find(h.c.slots, b, 0).value])))
       case SinkAll => true
  }

  ghost function Step(h: Session, op: Op): Session
    requires SessionInv(h) && Legal(h, op)
  {
    match op
    case GetBlock(b, r, junk) => Session(Get(h.c, b, r, junk), h.held + {b})
    case Modify(b, x) => h.(c := h.c.(mem := h.c.mem[PageOf(h.c, b) := x]))
    case CommitBlock(b, w) => Session(Commit(h.c, PageOf(h.c, b), w), h.held - {b})
    case SinkAll => h.(c := Sink(h.c, 0))
  }

  /** The plain array: Modify changes one block, an unread get may change its block, nothing else changes anything. */
  ghost predicate PlainStep(c: Cache, op: Op, n: Cache) {
    && Inv(c) && Inv(n) && |n.disk| == |c.disk|
    && forall x | 0 <= x < |c.disk| && !(op.GetBlock? && !op.doRead && x == op.b) ::
         View(n, x) == if op.Modify? && x == op.b then op.x else View(c, x)
  }

  /** Held blocks stay in the page their holder points to. */
  ghost predicate PointersStay(h: Session, n: Session) {
    && SessionInv(h) && SessionInv(n)
    && forall b | b in h.held && b in n.held :: PageOf(n.c, b) == PageOf(h.c, b)
  }

  lemma GetRefines(h: Session, op: Op)
    requires SessionInv(h) && Legal(h, op) && op.GetBlock?
    ensures var n := Step(h, op); SessionInv(n) && PlainStep(h.c, op, n.c) && PointersStay(h, n)
  {
    hide View, Get, Find, Scan, Inv;
    GetExact(h.c, op.b, op.doRead, op.junk);
    if Find(h.c.slots, op.b, 0).Some? {
      HitKeepsSlots(h, op);
    } else {
      MissKeepsHeld(h, op);
      var s := h.c.slots[Victim(h.c)];
      VictimNotStale(h, Victim(h.c));
    }
  }

  lemma VictimNotStale(h: Session, v: nat)
    requires SessionInv(h) && v < DISK_BUFF_SIZE && (h.c.slots[v].buff.Some? ==> h.c.slots[v].id !in h.held)
    ensures SlotOk(h.c, h.c.slots[v]) && !Stale(h.c, h.c.slots[v])
  {
  }

  ghost predicate OnlyHeldStale(c: Cache, held: set<nat>) {
    forall i | 0 <= i < |c.slots| && SlotOk(c, c.slots[i]) && Stale(c, c.slots[i]) :: c.slots[i].id in held
  }

  lemma HitKeepsSlots(h: Session, op: Op)
    requires SessionInv(h) && Legal(h, op) && op.GetBlock? && Find(h.c.slots, op.b, 0).Some?
    ensures var n := Step(h, op).c;
            && Inv(n) && OnlyHeldStale(n, h.held)
            && (forall x | x in h.held + {op.b} :: Find(n.slots, x, 0).Some? && PageOf(n, x) == PageOf(h.c, x))
  {
    var n := Step(h, op).c;
    GetExact(h.c, op.b, op.doRead, op.junk);
    forall x | x in h.held + {op.b}
      ensures Find(n.slots, x, 0) == Find(h.c.slots, x, 0)
    {
      SameFind(h.c, n, x);
    }
    assert forall i | 0 <= i < DISK_BUFF_SIZE :: SlotOk(h.c, h.c.slots[i]);
  }

  /** A miss changes the victim slot and no other, and the pages of the others keep their contents. */
  lemma MissSlots(c: Cache, b: nat, doRead: bool, junk: Block)
    requires Inv(c) && CanGet(c, b) && Find(c.slots, b, 0).None?
    ensures var v, n := Victim(c), Get(c, b, doRead, junk);
            && Inv(n) && |n.disk| == |c.disk| && Caches(n.slots[v], b) && (doRead ==> !Stale(n, n.slots[v]))
            && (n.slots[v].dirty <==> !doRead)
            && (forall i | 0 <= i < DISK_BUFF_SIZE && i != v :: n.slots[i] == c.slots[i])
            && (forall i | 0 <= i < DISK_BUFF_SIZE && i != v && c.slots[i].buff.Some? ::
                  n.mem[c.slots[i].buff.value] == c.mem[c.slots[i].buff.value] && n.disk[c.slots[i].id] == c.disk[c.slots[i].id])
  {
    hide Scan, Valid;
    var v := Victim(c);
    var e := Evict(c, v);
    EvictInv(c, v);
    FindElsewhere(c.slots, e.slots, v, b);
    LoadInv(e, v, b, doRead, junk);
    assert forall i | 0 <= i < DISK_BUFF_SIZE :: SlotOk(c, c.slots[i]) && SlotOk(e, e.slots[i]);
  }

  lemma MissKeepsHeld(h: Session, op: Op)
    requires SessionInv(h) && Legal(h, op) && op.GetBlock? && Find(h.c.slots, op.b, 0).None?
    ensures var n := Step(h, op).c;
            && Inv(n) && OnlyHeldStale(n, h.held)
            && (forall x | x in h.held :: Find(n.slots, x, 0).Some? && PageOf(n, x) == PageOf(h.c, x))
  {
    hide Scan, Valid, Find, Get, View;
    var c, n := h.c, Step(h, op).c;
    MissSlots(c, op.b, op.doRead, op.junk);
    assert forall i | 0 <= i < DISK_BUFF_SIZE :: SlotOk(c, c.slots[i]);
    forall x | x in h.held
      ensures Find(n.slots, x, 0) == Find(c.slots, x, 0)
    {
      FindElsewhere(c.slots, n.slots, Victim(c), x);
    }
  }

  lemma ModifyRefines(h: Session, op: Op)
    requires SessionInv(h) && Legal(h, op) && op.Modify?
    ensures var n := Step(h, op); SessionInv(n) && PlainStep(h.c, op, n.c) && PointersStay(h, n)
  {
    var c := h.c;
    var k := Find(c.slots, op.b, 0).value;
    var n := Step(h, op).c;
    forall i | 0 <= i < DISK_BUFF_SIZE && i != k && c.slots[i].buff.Some?
      ensures n.mem[c.slots[i].buff.value] == c.mem[c.slots[i].buff.value]
    {
      assert SlotOk(c, c.slots[i]);
      assert c.slots[i].buff != c.slots[k].buff;
    }
    assert forall i | 0 <= i < DISK_BUFF_SIZE :: SlotOk(c, c.slots[i]) && SlotOk(n, n.slots[i]);
  }

  lemma CommitInv(c: Cache, n: Cache, k: nat, dirty: bool)
    requires Inv(c) && k < |c.slots| && c.slots[k].buff.Some?
    requires n == c.(slots := c.slots[k := c.slots[k].(using := false, dirty := dirty)])
    ensures Inv(n) && forall i | 0 <= i < DISK_BUFF_SIZE :: SlotOk(c, c.slots[i]) && SlotOk(n, n.slots[i])
    ensures |n.slots| == |c.slots| && forall i | 0 <= i < |c.slots| :: n.slots[i].buff == c.slots[i].buff && n.slots[i].id == c.slots[i].id
  {
  }

  /** Commit changes two flags of the slot whose page it is given. */
  lemma CommitSlot(c: Cache, b: nat, doWrite: bool)
    requires Inv(c) && Find(c.slots, b, 0).Some?
    ensures var k := Find(c.slots, b, 0).value;
            Commit(c, PageOf(c, b), doWrite) == c.(slots := c.slots[k := c.slots[k].(using := false, dirty := doWrite || c.slots[k].dirty)])
  {
    hide Scan, Valid, SlotOk;
    assert FindPage(c.slots, PageOf(c, b), 0) == Find(c.slots, b, 0);
  }

  lemma CommitRefines(h: Session, op: Op)
    requires SessionInv(h) && Legal(h, op) && op.CommitBlock?
    ensures var n := Step(h, op); SessionInv(n) && PlainStep(h.c, op, n.c) && PointersStay(h, n)
  {
    hide Scan, Find, FindPage, Commit, Inv;
    var c := h.c;
    var k := Find(c.slots, op.b, 0).value;
    var n := Step(h, op).c;
    CommitSlot(c, op.b, op.doWrite);
    CommitInv(c, n, k, op.doWrite || c.slots[k].dirty);
    forall x: nat
      ensures Find(n.slots, x, 0) == Find(c.slots, x, 0)
    {
      SameFind(c, n, x);
    }
  }

  /** Writing a dirty slot back cleans it, leaves it not stale, and no other slot becomes stale. */
  lemma WriteBackSlots(c: Cache, i: nat)
    requires Inv(c) && i < DISK_BUFF_SIZE && c.slots[i].dirty
    ensures var n := WriteBack(c, i);
            && Inv(n) && n.slots == c.slots[i := c.slots[i].(dirty := false)]
            && (forall k | 0 <= k < DISK_BUFF_SIZE && c.slots[k].buff.Some? :: Stale(n, n.slots[k]) <==> Stale(c, c.slots[k]))
  {
    hide View, Valid;
    WriteBackInv(c, i);
    assert forall k | 0 <= k < DISK_BUFF_SIZE :: SlotOk(c, c.slots[k]);
  }

  /** block_sink changes no logical contents and leaves no slot dirty. */
  lemma {:induction false} SinkKeeps(c: Cache, i: nat)
    requires Inv(c) && i <= DISK_BUFF_SIZE
    ensures var n := Sink(c, i);
            && Inv(n) && |n.disk| == |c.disk| && n.mem == c.mem
            && (forall k | 0 <= k < DISK_BUFF_SIZE :: n.slots[k].buff == c.slots[k].buff && n.slots[k].id == c.slots[k].id)
            && (forall k | 0 <= k < DISK_BUFF_SIZE :: if k < i || !c.slots[k].dirty then n.slots[k] == c.slots[k] else !n.slots[k].dirty)
            && (forall x | 0 <= x < |c.disk| :: View(n, x) == View(c, x))
            && (forall k | i <= k < DISK_BUFF_SIZE && c.slots[k].buff.Some? :: Stale(n, n.slots[k]) <==> Stale(c, c.slots[k]))
            && (forall k | 0 <= k < i && c.slots[k].buff.Some? :: Stale(n, n.slots[k]) <==> Stale(c, c.slots[k]))
    decreases DISK_BUFF_SIZE - i
  {
    hide View, Valid;
    if i == DISK_BUFF_SIZE {
    } else if c.slots[i].dirty {
      WriteBackInv(c, i);
      WriteBackSlots(c, i);
      SinkKeeps(WriteBack(c, i), i + 1);
    } else {
      SinkKeeps(c, i + 1);
    }
  }

  lemma SinkRefines(h: Session)
    requires SessionInv(h)
    ensures var n := Step(h, SinkAll); SessionInv(n) && PlainStep(h.c, SinkAll, n.c) && PointersStay(h, n)
  {
    SinkKeeps(h.c, 0);
    var n := Sink(h.c, 0);
    forall x: nat
      ensures Find(n.slots, x, 0) == Find(h.c.slots, x, 0)
    {
      SameFind(h.c, n, x);
    }
    assert forall i | 0 <= i < DISK_BUFF_SIZE :: SlotOk(h.c, h.c.slots[i]) && SlotOk(n, n.slots[i]);
  }

  /** After block_sink the disk holds the logical contents exactly when no slot was stale;
      with nothing held, that is always. */
  lemma SinkExact(c: Cache)
    requires Inv(c)
    ensures var n := Sink(c, 0);
            && Inv(n) && |n.disk| == |c.disk|
            && ((forall x | 0 <= x < |c.disk| :: n.disk[x] == View(c, x)) <==>
                (forall i | 0 <= i < DISK_BUFF_SIZE && SlotOk(c, c.slots[i]) :: !Stale(c, c.slots[i])))
  {
    SinkKeeps(c, 0);
    var n := Sink(c, 0);
    assert forall i | 0 <= i < DISK_BUFF_SIZE :: SlotOk(c, c.slots[i]) && SlotOk(n, n.slots[i]);
    forall i | 0 <= i < DISK_BUFF_SIZE && c.slots[i].buff.Some?
      ensures View(c, c.slots[i].id) == c.mem[c.slots[i].buff.value]
    {
      FindUnique(c, c.slots[i].id, i);
    }
  }

  lemma StepRefines(h: Session, op: Op)
    requires SessionInv(h) && Legal(h, op)
    ensures var n := Step(h, op); SessionInv(n) && PlainStep(h.c, op, n.c) && PointersStay(h, n)
  {
    match op
    case GetBlock(_, _, _) => GetRefines(h, op);
    case Modify(_, _) => ModifyRefines(h, op);
    case CommitBlock(_, _) => CommitRefines(h, op);
    case SinkAll => SinkRefines(h);
  }

  // ----- runs -----

  ghost predicate LegalRun(h: Session, ops: seq<Op>)
    decreases |ops|
  {
    ops == [] || (SessionInv(h) && Legal(h, ops[0]) && LegalRun(Step(h, ops[0]), ops[1..]))
  }

  ghost function Run(h: Session, ops: seq<Op>): Session
    requires LegalRun(h, ops)
    decreases |ops|
  {
    if ops == [] then h else Run(Step(h, ops[0]), ops[1..])
  }

  /** What block `x` holds after `ops` on a plain array; None once an unread get made it unknown. */
  function Expected(x: nat, before: Option<Block>, ops: seq<Op>): Option<Block>
    decreases |ops|
  {
    if ops == [] then before
    else
      var op := ops[0];
      var next := if op.Modify? && op.b == x then Some(op.x)
                  else if op.GetBlock? && !op.doRead && op.b == x then None
                  else before;
      Expected(x, next, ops[1..])
  }

  /** Over every legal run the cache behaves as the plain array: each block holds what was last stored in it. */
  lemma {:induction false} RunRefines(h: Session, ops: seq<Op>, x: nat, before: Option<Block>)
    requires SessionInv(h) && LegalRun(h, ops) && x < |h.c.disk|
    requires before.Some? ==> View(h.c, x) == before.value
    ensures var n := Run(h, ops).c;
            SessionInv(Run(h, ops)) && x < |n.disk| && (Expected(x, before, ops).Some? ==> View(n, x) == Expected(x, before, ops).value)
    decreases |ops|
  {
    if ops == [] {
    } else {
      StepRefines(h, ops[0]);
      var op := ops[0];
      var next := if op.Modify? && op.b == x then Some(op.x)
                  else if op.GetBlock? && !op.doRead && op.b == x then None
                  else before;
      RunRefines(Step(h, op), ops[1..], x, next);
    }
  }

  /** A run that ends with everything committed and sunk leaves the plain array on the disk. */
  lemma RunThenSink(h: Session, ops: seq<Op>, x: nat)
    requires SessionInv(h) && LegalRun(h, ops) && x < |h.c.disk| && Run(h, ops).held == {}
    ensures var n := Run(h, ops).c;
            SessionInv(Run(h, ops)) && x < |Sink(n, 0).disk| &&
            (Expected(x, Some(View(h.c, x)), ops).Some? ==> Sink(n, 0).disk[x] == Expected(x, Some(View(h.c, x)), ops).value)
  {
    RunRefines(h, ops, x, Some(View(h.c, x)));
    SinkExact(Run(h, ops).c);
  }

  // ----- the unpinned miss -----

  /** A scan stops at the only slot that can stop it. */
  lemma ScanAt(s: seq<Slot>, k: nat, d: nat)
    requires |s| == DISK_BUFF_SIZE && k < DISK_BUFF_SIZE && d < DISK_BUFF_SIZE && !s[Wrap(k, d)].using
    requires forall e: nat | e < d :: s[Wrap(k, e)].using
    ensures Scan(s, k, DISK_BUFF_SIZE) == Some(Wrap(k, d))
  {
    hide Scan, Wrap;
    var e := ScanStops(s, k, DISK_BUFF_SIZE);
    assert !(e < d) && !(d < e);
  }

  lemma RescanPinned(s: seq<Slot>, hand: nat)
    requires |s| == DISK_BUFF_SIZE && hand < DISK_BUFF_SIZE && Scan(s, hand, DISK_BUFF_SIZE).Some? && s[hand].using
    ensures Scan(s, Wrap(hand, 1), DISK_BUFF_SIZE) == Scan(s, hand, DISK_BUFF_SIZE)
  {
    hide Scan, Wrap;
    var d := ScanStops(s, hand, DISK_BUFF_SIZE);
    WrapZero(hand);
    WrapStep(hand, d - 1);
    forall e: nat | e < d - 1
      ensures s[Wrap(Wrap(hand, 1), e)].using
    {
      WrapStep(hand, e);
    }
    ScanAt(s, Wrap(hand, 1), d - 1);
  }

  lemma WrapZero(k: nat)
    requires k < DISK_BUFF_SIZE
    ensures Wrap(k, 0) == k
  {
  }

  /** From one past the hand every slot but the hand's is fewer than 31 steps away, and the hand's is 31. */
  lemma StepsRound(hand: nat, e: nat)
    requires hand < DISK_BUFF_SIZE && e < DISK_BUFF_SIZE
    ensures Wrap(Wrap(hand, 1), e) == hand <==> e == DISK_BUFF_SIZE - 1
  {
  }

  lemma RescanUnpinned(s: seq<Slot>, hand: nat)
    requires |s| == DISK_BUFF_SIZE && hand < DISK_BUFF_SIZE && !s[hand].using
    ensures Scan(s, Wrap(hand, 1), DISK_BUFF_SIZE) == Some(hand) <==> forall i | 0 <= i < DISK_BUFF_SIZE && i != hand :: s[i].using
  {
    hide Scan, Wrap;
    var k := Wrap(hand, 1);
    var last := DISK_BUFF_SIZE - 1;
    StepsRound(hand, last);
    if forall i | 0 <= i < DISK_BUFF_SIZE && i != hand :: s[i].using {
      forall e: nat | e < last
        ensures s[Wrap(k, e)].using
      {
        StepsRound(hand, e);
      }
      ScanAt(s, k, last);
    } else {
      var i :| 0 <= i < DISK_BUFF_SIZE && i != hand && !s[i].using;
      var d := ScanStops(s, k, DISK_BUFF_SIZE);
      var e := Distance(k, i);
      StepsRound(hand, e);
      if d < DISK_BUFF_SIZE {
        StepsRound(hand, d);
      }
    }
  }

  /** Scanning again from one past the hand: the same slot stops it exactly when the hand
      stood on a pinned slot, or every other slot is pinned. */
  lemma RescanExact(s: seq<Slot>, hand: nat)
    requires |s| == DISK_BUFF_SIZE && hand < DISK_BUFF_SIZE && Scan(s, hand, DISK_BUFF_SIZE).Some?
    ensures Scan(s, Wrap(hand, 1), DISK_BUFF_SIZE).Some?
    ensures Scan(s, Wrap(hand, 1), DISK_BUFF_SIZE) == Scan(s, hand, DISK_BUFF_SIZE) <==>
            s[hand].using || forall i | 0 <= i < DISK_BUFF_SIZE && i != hand :: s[i].using
  {
    hide Scan, Wrap;
    var d := ScanStops(s, hand, DISK_BUFF_SIZE);
    ScanFinds(s, Wrap(hand, 1), Wrap(hand, d));
    if s[hand].using {
      RescanPinned(s, hand);
    } else {
      WrapZero(hand);
      ScanAt(s, hand, 0);
      RescanUnpinned(s, hand);
    }
  }

  lemma ScanSameFlags(s: seq<Slot>, t: seq<Slot>, k: nat)
    requires |s| == |t| == DISK_BUFF_SIZE && k < DISK_BUFF_SIZE && forall i | 0 <= i < DISK_BUFF_SIZE :: t[i].using == s[i].using
    ensures Scan(t, k, DISK_BUFF_SIZE) == Scan(s, k, DISK_BUFF_SIZE)
  {
    hide Scan;
    var d := ScanStops(s, k, DISK_BUFF_SIZE);
    var e := ScanStops(t, k, DISK_BUFF_SIZE);
  }

  /** A miss moves the hand one slot on, pins nothing, and puts the block in the victim slot. */
  lemma MissShape(c: Cache, b: nat, doRead: bool, junk: Block)
    requires Inv(c) && CanGet(c, b) && Find(c.slots, b, 0).None?
    ensures var n := Get(c, b, doRead, junk);
            && |n.slots| == DISK_BUFF_SIZE && n.hand == Wrap(c.hand, 1)
            && (forall i | 0 <= i < DISK_BUFF_SIZE :: n.slots[i].using == c.slots[i].using)
            && Caches(n.slots[Victim(c)], b)
  {
    hide Find, Scan;
  }

  /** A block just loaded is the next victim exactly when the hand stood on a pinned slot,
      or every other slot is pinned: its holder's pointer then goes stale on the next miss. */
  lemma NextVictim(c: Cache, b: nat, doRead: bool, junk: Block)
    requires Inv(c) && CanGet(c, b) && Find(c.slots, b, 0).None?
    ensures var n := Get(c, b, doRead, junk);
            && Inv(n) && Find(n.slots, b, 0) == Some(Victim(c))
            && Scan(n.slots, n.hand, DISK_BUFF_SIZE).Some?
            && (Victim(n) == Victim(c) <==>
                c.slots[c.hand].using || forall i | 0 <= i < DISK_BUFF_SIZE && i != c.hand :: c.slots[i].using)
  {
    hide Scan, Find, Get, View, Caches;
    var n := Get(c, b, doRead, junk);
    GetExact(c, b, doRead, junk);
    MissShape(c, b, doRead, junk);
    FindUnique(n, b, Victim(c));
    ScanSameFlags(c.slots, n.slots, n.hand);
    RescanExact(c.slots, c.hand);
  }

  /** Without the condition on the victim a change is lost: load `b` while the hand is on a pinned
      slot, change it, load another block, and `b` reads as it was on the disk. */
  lemma UnpinnedMissLosesChange(c: Cache, b: nat, x: Block, other: nat, junk: Block)
    requires Inv(c) && CanGet(c, b) && CanGet(c, other) && b != other
    requires Find(c.slots, b, 0).None? && Find(c.slots, other, 0).None? && c.slots[c.hand].using
    requires x != c.disk[b]
    ensures var c1 := Get(c, b, true, junk);
            && Inv(c1) && Find(c1.slots, b, 0).Some?
            && var c2 := c1.(mem := c1.mem[PageOf(c1, b) := x]);
            && Inv(c2) && CanGet(c2, other) && b < |c2.disk| && View(c2, b) == x
            && var c3 := Get(c2, other, true, junk);
               Inv(c3) && |c3.disk| == |c.disk| && View(c3, b) == c.disk[b]
  {
    hide Find, Scan, Valid;
    NextVictim(c, b, true, junk);
    GetExact(c, b, true, junk);
    var c1 := Get(c, b, true, junk);
    var v := Victim(c);
    var c2 := c1.(mem := c1.mem[PageOf(c1, b) := x]);
    assert forall i | 0 <= i < DISK_BUFF_SIZE :: SlotOk(c1, c1.slots[i]);
    EvictInv(c, v);
    FindElsewhere(c.slots, c1.slots, v, other);
    assert c2.disk[b] == c.disk[b] && Victim(c2) == v;
    var e := Evict(c2, v);
    EvictInv(c2, v);
    FindElsewhere(c2.slots, e.slots, v, other);
    LoadInv(e, v, other, true, junk);
  }
}
