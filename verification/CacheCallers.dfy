/**
 When the callers of the block cache keep its runs legal (fs/fs.c:86-155,
 307-329, 848-948). find_data_block holds up to two pointer blocks while
 alloc_data_block gets bitmap blocks, and block_get does not pin what it
 loads; if the next slots from the hand are unpinned and cache nothing the
 call needs, no held block is evicted.
 */
module CacheCallers {
  import opened Wrappers
  import opened Blocks
  import opened CacheModel
  import opened CacheRefinement

  // ----- what callers keep to -----

  /** Blocks handed out and not committed, and those of them changed since. */
  datatype Hold = Hold(held: set<nat>, changed: set<nat>)

  /** A caller gets no block twice, changes and commits what it holds, and commits a change as one. */
  predicate Keeps(h: Hold, op: Op) {
    match op
    case GetBlock(b, _, _) => b !in h.held
    case Modify(b, _) => b in h.held
    case CommitBlock(b, w) => b in h.held && (w || b !in h.changed)
    case SinkAll => false
  }

  function After(h: Hold, op: Op): Hold {
    match op
    case GetBlock(b, _, _) => h.(held := h.held + {b})
    case Modify(b, _) => h.(changed := h.changed + {b})
    case CommitBlock(b, _) => Hold(h.held - {b}, h.changed - {b})
    case SinkAll => h
  }

  predicate KeepsAll(h: Hold, ops: seq<Op>)
    decreases |ops|
  {
    ops == [] || (Keeps(h, ops[0]) && KeepsAll(After(h, ops[0]), ops[1..]))
  }

  function AfterAll(h: Hold, ops: seq<Op>): Hold
    decreases |ops|
  {
    if ops == [] then h else AfterAll(After(h, ops[0]), ops[1..])
  }

  /** The blocks that `ops` gets, in order. */
  function Gets(ops: seq<Op>): (bs: seq<nat>)
    decreases |ops|
  {
    if ops == [] then [] else (if ops[0].GetBlock? then [ops[0].b] else []) + Gets(ops[1..])
  }

  lemma {:induction false} Joined(h: Hold, p: seq<Op>, q: seq<Op>)
    ensures KeepsAll(h, p + q) <==> KeepsAll(h, p) && KeepsAll(AfterAll(h, p), q)
    ensures AfterAll(h, p + q) == AfterAll(AfterAll(h, p), q) && Gets(p + q) == Gets(p) + Gets(q)
    decreases |p|
  {
    hide Keeps, After;
    if p == [] {
      assert p + q == q;
    } else {
      assert (p + q)[1..] == p[1..] + q;
      Joined(After(h, p[0]), p[1..], q);
    }
  }

  // ----- the condition -----

  /** The next `k` slots from the hand are unpinned and cache none of the blocks. */
  predicate Clear(c: Cache, k: nat, bs: set<nat>)
    requires |c.slots| == DISK_BUFF_SIZE
  {
    forall e: nat | e < k :: !c.slots[Wrap(c.hand, e)].using && !(c.slots[Wrap(c.hand, e)].buff.Some? && c.slots[Wrap(c.hand, e)].id in bs)
  }

  /** A session of callers that keep to it: only changed blocks are stale. */
  ghost predicate Tidy(h: Session, changed: set<nat>) {
    SessionInv(h) && changed <= h.held && OnlyHeldStale(h.c, changed)
  }

  /** The next victim is the slot at the hand, and nobody holds its block. */
  lemma ClearVictim(h: Session, op: Op, k: nat, bs: set<nat>)
    requires SessionInv(h) && op.GetBlock? && op.b in bs && op.b < |h.c.disk| && h.held <= bs && 0 < k && Clear(h.c, k, bs)
    ensures Legal(h, op) && (Find(h.c.slots, op.b, 0).None? ==> Victim(h.c) == h.c.hand)
  {
    WrapZero(h.c.hand);
    assert !h.c.slots[Wrap(h.c.hand, 0)].using;
  }

  lemma WrapApart(hand: nat, e: nat)
    requires hand < DISK_BUFF_SIZE && e + 1 < DISK_BUFF_SIZE
    ensures Wrap(Wrap(hand, 1), e) == Wrap(hand, e + 1) != hand
  {
  }

  /** A get uses up one of the clear slots at most. */
  lemma GetClear(h: Session, op: Op, k: nat, bs: set<nat>)
    requires SessionInv(h) && op.GetBlock? && op.b in bs && op.b < |h.c.disk| && h.held <= bs
    requires 0 < k <= DISK_BUFF_SIZE && Clear(h.c, k, bs)
    ensures Legal(h, op) && |Step(h, op).c.slots| == DISK_BUFF_SIZE && Clear(Step(h, op).c, k - 1, bs)
  {
    hide Find, Scan, Wrap, Victim, View, Evict, Load;
    ClearVictim(h, op, k, bs);
    var c, n := h.c, Step(h, op).c;
    if Find(c.slots, op.b, 0).None? {
      MissShape(c, op.b, op.doRead, op.junk);
      MissSlots(c, op.b, op.doRead, op.junk);
      forall e: nat | e < k - 1
        ensures n.slots[Wrap(n.hand, e)] == c.slots[Wrap(c.hand, e + 1)]
      {
        WrapApart(c.hand, e);
      }
    }
  }

  lemma GetTidy(h: Session, changed: set<nat>, op: Op, k: nat, bs: set<nat>)
    requires Tidy(h, changed) && op.GetBlock? && op.b in bs && op.b < |h.c.disk| && h.held <= bs && 0 < k && Clear(h.c, k, bs)
    ensures Legal(h, op) && Tidy(Step(h, op), changed) && |Step(h, op).c.disk| == |h.c.disk|
  {
    hide Find, Scan, View, Get, Inv, Clear, OnlyHeldStale;
    ClearVictim(h, op, k, bs);
    GetRefines(h, op);
    var t := Session(h.c, changed);
    ClearVictim(t, op, k, bs);
    if Find(h.c.slots, op.b, 0).Some? {
      HitKeepsSlots(t, op);
    } else {
      MissKeepsHeld(t, op);
    }
  }

  lemma MoreStale(h: Session, changed: set<nat>, b: nat)
    requires Tidy(h, changed) && b in h.held
    ensures SessionInv(Session(h.c, changed + {b}))
  {
    hide Find, Inv;
  }

  lemma ModifyTidy(h: Session, changed: set<nat>, op: Op)
    requires Tidy(h, changed) && op.Modify? && op.b in h.held
    ensures Legal(h, op) && Tidy(Step(h, op), changed + {op.b})
    ensures |Step(h, op).c.disk| == |h.c.disk| && Step(h, op).c.slots == h.c.slots && Step(h, op).c.hand == h.c.hand
  {
    hide Find, Inv, View, OnlyHeldStale, PageOf;
    SessionIs(h);
    var t := Session(h.c, changed + {op.b});
    MoreStale(h, changed, op.b);
    SessionIs(t);
    ModifyRefines(h, op);
    ModifyRefines(t, op);
  }

  lemma SessionIs(h: Session)
    requires SessionInv(h)
    ensures Inv(h.c) && |h.c.slots| == DISK_BUFF_SIZE && h.c.hand < DISK_BUFF_SIZE
  {
    hide Find, OnlyHeldStale;
  }

  /** A block that is held and not changed is not stale. */
  lemma UnchangedAgrees(h: Session, changed: set<nat>, b: nat)
    requires Tidy(h, changed) && b in h.held && b !in changed
    ensures var k := Find(h.c.slots, b, 0); k.Some? && SlotOk(h.c, h.c.slots[k.value]) && !Stale(h.c, h.c.slots[k.value])
  {
  }

  lemma CommitTidy(h: Session, changed: set<nat>, op: Op)
    requires Tidy(h, changed) && op.CommitBlock? && op.b in h.held && (op.doWrite || op.b !in changed)
    ensures Legal(h, op) && Tidy(Step(h, op), changed - {op.b}) && |Step(h, op).c.disk| == |h.c.disk|
  {
    hide Find, Inv, View, OnlyHeldStale, PageOf, Commit;
    SessionIs(h);
    var t := Session(h.c, changed + {op.b});
    MoreStale(h, changed, op.b);
    if !op.doWrite {
      UnchangedAgrees(h, changed, op.b);
    }
    CommitRefines(h, op);
    CommitRefines(t, op);
    assert changed + {op.b} - {op.b} == changed - {op.b};
  }

  lemma CommitClear(h: Session, op: Op, k: nat, bs: set<nat>)
    requires SessionInv(h) && Legal(h, op) && op.CommitBlock? && Clear(h.c, k, bs)
    ensures |Step(h, op).c.slots| == DISK_BUFF_SIZE && Clear(Step(h, op).c, k, bs)
  {
    hide Find, View, Commit, Wrap;
    CommitSlot(h.c, op.b, op.doWrite);
  }

  /** One operation of a caller that keeps to it is legal, and leaves as many clear slots as later gets need. */
  lemma KeepsLegal(h: Session, changed: set<nat>, op: Op, k: nat, bs: set<nat>)
    requires Tidy(h, changed) && h.held <= bs && Keeps(Hold(h.held, changed), op) && k <= DISK_BUFF_SIZE
    requires |h.c.slots| == DISK_BUFF_SIZE && Clear(h.c, k, bs)
    requires op.GetBlock? ==> op.b in bs && op.b < |h.c.disk| && 0 < k
    ensures Legal(h, op)
    ensures var n, hold := Step(h, op), After(Hold(h.held, changed), op);
            && n.held == hold.held && Tidy(n, hold.changed) && |n.c.disk| == |h.c.disk| && n.held <= bs
            && |n.c.slots| == DISK_BUFF_SIZE && Clear(n.c, if op.GetBlock? then k - 1 else k, bs)
  {
    hide SessionInv, OnlyHeldStale, Get, Commit, Legal, Wrap;
    match op
    case GetBlock(_, _, _) =>
      GetTidy(h, changed, op, k, bs);
      GetClear(h, op, k, bs);
    case Modify(_, _) => ModifyTidy(h, changed, op);
    case CommitBlock(_, _) =>
      CommitTidy(h, changed, op);
      CommitClear(h, op, k, bs);
    case SinkAll =>
  }

  /** With as many clear slots from the hand as the operations get blocks, the run is legal: no block is evicted
      while it is held. */
  lemma {:induction false} ClearRunLegal(h: Session, changed: set<nat>, ops: seq<Op>, bs: set<nat>)
    requires Tidy(h, changed) && h.held <= bs && KeepsAll(Hold(h.held, changed), ops)
    requires (forall b | b in Gets(ops) :: b in bs) && (forall b | b in bs :: b < |h.c.disk|)
    requires |Gets(ops)| <= DISK_BUFF_SIZE == |h.c.slots| && Clear(h.c, |Gets(ops)|, bs)
    ensures LegalRun(h, ops) && Run(h, ops).held == AfterAll(Hold(h.held, changed), ops).held
    decreases |ops|
  {
    hide Tidy, OnlyHeldStale, Clear, Legal, Step, Keeps, After;
    if ops == [] {
    } else {
      KeepsLegal(h, changed, ops[0], |Gets(ops)|, bs);
      TidyIs(h, changed);
      ClearRunLegal(Step(h, ops[0]), After(Hold(h.held, changed), ops[0]).changed, ops[1..], bs);
    }
  }

  lemma TidyIs(h: Session, changed: set<nat>)
    requires Tidy(h, changed)
    ensures SessionInv(h)
  {
    hide SessionInv, OnlyHeldStale;
  }

  // ----- find_data_block and the block it finds -----

  /** alloc_data_block: bitmap blocks are read on until one has a free bit, which is set. */
  function AllocOps(maps: seq<nat>, x: Block): seq<Op>
    requires maps != []
  {
    if |maps| == 1 then [GetBlock(maps[0], true, x), Modify(maps[0], x), CommitBlock(maps[0], true)]
    else [GetBlock(maps[0], true, x), CommitBlock(maps[0], false)] + AllocOps(maps[1..], x)
  }

  /** A pointer block is got: unread and cleared if it is new. */
  function PointerOps(p: nat, isNew: bool, x: Block): seq<Op> {
    if isNew then [GetBlock(p, false, x), Modify(p, x)] else [GetBlock(p, true, x)]
  }

  /** A block is allocated and its number stored in pointer block `p`. */
  function LinkOps(p: nat, maps: seq<nat>, x: Block): seq<Op>
    requires maps != []
  {
    AllocOps(maps, x) + [Modify(p, x)]
  }

  /** The bitmap blocks each of the three allocations of a walk reads. */
  datatype Maps = Maps(first: seq<nat>, second: seq<nat>, third: seq<nat>)

  /** What find_data_block does to the cache on the double indirect path through `outer` and `inner`, where the
      last `missing` of the three links are missing: with clean pages a new pointer block has no links. */
  function WalkOps(outer: nat, inner: nat, missing: nat, maps: Maps, x: nat -> Block): seq<Op>
    requires missing <= 3 && maps.first != [] && maps.second != [] && maps.third != []
  {
    (if missing == 3 then AllocOps(maps.first, x(0)) else []) + PointerOps(outer, missing == 3, x(1))
    + (if missing >= 2 then LinkOps(outer, maps.second, x(2)) else []) + PointerOps(inner, missing >= 2, x(3))
    + (if missing >= 1 then LinkOps(inner, maps.third, x(4)) else [])
    + [CommitBlock(outer, missing >= 2), CommitBlock(inner, missing >= 1)]
  }

  /** The blocks it gets, in order. */
  function WalkGets(outer: nat, inner: nat, missing: nat, maps: Maps): seq<nat> {
    (if missing == 3 then maps.first else []) + [outer] + (if missing >= 2 then maps.second else []) + [inner]
    + (if missing >= 1 then maps.third else [])
  }

  /** What a pass of write, or of read, does with the block found. */
  function DataOps(data: nat, isWrite: bool, doRead: bool, x: Block): seq<Op> {
    if isWrite then [GetBlock(data, doRead, x), Modify(data, x), CommitBlock(data, true)]
    else [GetBlock(data, true, x), CommitBlock(data, false)]
  }

  const NOTHING: Hold := Hold({}, {})

  /** The operations keep to it, take `h` to `n`, and get the blocks `bs`. */
  predicate Takes(h: Hold, ops: seq<Op>, n: Hold, bs: seq<nat>) {
    KeepsAll(h, ops) && AfterAll(h, ops) == n && Gets(ops) == bs
  }

  lemma TakesNone(h: Hold)
    ensures Takes(h, [], h, [])
  {
  }

  lemma TakesOne(h: Hold, op: Op)
    requires Keeps(h, op)
    ensures Takes(h, [op], After(h, op), if op.GetBlock? then [op.b] else [])
  {
    hide Keeps, After;
    var rest: seq<Op> := [];
    assert [op][1..] == rest;
    assert KeepsAll(After(h, op), rest) && AfterAll(After(h, op), rest) == After(h, op) && Gets(rest) == [];
  }

  lemma TakesTwo(h: Hold, p: seq<Op>, m: Hold, ps: seq<nat>, q: seq<Op>, n: Hold, qs: seq<nat>)
    requires Takes(h, p, m, ps) && Takes(m, q, n, qs)
    ensures Takes(h, p + q, n, ps + qs)
  {
    Joined(h, p, q);
  }

  /** A block is got, perhaps changed, and given back. */
  lemma VisitTakes(h: Hold, b: nat, doRead: bool, x: Block)
    requires b !in h.held && h.changed <= h.held
    ensures Takes(h, [GetBlock(b, doRead, x), Modify(b, x), CommitBlock(b, true)], h, [b])
    ensures Takes(h, [GetBlock(b, doRead, x), CommitBlock(b, false)], h, [b])
  {
    var get, change, put, leave := GetBlock(b, doRead, x), Modify(b, x), CommitBlock(b, true), CommitBlock(b, false);
    var h1 := After(h, get);
    var h2 := After(h1, change);
    assert After(h2, put) == h && After(h1, leave) == h;
    TakesOne(h, get);
    TakesOne(h1, change);
    TakesOne(h2, put);
    TakesOne(h1, leave);
    TakesTwo(h, [get], h1, [b], [leave], h, []);
    TakesTwo(h1, [change], h2, [], [put], h, []);
    TakesTwo(h, [get], h1, [b], [change] + [put], h, []);
    assert [get] + ([change] + [put]) == [get, change, put] && [get] + [leave] == [get, leave] && [b] + [] == [b];
  }

  lemma {:induction false} AllocTakes(h: Hold, maps: seq<nat>, x: Block)
    requires maps != [] && h.changed <= h.held && forall m | m in maps :: m !in h.held
    ensures Takes(h, AllocOps(maps, x), h, maps)
    decreases |maps|
  {
    hide Takes;
    VisitTakes(h, maps[0], true, x);
    if |maps| == 1 {
      assert maps == [maps[0]];
    } else {
      AllocTakes(h, maps[1..], x);
      TakesTwo(h, [GetBlock(maps[0], true, x), CommitBlock(maps[0], false)], h, [maps[0]], AllocOps(maps[1..], x), h, maps[1..]);
      assert [maps[0]] + maps[1..] == maps;
    }
  }

  lemma PointerTakes(h: Hold, p: nat, isNew: bool, x: Block)
    requires p !in h.held
    ensures Takes(h, PointerOps(p, isNew, x), Hold(h.held + {p}, if isNew then h.changed + {p} else h.changed), [p])
  {
    hide Takes;
    TakesOne(h, GetBlock(p, !isNew, x));
    var m := After(h, GetBlock(p, !isNew, x));
    if isNew {
      TakesOne(m, Modify(p, x));
      TakesTwo(h, [GetBlock(p, false, x)], m, [p], [Modify(p, x)], After(m, Modify(p, x)), []);
      assert [GetBlock(p, false, x)] + [Modify(p, x)] == PointerOps(p, isNew, x) && [p] + [] == [p];
    }
  }

  lemma LinkTakes(h: Hold, p: nat, maps: seq<nat>, x: Block)
    requires maps != [] && p in h.held && h.changed <= h.held && forall m | m in maps :: m !in h.held
    ensures Takes(h, LinkOps(p, maps, x), Hold(h.held, h.changed + {p}), maps)
  {
    hide Takes;
    AllocTakes(h, maps, x);
    TakesOne(h, Modify(p, x));
    TakesTwo(h, AllocOps(maps, x), h, maps, [Modify(p, x)], Hold(h.held, h.changed + {p}), []);
    assert maps + [] == maps;
  }

  lemma EndTakes(h: Hold, outer: nat, inner: nat, missing: nat)
    requires outer != inner && h.held == {outer, inner}
    requires h.changed == (if missing >= 2 then {outer} else {}) + (if missing >= 1 then {inner} else {})
    ensures Takes(h, [CommitBlock(outer, missing >= 2), CommitBlock(inner, missing >= 1)], NOTHING, [])
  {
    hide Takes;
    var a, b := CommitBlock(outer, missing >= 2), CommitBlock(inner, missing >= 1);
    TakesOne(h, a);
    TakesOne(After(h, a), b);
    assert After(After(h, a), b) == NOTHING;
    TakesTwo(h, [a], After(h, a), [], [b], NOTHING, []);
    assert [a] + [b] == [a, b];
  }

  predicate Avoids(bs: seq<nat>, outer: nat, inner: nat) {
    forall m | m in bs :: m != outer && m != inner
  }

  /** No bitmap block is a pointer block of the path. */
  predicate Apart(outer: nat, inner: nat, maps: Maps) {
    && outer != inner && maps.first != [] && maps.second != [] && maps.third != []
    && Avoids(maps.first, outer, inner) && Avoids(maps.second, outer, inner) && Avoids(maps.third, outer, inner)
  }

  /** The walk keeps to it, holds at most the two pointer blocks and a bitmap block, and gives all back. */
  lemma WalkTakes(outer: nat, inner: nat, missing: nat, maps: Maps, x: nat -> Block)
    requires missing <= 3 && Apart(outer, inner, maps)
    ensures Takes(NOTHING, WalkOps(outer, inner, missing, maps, x), NOTHING, WalkGets(outer, inner, missing, maps))
  {
    hide Takes, AllocOps, PointerOps, LinkOps;
    var h1 := Hold({outer}, if missing == 3 then {outer} else {});
    var h2 := Hold({outer}, if missing >= 2 then {outer} else {});
    var h3 := Hold({outer, inner}, if missing >= 2 then {outer, inner} else {});
    var h4 := Hold({outer, inner}, (if missing >= 2 then {outer} else {}) + (if missing >= 1 then {inner} else {}));
    var p0, b0 := if missing == 3 then AllocOps(maps.first, x(0)) else [], if missing == 3 then maps.first else [];
    var p1 := PointerOps(outer, missing == 3, x(1));
    var p2, b2 := if missing >= 2 then LinkOps(outer, maps.second, x(2)) else [], if missing >= 2 then maps.second else [];
    var p3 := PointerOps(inner, missing >= 2, x(3));
    var p4, b4 := if missing >= 1 then LinkOps(inner, maps.third, x(4)) else [], if missing >= 1 then maps.third else [];
    AllocTakes(NOTHING, maps.first, x(0));
    TakesNone(NOTHING);
    PointerTakes(NOTHING, outer, missing == 3, x(1));
    assert Hold(NOTHING.held + {outer}, if missing == 3 then NOTHING.changed + {outer} else NOTHING.changed) == h1;
    LinkTakes(h1, outer, maps.second, x(2));
    TakesNone(h1);
    assert missing >= 2 ==> Hold(h1.held, h1.changed + {outer}) == h2;
    PointerTakes(h2, inner, missing >= 2, x(3));
    assert Hold(h2.held + {inner}, if missing >= 2 then h2.changed + {inner} else h2.changed) == h3;
    LinkTakes(h3, inner, maps.third, x(4));
    TakesNone(h3);
    assert missing >= 1 ==> Hold(h3.held, h3.changed + {inner}) == h4;
    EndTakes(h4, outer, inner, missing);
    TakesTwo(NOTHING, p0, NOTHING, b0, p1, h1, [outer]);
    TakesTwo(NOTHING, p0 + p1, h1, b0 + [outer], p2, h2, b2);
    TakesTwo(NOTHING, p0 + p1 + p2, h2, b0 + [outer] + b2, p3, h3, [inner]);
    TakesTwo(NOTHING, p0 + p1 + p2 + p3, h3, b0 + [outer] + b2 + [inner], p4, h4, b4);
    var gets := b0 + [outer] + b2 + [inner] + b4;
    TakesTwo(NOTHING, p0 + p1 + p2 + p3 + p4, h4, gets,
             [CommitBlock(outer, missing >= 2), CommitBlock(inner, missing >= 1)], NOTHING, []);
    assert gets + [] == gets;
  }

  function Elements(bs: seq<nat>): (s: set<nat>) {
    set b | b in bs
  }

  /** After the run every block reads as the plain array has it. */
  ghost predicate AsPlain(h: Session, ops: seq<Op>)
    requires SessionInv(h) && LegalRun(h, ops)
  {
    forall b: nat | b < |h.c.disk| :: PlainAt(h, ops, b)
  }

  ghost predicate PlainAt(h: Session, ops: seq<Op>, b: nat)
    requires SessionInv(h) && LegalRun(h, ops) && b < |h.c.disk|
  {
    var n, x := Run(h, ops), Expected(b, Some(View(h.c, b)), ops);
    SessionInv(n) && b < |n.c.disk| && (x.Some? ==> View(n.c, b) == x.value)
  }

  lemma RunAsPlain(h: Session, ops: seq<Op>)
    requires SessionInv(h) && LegalRun(h, ops)
    ensures AsPlain(h, ops)
  {
    hide LegalRun, Run, Expected, View, Inv, Find, OnlyHeldStale;
    forall b: nat | b < |h.c.disk|
      ensures PlainAt(h, ops, b)
    {
      RunRefines(h, ops, b, Some(View(h.c, b)));
    }
  }

  /** One pass of the write or read loop: if as many slots from the hand as it gets blocks are unpinned and cache none
      of those blocks, its run is legal, so that every block reads as on a plain array and nothing stays held. */
  lemma PassLegal(h: Session, outer: nat, inner: nat, missing: nat, maps: Maps, data: nat, isWrite: bool, doRead: bool, x: nat -> Block)
    requires SessionInv(h) && h.held == {} && missing <= 3 && Apart(outer, inner, maps)
    requires var bs := WalkGets(outer, inner, missing, maps) + [data];
             && |bs| <= DISK_BUFF_SIZE == |h.c.slots| && (forall b | b in bs :: b < |h.c.disk|) && Clear(h.c, |bs|, Elements(bs))
    ensures var ops := WalkOps(outer, inner, missing, maps, x) + DataOps(data, isWrite, doRead, x(5));
            LegalRun(h, ops) && Run(h, ops).held == {} && AsPlain(h, ops)
  {
    hide WalkOps, WalkGets, SessionInv, AsPlain, Clear, LegalRun, Run, Tidy, KeepsAll, AfterAll, Gets;
    var walk, got := WalkOps(outer, inner, missing, maps, x), DataOps(data, isWrite, doRead, x(5));
    var bs := WalkGets(outer, inner, missing, maps);
    WalkTakes(outer, inner, missing, maps, x);
    VisitTakes(NOTHING, data, if isWrite then doRead else true, x(5));
    TakesTwo(NOTHING, walk, NOTHING, bs, got, NOTHING, [data]);
    RestIsTidy(h);
    ClearRunLegal(h, {}, walk + got, Elements(bs + [data]));
    RunAsPlain(h, walk + got);
  }

  lemma RestIsTidy(h: Session)
    requires SessionInv(h) && h.held == {}
    ensures Tidy(h, {})
  {
  }

  // ----- where the condition fails -----

  lemma HitPins(h: Session, outer: nat, x: Block)
    requires SessionInv(h) && Legal(h, GetBlock(outer, true, x)) && Find(h.c.slots, outer, 0).Some?
    ensures var n := Step(h, GetBlock(outer, true, x));
            && Inv(n.c) && |n.c.slots| == DISK_BUFF_SIZE && n.c.disk == h.c.disk
            && (forall k | 0 <= k < DISK_BUFF_SIZE :: n.c.slots[k].buff == h.c.slots[k].buff && n.c.slots[k].id == h.c.slots[k].id)
            && Find(n.c.slots, outer, 0).Some? && n.c.slots[Find(n.c.slots, outer, 0).value].using
  {
    hide View, OnlyHeldStale;
    GetExact(h.c, outer, true, x);
    SameFind(h.c, Step(h, GetBlock(outer, true, x)).c, outer);
  }

  /** A miss on `inner` leaves `bitmap` uncached, and the slot that is pinned for `outer` is nobody else's. */
  lemma OnlyNew(c: Cache, n: Cache, inner: nat, bitmap: nat, outer: nat)
    requires Inv(c) && Inv(n) && Find(c.slots, inner, 0).None? && Find(c.slots, bitmap, 0).None? && inner != bitmap
    requires Scan(c.slots, c.hand, DISK_BUFF_SIZE).Some? && Caches(n.slots[Victim(c)], inner)
    requires forall i | 0 <= i < DISK_BUFF_SIZE && i != Victim(c) :: n.slots[i] == c.slots[i]
    requires Find(c.slots, outer, 0).Some? && c.slots[Find(c.slots, outer, 0).value].using
    ensures Find(n.slots, bitmap, 0).None?
    ensures forall i | 0 <= i < DISK_BUFF_SIZE && !n.slots[i].using && i != Victim(c) :: !Caches(n.slots[i], outer) && !Caches(n.slots[i], inner)
  {
    hide Scan;
    FindElsewhere(c.slots, n.slots, Victim(c), bitmap);
    forall i | 0 <= i < DISK_BUFF_SIZE && Caches(c.slots[i], outer)
      ensures c.slots[i].using
    {
      FindUnique(c, outer, i);
    }
  }

  /** A walk that finds the outer pointer block in the cache, and neither the inner one nor the bitmap block: getting the
      bitmap block evicts the inner block while the walk holds it, if and only if the hand stood on a pinned
      slot, which may be that of the outer block itself, or every other slot is pinned. */
  lemma NestedMissExact(h: Session, outer: nat, inner: nat, bitmap: nat, x: Block)
    requires SessionInv(h) && h.held == {} && outer != inner && inner != bitmap && bitmap != outer
    requires inner < |h.c.disk| && bitmap < |h.c.disk| && Legal(h, GetBlock(outer, true, x)) && Find(h.c.slots, outer, 0).Some?
    requires Find(h.c.slots, inner, 0).None? && Find(h.c.slots, bitmap, 0).None?
    requires var h1 := Step(h, GetBlock(outer, true, x)); SessionInv(h1) && Legal(h1, GetBlock(inner, true, x))
    ensures var h1 := Step(h, GetBlock(outer, true, x));
            var h2 := Step(h1, GetBlock(inner, true, x));
            && |h1.c.slots| == DISK_BUFF_SIZE && h1.c.hand < DISK_BUFF_SIZE
            && (Legal(h2, GetBlock(bitmap, true, x)) <==>
                !h1.c.slots[h1.c.hand].using && exists i :: 0 <= i < DISK_BUFF_SIZE && i != h1.c.hand && !h1.c.slots[i].using)
  {
    hide Scan, View, Find, Get, SessionInv, OnlyHeldStale;
    var h1 := Step(h, GetBlock(outer, true, x));
    var h2 := Step(h1, GetBlock(inner, true, x));
    HitPins(h, outer, x);
    SameFind(h.c, h1.c, inner);
    SameFind(h.c, h1.c, bitmap);
    NextVictim(h1.c, inner, true, x);
    MissSlots(h1.c, inner, true, x);
    OnlyNew(h1.c, h2.c, inner, bitmap, outer);
  }
}
