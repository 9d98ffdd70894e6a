/**
 Which pages block_get takes from the kernel's allocator and gives back
 (fs/fs.c:86-125): the victim's page is freed before the new one is allocated,
 so a miss reuses it, and the cache never owns more than a page for each slot.
 */
module CachePages {
  import opened Wrappers
  import opened Blocks
  import opened PageAllocator
  import opened CacheModel
  import opened CacheRefinement

  /** The pages behind the slots. */
  ghost function SlotPages(c: Cache): (ps: set<nat>) {
    set i | 0 <= i < |c.slots| && c.slots[i].buff.Some? :: c.slots[i].buff.value
  }

  /** Live pages of the allocator that the cache has nothing to do with. */
  ghost function Foreign(c: Cache): set<nat> {
    c.ctrl.live - SlotPages(c)
  }

  /** A hit takes no page, moves nothing and writes nothing; it pins the slot. */
  lemma HitPages(c: Cache, b: nat, doRead: bool, junk: Block)
    requires Inv(c) && CanGet(c, b) && Find(c.slots, b, 0).Some?
    ensures var n, k := Get(c, b, doRead, junk), Find(c.slots, b, 0).value;
            && n.ctrl == c.ctrl && n.mem == c.mem && n.disk == c.disk && n.hand == c.hand && |n.slots| == |c.slots|
            && (forall i | 0 <= i < |c.slots| && i != k :: n.slots[i] == c.slots[i])
            && n.slots[k].using && n.slots[k].buff == c.slots[k].buff && n.slots[k].id == b && n.slots[k].dirty == c.slots[k].dirty
  {
    hide Find, Scan, Valid;
  }

  lemma EvictPages(c: Cache, v: nat, p: nat)
    requires Inv(c) && v < DISK_BUFF_SIZE && c.slots[v].buff == Some(p)
    ensures var n := Evict(c, v);
            && p in c.ctrl.live && n.ctrl.live == c.ctrl.live - {p} && n.mem == c.mem && n.hand == c.hand && Valid(n.ctrl)
            && n.disk == (if c.slots[v].dirty then c.disk[c.slots[v].id := c.mem[p]] else c.disk)
            && (NewPage(n.ctrl) == p <==> |c.ctrl.free| < MAX_FREE_PAGE) && (Alloc(n.ctrl) == c.ctrl <==> |c.ctrl.free| < MAX_FREE_PAGE)
            && (|c.ctrl.free| == MAX_FREE_PAGE ==> p in n.ctrl.dropped)
  {
    hide Find;
    assert SlotOk(c, c.slots[v]);
    AlignedBase(c.ctrl, p);
    FreeValid(c.ctrl, p);
    FreedComesBack(c.ctrl, p);
  }

  lemma LoadPages(c: Cache, v: nat, b: nat, doRead: bool, junk: Block)
    requires Inv(c) && v < DISK_BUFF_SIZE && b < |c.disk| && c.slots[v].buff.None? && Find(c.slots, b, 0).None?
    ensures var n := Load(c, v, b, doRead, junk);
            && Inv(n) && Find(n.slots, b, 0) == Some(v) && PageOf(n, b) == NewPage(c.ctrl) && n.ctrl == Alloc(c.ctrl)
            && PageOf(n, b) !in c.ctrl.live && n.ctrl.live == c.ctrl.live + {PageOf(n, b)} && n.ctrl.dropped == c.ctrl.dropped && n.disk == c.disk
            && n.mem[PageOf(n, b)] == (if doRead then c.disk[b] else if PageOf(n, b) in c.mem then c.mem[PageOf(n, b)] else junk)
  {
    hide Find, View;
    LoadInv(c, v, b, doRead, junk);
    AllocValid(c.ctrl);
  }

  /** A miss with a page in the victim slot gives that page back and takes one. With fewer than 124 pages listed it is the
      same page, the allocator is as before, and an unread block shows what the victim left there; else the victim's page is
      dropped. The victim's contents go to the disk if and only if it is dirty, and nothing else does. */
  lemma MissReusesPage(c: Cache, b: nat, doRead: bool, junk: Block)
    requires Inv(c) && CanGet(c, b) && Find(c.slots, b, 0).None? && c.slots[Victim(c)].buff.Some?
    ensures var n, s, p := Get(c, b, doRead, junk), c.slots[Victim(c)], c.slots[Victim(c)].buff.value;
            && Inv(n) && Find(n.slots, b, 0).Some? && p in c.mem
            && n.ctrl.live == c.ctrl.live - {p} + {PageOf(n, b)} && p in c.ctrl.live && PageOf(n, b) !in c.ctrl.live - {p}
            && (PageOf(n, b) == p <==> |c.ctrl.free| < MAX_FREE_PAGE) && (n.ctrl == c.ctrl <==> |c.ctrl.free| < MAX_FREE_PAGE)
            && (|c.ctrl.free| == MAX_FREE_PAGE ==> p in n.ctrl.dropped)
            && n.disk == (if s.dirty then c.disk[s.id := c.mem[p]] else c.disk)
            && (doRead ==> n.mem[PageOf(n, b)] == n.disk[b])
            && (!doRead && |c.ctrl.free| < MAX_FREE_PAGE ==> n.mem[PageOf(n, b)] == c.mem[p])
  {
    hide Find, Scan, View, Valid, Free, Alloc, NewPage;
    var v := Victim(c);
    var p := c.slots[v].buff.value;
    assert SlotOk(c, c.slots[v]);
    EvictInv(c, v);
    EvictPages(c, v, p);
    var e := Evict(c, v);
    FindElsewhere(c.slots, e.slots, v, b);
    LoadPages(e, v, b, doRead, junk);
  }

  /** A miss into an empty slot takes one page that was not in use. */
  lemma MissTakesPage(c: Cache, b: nat, doRead: bool, junk: Block)
    requires Inv(c) && CanGet(c, b) && Find(c.slots, b, 0).None? && c.slots[Victim(c)].buff.None?
    ensures var n := Get(c, b, doRead, junk);
            && Inv(n) && Find(n.slots, b, 0).Some? && n.disk == c.disk && n.ctrl == Alloc(c.ctrl)
            && PageOf(n, b) == NewPage(c.ctrl) && PageOf(n, b) !in c.ctrl.live && n.ctrl.live == c.ctrl.live + {PageOf(n, b)}
  {
    hide Find, Scan, View, Valid, Alloc, NewPage;
    LoadPages(c, Victim(c), b, doRead, junk);
  }

  lemma PageInSlots(c: Cache, i: nat)
    requires i < |c.slots| && c.slots[i].buff.Some?
    ensures c.slots[i].buff.value in SlotPages(c)
  {
  }

  /** Slots that keep their pages are behind the same set of pages. */
  lemma SamePages(c: Cache, n: Cache)
    requires |n.slots| == |c.slots| && forall i | 0 <= i < |c.slots| :: n.slots[i].buff == c.slots[i].buff
    ensures SlotPages(n) == SlotPages(c)
  {
    assert forall i | 0 <= i < |c.slots| && c.slots[i].buff.Some? :: n.slots[i].buff.value in SlotPages(n);
    assert forall i | 0 <= i < |c.slots| && c.slots[i].buff.Some? :: c.slots[i].buff.value in SlotPages(c);
  }

  /** One slot's page changes, and no other slot has the old or the new one. */
  lemma OnePage(c: Cache, n: Cache, v: nat, q: nat)
    requires |n.slots| == |c.slots| && v < |c.slots| && n.slots[v].buff == Some(q)
    requires forall i | 0 <= i < |c.slots| && i != v :: n.slots[i].buff == c.slots[i].buff && (c.slots[i].buff.Some? ==> c.slots[i].buff != c.slots[v].buff)
    ensures SlotPages(n) == (if c.slots[v].buff.Some? then SlotPages(c) - {c.slots[v].buff.value} else SlotPages(c)) + {q}
  {
    var want := (if c.slots[v].buff.Some? then SlotPages(c) - {c.slots[v].buff.value} else SlotPages(c)) + {q};
    forall x
      ensures x in SlotPages(n) <==> x in want
    {
      if x in SlotPages(n) {
        var i :| 0 <= i < |n.slots| && n.slots[i].buff == Some(x);
        assert i == v || (c.slots[i].buff == Some(x) && x in SlotPages(c));
      }
      if x in want && x != q {
        var i :| 0 <= i < |c.slots| && c.slots[i].buff == Some(x);
        assert i != v && n.slots[i].buff == Some(x);
      }
      PageInSlots(n, v);
    }
  }

  lemma GetForeign(c: Cache, b: nat, doRead: bool, junk: Block)
    requires Inv(c) && CanGet(c, b)
    ensures Foreign(Get(c, b, doRead, junk)) == Foreign(c)
  {
    hide Find, Scan, View, Valid, Get, Victim, Alloc, NewPage;
    var n := Get(c, b, doRead, junk);
    if Find(c.slots, b, 0).Some? {
      HitPages(c, b, doRead, junk);
      SamePages(c, n);
    } else {
      var v := Victim(c);
      MissSlots(c, b, doRead, junk);
      assert Find(n.slots, b, 0) == Some(v) by { FindUnique(n, b, v); }
      if c.slots[v].buff.Some? {
        MissReusesPage(c, b, doRead, junk);
        PageInSlots(c, v);
      } else {
        MissTakesPage(c, b, doRead, junk);
      }
      SlotsDistinct(c, v);
      OnePage(c, n, v, PageOf(n, b));
    }
  }

  lemma SlotsDistinct(c: Cache, v: nat)
    requires Inv(c) && v < |c.slots|
    ensures forall i | 0 <= i < |c.slots| && i != v && c.slots[i].buff.Some? :: c.slots[i].buff != c.slots[v].buff
    ensures SlotPages(c) <= c.ctrl.live
  {
    hide Valid;
    forall i | 0 <= i < |c.slots| && i != v && c.slots[i].buff.Some?
      ensures c.slots[i].buff != c.slots[v].buff
    {
      if i < v {
        assert c.slots[v].buff.Some? ==> c.slots[i].buff != c.slots[v].buff;
      } else {
        assert c.slots[v].buff.Some? ==> c.slots[v].buff != c.slots[i].buff;
      }
    }
    assert forall i | 0 <= i < |c.slots| :: SlotOk(c, c.slots[i]);
  }

  /** block_sink cleans every slot and changes nothing else of it. */
  lemma {:induction false} SinkSlots(c: Cache, i: nat)
    requires Inv(c) && i <= DISK_BUFF_SIZE
    ensures var n := Sink(c, i);
            && n.ctrl == c.ctrl && n.mem == c.mem && n.hand == c.hand && |n.slots| == |c.slots|
            && forall k | 0 <= k < |c.slots| :: n.slots[k] == if k < i then c.slots[k] else c.slots[k].(dirty := false)
    decreases DISK_BUFF_SIZE - i
  {
    hide Valid, View;
    if i == DISK_BUFF_SIZE {
    } else if c.slots[i].dirty {
      WriteBackInv(c, i);
      SinkSlots(WriteBack(c, i), i + 1);
    } else {
      SinkSlots(c, i + 1);
    }
  }

  lemma StepForeign(h: Session, op: Op)
    requires SessionInv(h) && Legal(h, op)
    ensures Foreign(Step(h, op).c) == Foreign(h.c)
  {
    hide Find, Scan, View, Get, Sink, Commit, PageOf, OnlyHeldStale;
    match op
    case GetBlock(b, doRead, junk) => GetForeign(h.c, b, doRead, junk);
    case Modify(_, _) => SamePages(h.c, Step(h, op).c);
    case CommitBlock(b, w) =>
      CommitSlot(h.c, b, w);
      SamePages(h.c, Step(h, op).c);
    case SinkAll =>
      SinkSlots(h.c, 0);
      SamePages(h.c, Step(h, op).c);
  }

  /** Over every run the pages in use that the cache does not hold stay the same: the cache gives back what it takes,
      and has one page for each slot at most. */
  lemma {:induction false} RunForeign(h: Session, ops: seq<Op>)
    requires SessionInv(h) && LegalRun(h, ops)
    ensures var n := CacheRefinement.Run(h, ops).c;
            && Foreign(n) == Foreign(h.c) && n.ctrl.live == Foreign(n) + SlotPages(n) && |SlotPages(n)| <= DISK_BUFF_SIZE
    decreases |ops|
  {
    hide Legal, Step, Inv, OnlyHeldStale, Foreign, SlotPages;
    if ops == [] {
      SlotsCover(h.c);
    } else {
      StepForeign(h, ops[0]);
      StepRefines(h, ops[0]);
      RunForeign(Step(h, ops[0]), ops[1..]);
    }
  }

  lemma SlotsCover(c: Cache)
    requires Inv(c)
    ensures c.ctrl.live == Foreign(c) + SlotPages(c) && |SlotPages(c)| <= DISK_BUFF_SIZE
  {
    hide Inv, SlotPages;
    LiveSlots(c);
    PagesAre(c);
  }

  lemma LiveSlots(c: Cache)
    requires Inv(c)
    ensures |c.slots| == DISK_BUFF_SIZE && SlotPages(c) <= c.ctrl.live
  {
    hide Valid, SlotPages;
    SlotsDistinct(c, 0);
  }

  lemma PagesAre(c: Cache)
    ensures SlotPages(c) == PagesTo(c, |c.slots|)
  {
  }

  /** The pages of the first `k` slots. */
  ghost function PagesTo(c: Cache, k: nat): (ps: set<nat>)
    requires k <= |c.slots|
    ensures |ps| <= k && forall p :: p in ps <==> exists i :: 0 <= i < k && c.slots[i].buff == Some(p)
  {
    if k == 0 then {} else PagesTo(c, k - 1) + if c.slots[k - 1].buff.Some? then {c.slots[k - 1].buff.value} else {}
  }
}
