/** block_get, block_commit and block_sink over the slot array (fs/fs.c:51-155). */
module BlockCache {
  import opened Wrappers
  import opened Blocks
  import PageAllocator
  import opened CacheModel
  import opened CacheRefinement
  import CacheLoss

  lemma HitIsPin(c: Cache, b: nat, doRead: bool, junk: Block)
    requires Inv(c) && CanGet(c, b) && Find(c.slots, b, 0).Some?
    ensures var i, n := Find(c.slots, b, 0).value, Get(c, b, doRead, junk);
            && n == c.(slots := c.slots[i := c.slots[i].(using := true)])
            && Inv(n) && Find(n.slots, b, 0).Some? && PageOf(n, b) == c.slots[i].buff.value
  {
    GetExact(c, b, doRead, junk);
    SameFind(c, Get(c, b, doRead, junk), b);
  }

  lemma MissIsLoad(c: Cache, b: nat, doRead: bool, junk: Block)
    requires Inv(c) && CanGet(c, b) && Find(c.slots, b, 0).None?
    ensures var v := Victim(c);
            var e, n := Evict(c, v), Get(c, b, doRead, junk);
            && Inv(e) && |e.disk| == |c.disk| && e.slots[v].buff.None? && Find(e.slots, b, 0).None?
            && n == Load(e, v, b, doRead, junk) && Inv(n) && Find(n.slots, b, 0).Some? && PageOf(n, b) == PageAllocator.NewPage(e.ctrl)
  {
    hide Find, Scan, View, PageAllocator.Valid, PageAllocator.NewPage;
    var v := Victim(c);
    EvictInv(c, v);
    FindElsewhere(c.slots, Evict(c, v).slots, v, b);
    LoadInv(Evict(c, v), v, b, doRead, junk);
  }

  lemma LoadIs(c: Cache, v: nat, b: nat, doRead: bool, junk: Block)
    requires Inv(c) && v < |c.slots| && b < |c.disk| && c.slots[v].buff.None? && Find(c.slots, b, 0).None?
    ensures var p, n := PageAllocator.NewPage(c.ctrl), Load(c, v, b, doRead, junk);
            && Inv(n) && n.ctrl == PageAllocator.Alloc(c.ctrl) && n.hand == (c.hand + 1) % DISK_BUFF_SIZE && n.disk == c.disk
            && n.mem == c.mem[p := if doRead then c.disk[b] else if p in c.mem then c.mem[p] else junk]
            && n.slots == c.slots[v := Slot(Some(p), c.slots[v].using, !doRead, b)]
  {
    LoadInv(c, v, b, doRead, junk);
  }

  class DiskBuffer {
    const slots: array<Slot>
    const kernel: PageAllocator.PageCtrl
    var hand: nat
    var mem: map<nat, Block>
    var disk: seq<Block>

    ghost predicate Ready()
      reads this, slots, kernel, kernel.freePages
    {
      kernel.Ready() && Inv(State())
    }

    ghost function State(): Cache
      requires kernel.cnt <= kernel.freePages.Length
      reads this, slots, kernel, kernel.freePages
    {
      Cache(slots[..], hand, kernel.Model(), mem, disk)
    }

    /** disk_buff_init: nothing cached, so every block reads as it is on the disk. */
    constructor (ctrl: PageAllocator.PageCtrl, d: seq<Block>)
      requires ctrl.Ready()
      ensures Ready() && kernel == ctrl && fresh(slots) && State() == CacheLoss.EmptyCache(ctrl.Model(), d)
      ensures forall b | 0 <= b < |d| :: View(State(), b) == d[b]
    {
      kernel := ctrl;
      slots := new Slot[DISK_BUFF_SIZE](_ => EMPTY_SLOT);
      hand, mem, disk := 0, map[], d;
      new;
      assert forall i | 0 <= i < DISK_BUFF_SIZE :: slots[..][i] == EMPTY_SLOT;
    }

    /** The first loop of block_get. */
    method FindCached(b: nat) returns (i: nat)
      requires Ready()
      ensures i == match Find(State().slots, b, 0) case Some(k) => k case None => DISK_BUFF_SIZE
    {
      i := 0;
      while i < DISK_BUFF_SIZE && !(slots[i].id == b && slots[i].buff.Some?)
        invariant i <= DISK_BUFF_SIZE && Find(slots[..], b, 0) == Find(slots[..], b, i)
      {
        i := i + 1;
      }
    }

    /** The victim scan of block_get; it ends because some slot is unpinned. */
    method PickVictim() returns (v: nat)
      requires Ready() && Scan(State().slots, hand, DISK_BUFF_SIZE).Some?
      ensures v == Victim(State())
    {
      v := hand;
      ghost var left: nat := DISK_BUFF_SIZE;
      while slots[v].using
        invariant v < DISK_BUFF_SIZE && left <= DISK_BUFF_SIZE
        invariant Scan(slots[..], hand, DISK_BUFF_SIZE) == Scan(slots[..], v, left)
        decreases left
      {
        v := (v + 1) % DISK_BUFF_SIZE;
        left := left - 1;
      }
    }

    method EvictSlot(v: nat)
      requires Ready() && v < DISK_BUFF_SIZE
      modifies this`disk, slots, kernel, kernel.freePages
      ensures Ready() && State() == Evict(old(State()), v)
    {
      ghost var c := State();
      EvictInv(c, v);
      if slots[v].buff.Some? {
        var page := slots[v].buff.value;
        assert SlotOk(c, c.slots[v]);
        if slots[v].dirty {
          disk := disk[slots[v].id := mem[page]];
        }
        PageAllocator.AlignedBase(kernel.Model(), page);
        kernel.FreePage(page);
        slots[v] := EMPTY_SLOT;
      }
      assert slots[..] == Evict(c, v).slots;
    }

    method LoadSlot(v: nat, b: nat, doRead: bool, junk: Block) returns (page: nat)
      requires Ready() && v < DISK_BUFF_SIZE && b < |disk| && slots[v].buff.None? && Find(State().slots, b, 0).None?
      modifies this`mem, this`hand, slots, kernel
      ensures Ready() && State() == Load(old(State()), v, b, doRead, junk) && page == PageAllocator.NewPage(old(State()).ctrl)
    {
      ghost var c := State();
      hide Find, View, PageAllocator.Valid, PageAllocator.Alloc, PageAllocator.NewPage, Inv, Load;
      LoadIs(c, v, b, doRead, junk);
      ghost var n := Load(c, v, b, doRead, junk);
      page := kernel.AllocPage();
      mem := mem[page := if doRead then disk[b] else if page in mem then mem[page] else junk];
      slots[v] := Slot(Some(page), slots[v].using, !doRead, b);
      hand := (hand + 1) % DISK_BUFF_SIZE;
      assert slots[..] == n.slots && mem == n.mem && kernel.Model() == n.ctrl && hand == n.hand && disk == n.disk;
    }

    /** block_get; `junk` is what a page that was never used before happens to hold. */
    method GetBlock(b: nat, doRead: bool, junk: Block) returns (page: nat)
      requires Ready() && CanGet(State(), b)
      modifies this`disk, this`mem, this`hand, slots, kernel, kernel.freePages
      ensures Ready() && State() == Get(old(State()), b, doRead, junk)
      ensures Find(State().slots, b, 0).Some? && page == PageOf(State(), b)
    {
      hide Find, Scan, View, PageAllocator.Valid, Inv, Evict, Load, Get, PageOf;
      ghost var c := State();
      GetExact(c, b, doRead, junk);
      var i := FindCached(b);
      if i < DISK_BUFF_SIZE {
        HitIsPin(c, b, doRead, junk);
        page := slots[i].buff.value;
        slots[i] := slots[i].(using := true);
        assert slots[..] == c.slots[i := c.slots[i].(using := true)];
        return;
      }
      var v := PickVictim();
      MissIsLoad(c, b, doRead, junk);
      EvictSlot(v);
      page := LoadSlot(v, b, doRead, junk);
    }

    /** block_commit; a page that is in no slot is reported and ignored. */
    method CommitPage(page: nat, doWrite: bool) returns (known: bool)
      requires Ready()
      modifies slots
      ensures Ready() && State() == Commit(old(State()), page, doWrite)
      ensures known <==> exists i :: 0 <= i < slots.Length && old(slots[i]).buff == Some(page)
    {
      ghost var c := State();
      var i := 0;
      while i < DISK_BUFF_SIZE && slots[i].buff != Some(page)
        invariant i <= DISK_BUFF_SIZE && FindPage(c.slots, page, 0) == FindPage(c.slots, page, i)
      {
        i := i + 1;
      }
      if i == DISK_BUFF_SIZE {
        return false;
      }
      assert old(slots[i]).buff == Some(page);
      if doWrite {
        slots[i] := slots[i].(dirty := true);
      }
      slots[i] := slots[i].(using := false);
      assert slots[..] == Commit(c, page, doWrite).slots;
      CommitInv(c, State(), i, doWrite || c.slots[i].dirty);
      return true;
    }

    /** block_sink: writes every dirty slot to the disk. */
    method SinkBlocks()
      requires Ready()
      modifies this`disk, slots
      ensures Ready() && State() == Sink(old(State()), 0)
    {
      ghost var c := State();
      for i := 0 to DISK_BUFF_SIZE
        invariant Ready() && |disk| == |c.disk| && Sink(State(), i) == Sink(c, 0)
      {
        ghost var d := State();
        if slots[i].dirty {
          WriteBackInv(d, i);
          disk := disk[slots[i].id := mem[slots[i].buff.value]];
          slots[i] := slots[i].(dirty := false);
          assert State() == WriteBack(d, i);
        }
      }
    }
  }
}
