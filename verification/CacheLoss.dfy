/**
 A run of block_get from the empty cache that loses a change (fs/fs.c:86-125):
 a block is pinned by a second get, 31 more are loaded until the hand comes
 round to it, and the next block loaded is evicted while it is being changed.
 */
module CacheLoss {
  import opened Wrappers
  import opened Blocks
  import opened Partition
  import PageAllocator
  import opened CacheModel
  import opened CacheRefinement

  /** disk_buff_init. */
  function EmptyCache(ctrl: PageAllocator.Ctrl, disk: seq<Block>): Cache {
    Cache(seq(DISK_BUFF_SIZE, _ => EMPTY_SLOT), 0, ctrl, map[], disk)
  }

  /** Gets one after the other; None where the victim scan would not end. Committing a block that was
      loaded and not changed leaves the cache as it is. */
  ghost function Gets(c: Cache, bs: seq<nat>, junk: Block): Option<Cache>
    decreases |bs|
  {
    if bs == [] then Some(c)
    else if Inv(c) && CanGet(c, bs[0]) then Gets(Get(c, bs[0], true, junk), bs[1..], junk)
    else None
  }

  /** The first slots cache `bs` in order, the others are empty, the hand is behind them, and at most slot 0 is pinned. */
  ghost predicate Filled(c: Cache, bs: seq<nat>, pin: bool, disk: seq<Block>) {
    && Inv(c) && c.disk == disk && |bs| <= DISK_BUFF_SIZE && c.hand == |bs| % DISK_BUFF_SIZE && (pin ==> bs != [])
    && (forall i | 0 <= i < DISK_BUFF_SIZE :: if i < |bs| then Caches(c.slots[i], bs[i]) else c.slots[i] == EMPTY_SLOT)
    && (forall i | 0 <= i < DISK_BUFF_SIZE :: c.slots[i].using <==> pin && i == 0)
  }

  lemma NotCached(c: Cache, bs: seq<nat>, pin: bool, disk: seq<Block>, b: nat)
    requires Filled(c, bs, pin, disk) && b !in bs
    ensures Find(c.slots, b, 0).None?
  {
    hide Find;
    forall i | 0 <= i < DISK_BUFF_SIZE
      ensures !Caches(c.slots[i], b)
    {
      assert i < |bs| ==> bs[i] in bs;
    }
  }

  /** A miss with the hand on an empty unpinned slot loads the block there. */
  lemma EmptyHandLoads(c: Cache, b: nat, junk: Block)
    requires Inv(c) && b < |c.disk| && Find(c.slots, b, 0).None? && c.slots[c.hand] == EMPTY_SLOT
    ensures CanGet(c, b)
    ensures var n := Get(c, b, true, junk);
            && Inv(n) && n.disk == c.disk && n.hand == (c.hand + 1) % DISK_BUFF_SIZE && |n.slots| == |c.slots|
            && Caches(n.slots[c.hand], b) && !n.slots[c.hand].using
            && forall i | 0 <= i < |c.slots| && i != c.hand :: n.slots[i] == c.slots[i]
  {
    hide Find, View, PageAllocator.Valid, PageAllocator.Alloc, PageAllocator.NewPage;
    assert Scan(c.slots, c.hand, DISK_BUFF_SIZE) == Some(c.hand);
    assert Evict(c, c.hand) == c;
    LoadInv(c, c.hand, b, true, junk);
  }

  lemma FillOne(c: Cache, bs: seq<nat>, pin: bool, disk: seq<Block>, b: nat, junk: Block)
    requires Filled(c, bs, pin, disk) && |bs| < DISK_BUFF_SIZE && b !in bs && b < |disk|
    ensures CanGet(c, b) && Filled(Get(c, b, true, junk), bs + [b], pin, disk)
  {
    hide Find, Inv, View, Get;
    NotCached(c, bs, pin, disk, b);
    EmptyHandLoads(c, b, junk);
    assert (bs + [b])[|bs|] == b && forall i | 0 <= i < |bs| :: (bs + [b])[i] == bs[i];
  }

  lemma {:induction false} FillAll(c: Cache, bs: seq<nat>, pin: bool, disk: seq<Block>, more: seq<nat>, junk: Block)
    requires Filled(c, bs, pin, disk) && |bs| + |more| <= DISK_BUFF_SIZE && NoDup(bs + more) && forall b | b in more :: b < |disk|
    ensures Gets(c, more, junk).Some? && Filled(Gets(c, more, junk).value, bs + more, pin, disk)
    decreases |more|
  {
    hide Filled, Get, CanGet, Inv;
    if more == [] {
      assert bs + more == bs;
    } else {
      var b := more[0];
      assert b in more && forall y | y in more[1..] :: y in more;
      assert b !in bs by {
        assert (bs + more)[|bs|] == b;
        assert forall i | 0 <= i < |bs| :: (bs + more)[i] == bs[i];
      }
      FillOne(c, bs, pin, disk, b, junk);
      FilledInv(c, bs, pin, disk);
      assert (bs + [b]) + more[1..] == bs + more;
      FillAll(Get(c, b, true, junk), bs + [b], pin, disk, more[1..], junk);
    }
  }

  lemma FilledInv(c: Cache, bs: seq<nat>, pin: bool, disk: seq<Block>)
    requires Filled(c, bs, pin, disk)
    ensures Inv(c)
  {
  }

  /** A second get pins the block in slot 0. */
  lemma PinFirst(c: Cache, b: nat, disk: seq<Block>, junk: Block)
    requires Filled(c, [b], false, disk) && b < |disk|
    ensures CanGet(c, b) && Filled(Get(c, b, true, junk), [b], true, disk)
  {
    hide Find, Scan;
    FindUnique(c, b, 0);
    GetExact(c, b, true, junk);
  }

  lemma GetsConcat(c: Cache, a: seq<nat>, b: seq<nat>, junk: Block)
    requires Gets(c, a, junk).Some?
    ensures Gets(c, a + b, junk) == Gets(Gets(c, a, junk).value, b, junk)
    decreases |a|
  {
    hide Get, CanGet, Inv;
    if a == [] {
      assert a + b == b;
    } else {
      assert (a + b)[1..] == a[1..] + b;
      GetsConcat(Get(c, a[0], true, junk), a[1..], b, junk);
    }
  }

  /** The hand is back at slot 0, and slot 0 is pinned. */
  lemma HandOnPin(ctrl: PageAllocator.Ctrl, disk: seq<Block>, bs: seq<nat>, junk: Block)
    requires PageAllocator.Valid(ctrl) && |bs| == DISK_BUFF_SIZE && NoDup(bs) && forall b | b in bs :: b < |disk|
    ensures var o := Gets(EmptyCache(ctrl, disk), [bs[0], bs[0]] + bs[1..], junk); o.Some? && Filled(o.value, bs, true, disk)
  {
    hide Get, CanGet, Gets, Inv;
    var b := bs[0];
    assert b in bs && forall y | y in bs[1..] :: y in bs;
    var c0 := EmptyCache(ctrl, disk);
    EmptyFilled(ctrl, disk);
    FillOne(c0, [], false, disk, b, junk);
    var c1 := Get(c0, b, true, junk);
    assert [] + [b] == [b];
    PinFirst(c1, b, disk, junk);
    FilledInv(c1, [b], false, disk);
    TwoGets(c0, b, junk);
    assert [b] + bs[1..] == bs;
    FillAll(Get(c1, b, true, junk), [b], true, disk, bs[1..], junk);
    GetsConcat(c0, [b, b], bs[1..], junk);
  }

  lemma EmptyFilled(ctrl: PageAllocator.Ctrl, disk: seq<Block>)
    requires PageAllocator.Valid(ctrl)
    ensures Filled(EmptyCache(ctrl, disk), [], false, disk) && Inv(EmptyCache(ctrl, disk))
  {
  }

  lemma TwoGets(c: Cache, b: nat, junk: Block)
    requires Inv(c) && CanGet(c, b) && Inv(Get(c, b, true, junk)) && CanGet(Get(c, b, true, junk), b)
    ensures Gets(c, [b, b], junk) == Some(Get(Get(c, b, true, junk), b, true, junk))
  {
    hide Get, CanGet, Inv;
    assert [b, b][1..] == [b] && [b][1..] == [];
    assert Gets(Get(c, b, true, junk), [b], junk) == Some(Get(Get(c, b, true, junk), b, true, junk));
  }

  /** From disk_buff_init on: the gets above, then load `b`, change it to `x`, load `other`, and `b` reads as
      it was before the change. */
  lemma ChangeLostFromStart(ctrl: PageAllocator.Ctrl, disk: seq<Block>, bs: seq<nat>, b: nat, x: Block, other: nat, junk: Block)
    requires PageAllocator.Valid(ctrl) && |bs| == DISK_BUFF_SIZE && NoDup(bs) && forall y | y in bs :: y < |disk|
    requires b < |disk| && other < |disk| && b != other && b !in bs && other !in bs && x != disk[b]
    ensures var o := Gets(EmptyCache(ctrl, disk), [bs[0], bs[0]] + bs[1..], junk);
            && o.Some? && Inv(o.value) && CanGet(o.value, b)
            && var c1 := Get(o.value, b, true, junk);
               && Inv(c1) && Find(c1.slots, b, 0).Some?
               && var c2 := c1.(mem := c1.mem[PageOf(c1, b) := x]);
                  && Inv(c2) && CanGet(c2, other) && b < |c2.disk| && View(c2, b) == x
                  && var c3 := Get(c2, other, true, junk);
                     Inv(c3) && |c3.disk| == |disk| && View(c3, b) == disk[b] != x
  {
    hide Get, View, Gets, Find, Scan;
    HandOnPin(ctrl, disk, bs, junk);
    var c := Gets(EmptyCache(ctrl, disk), [bs[0], bs[0]] + bs[1..], junk).value;
    NotCached(c, bs, true, disk, b);
    NotCached(c, bs, true, disk, other);
    ScanFinds(c.slots, c.hand, 1);
    UnpinnedMissLosesChange(c, b, x, other, junk);
  }
}
