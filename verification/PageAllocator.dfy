/**
 The bump allocator with a bounded stack of freed pages (mm/memory.c:131-157).
 Ctrl is its state plus the accounting no code keeps: which issued pages are
 live, and which were dropped because the stack of 124 was full.
 */
module PageAllocator {
  const MAX_FREE_PAGE: nat := 124

  datatype Ctrl = Ctrl(size: nat, next: nat, free: seq<nat>, live: set<nat>, dropped: set<nat>)

  /** An aligned page below the bump pointer. */
  predicate Issued(p: nat, next: nat, size: nat)
    requires 0 < size
  {
    p < next && p % size == 0
  }

  /** Pages are aligned, below the bump pointer, listed once, and in exactly one of the three groups. */
  ghost predicate Valid(c: Ctrl) {
    && 0 < c.size && c.next % c.size == 0 && |c.free| <= MAX_FREE_PAGE
    && (forall p | p in c.live || p in c.free || p in c.dropped :: Issued(p, c.next, c.size))
    && (forall i, j | 0 <= i < j < |c.free| :: c.free[i] != c.free[j])
    && (forall p | p in c.free :: p !in c.live && p !in c.dropped)
    && c.live !! c.dropped
  }

  function NewPage(c: Ctrl): nat {
    if |c.free| > 0 then c.free[|c.free| - 1] else c.next
  }

  function Alloc(c: Ctrl): (n: Ctrl) {
    var p := NewPage(c);
    if |c.free| > 0 then c.(free := c.free[..|c.free| - 1], live := c.live + {p})
    else c.(next := c.next + c.size, live := c.live + {p})
  }

  function Base(c: Ctrl, addr: nat): nat
    requires 0 < c.size
  {
    addr / c.size * c.size
  }

  function Free(c: Ctrl, addr: nat): (n: Ctrl)
    requires 0 < c.size
  {
    var p := Base(c, addr);
    if |c.free| < MAX_FREE_PAGE then c.(free := c.free + [p], live := c.live - {p})
    else c.(live := c.live - {p}, dropped := c.dropped + {p})
  }

  lemma MulMonotone(x: int, y: int, m: nat)
    requires x <= y
    ensures m * x <= m * y
  {
  }

  /** Quotient and remainder are unique. */
  lemma DivisionUnique(a: nat, m: nat, q: int, r: int)
    requires 0 <= r < m && a == m * q + r
    ensures a / m == q && a % m == r
  {
    var d := a / m;
    assert a == m * d + a % m;
    if d > q {
      MulMonotone(q + 1, d, m);
      assert false;
    } else if d < q {
      MulMonotone(d + 1, q, m);
      assert false;
    }
  }

  lemma ModStep(a: nat, m: nat)
    requires 0 < m && a % m == 0
    ensures (a + m) % m == 0
  {
    assert a == m * (a / m);
    DivisionUnique(a + m, m, a / m + 1, 0);
  }

  lemma AllocListed(c: Ctrl)
    requires Valid(c) && |c.free| > 0
    ensures Valid(Alloc(c)) && NewPage(c) !in c.live && Issued(NewPage(c), c.next, c.size)
  {
    hide Issued;
    assert NewPage(c) in c.free;
  }

  lemma AllocIssues(c: Ctrl)
    requires Valid(c) && c.free == []
    ensures Valid(Alloc(c)) && NewPage(c) !in c.live
  {
    ModStep(c.next, c.size);
  }

  /** A page handed out is not in use, and the books stay straight. */
  lemma AllocValid(c: Ctrl)
    requires Valid(c)
    ensures Valid(Alloc(c)) && NewPage(c) !in c.live && Alloc(c).live == c.live + {NewPage(c)}
    ensures NewPage(c) % c.size == 0
  {
    if |c.free| > 0 {
      AllocListed(c);
    } else {
      AllocIssues(c);
    }
  }

  /** Freeing any address inside a live page takes that page out of use. */
  lemma FreeValid(c: Ctrl, addr: nat)
    requires Valid(c) && Base(c, addr) in c.live
    ensures Valid(Free(c, addr)) && Free(c, addr).live == c.live - {Base(c, addr)}
  {
  }

  /** The next allocation gives a freed page back, and undoes the free, if and only if the list had room for
      it; else the page is gone. */
  lemma FreedComesBack(c: Ctrl, addr: nat)
    requires Valid(c) && Base(c, addr) in c.live
    ensures NewPage(Free(c, addr)) == Base(c, addr) <==> |c.free| < MAX_FREE_PAGE
    ensures Alloc(Free(c, addr)) == c <==> |c.free| < MAX_FREE_PAGE
  {
    var p := Base(c, addr);
    var n := Free(c, addr);
    if |c.free| < MAX_FREE_PAGE {
      assert n.free[..|n.free| - 1] == c.free;
      assert n.live + {p} == c.live;
    } else {
      assert p in n.dropped && p !in c.dropped;
      assert c.free[|c.free| - 1] in c.free;
    }
  }

  /** An aligned address is its own page. */
  lemma AlignedBase(c: Ctrl, p: nat)
    requires 0 < c.size && p % c.size == 0
    ensures Base(c, p) == p
  {
  }

  /** All pages there are: live, listed and dropped. */
  ghost function Total(c: Ctrl): nat {
    |c.live| + |c.free| + |c.dropped|
  }

  datatype Request = AllocPage | FreePage(addr: nat)

  function Do(c: Ctrl, r: Request): (n: Ctrl)
    requires 0 < c.size
    ensures n.size == c.size
  {
    if r.AllocPage? then Alloc(c) else Free(c, r.addr)
  }

  /** A request may free only a page that is live. */
  ghost predicate Proper(c: Ctrl, r: Request) {
    r.FreePage? ==> 0 < c.size && Base(c, r.addr) in c.live
  }

  /** One request keeps the books, and the bump pointer moves exactly when the total grows. */
  lemma Conservation(c: Ctrl, r: Request)
    requires Valid(c) && Proper(c, r)
    ensures var n := Do(c, r);
            && Valid(n) && (Total(n) == Total(c) || Total(n) == Total(c) + 1)
            && n.next == if Total(n) == Total(c) then c.next else c.next + c.size
  {
    hide Issued;
    AllocValid(c);
    if r.FreePage? {
      FreeValid(c, r.addr);
    }
  }

  function Run(c: Ctrl, rs: seq<Request>): Ctrl
    requires 0 < c.size
    decreases |rs|
  {
    if rs == [] then c else Run(Do(c, rs[0]), rs[1..])
  }

  ghost predicate ProperRun(c: Ctrl, rs: seq<Request>)
    requires 0 < c.size
    decreases |rs|
  {
    rs == [] || (Proper(c, rs[0]) && ProperRun(Do(c, rs[0]), rs[1..]))
  }

  /** Over every run, live plus listed plus dropped pages are exactly the pages issued. */
  lemma {:induction false} RunConserves(c: Ctrl, start: nat, rs: seq<Request>)
    requires Valid(c) && ProperRun(c, rs) && c.next == start + c.size * Total(c)
    ensures var n := Run(c, rs); Valid(n) && n.next == start + c.size * Total(n)
    decreases |rs|
  {
    hide Issued, Proper, Do, Total;
    if rs == [] {
    } else {
      Conservation(c, rs[0]);
      assert c.size * (Total(c) + 1) == c.size * Total(c) + c.size;
      RunConserves(Do(c, rs[0]), start, rs[1..]);
    }
  }

  /** struct PageCtrl, updated in place. */
  class PageCtrl {
    var pageSize: nat
    var nextPage: nat
    var cnt: nat
    const freePages: array<nat>
    ghost var live: set<nat>
    ghost var dropped: set<nat>

    ghost predicate Ready()
      reads this, freePages
    {
      freePages.Length == MAX_FREE_PAGE && cnt <= MAX_FREE_PAGE && Valid(Model())
    }

    ghost function Model(): Ctrl
      requires cnt <= freePages.Length
      reads this, freePages
    {
      Ctrl(pageSize, nextPage, freePages[..cnt], live, dropped)
    }

    constructor (start: nat, size: nat)
      requires 0 < size && start % size == 0
      ensures Ready() && fresh(freePages) && Model() == Ctrl(size, start, [], {}, {})
    {
      pageSize, nextPage, cnt := size, start, 0;
      freePages := new nat[MAX_FREE_PAGE];
      live, dropped := {}, {};
    }

    method AllocPage() returns (page: nat)
      requires Ready()
      modifies this
      ensures Ready() && Model() == Alloc(old(Model())) && page == NewPage(old(Model()))
    {
      AllocValid(Model());
      if cnt > 0 {
        cnt := cnt - 1;
        page := freePages[cnt];
      } else {
        page := nextPage;
        nextPage := nextPage + pageSize;
      }
      live := live + {page};
      assert Model().free == Alloc(old(Model())).free;
    }

    method FreePage(addr: nat)
      requires Ready() && Base(Model(), addr) in live
      modifies this, freePages
      ensures Ready() && Model() == Free(old(Model()), addr)
    {
      FreeValid(Model(), addr);
      var page := addr / pageSize * pageSize;
      live := live - {page};
      if cnt < MAX_FREE_PAGE {
        freePages[cnt] := page;
        cnt := cnt + 1;
      } else {
        dropped := dropped + {page};
      }
      assert Model().free == Free(old(Model()), addr).free;
    }
  }
}
