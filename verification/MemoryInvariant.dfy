/** Every step keeps the memory invariant, and each says exactly what it maps or unmaps. */
module MemoryInvariant {
  import opened PageAllocator
  import opened PageTables
  import opened VirtualMemory

  /** The invariant without the TLB. */
  ghost predicate MemOk(vm: Vm) {
    Shaped(vm) && DirsOk(vm) && TablesOk(vm) && FramesOk(vm)
  }

  /** The new frames are there: two allocations stay below the 36-bit physical limit. */
  predicate Room(vm: Vm) {
    NewPage(vm.user) < PHYS_LIMIT && NewPage(Alloc(vm.user)) < PHYS_LIMIT
  }

  ghost predicate SameProcs(vm: Vm, n: Vm) {
    n.pgd == vm.pgd && n.procs == vm.procs && n.nextPid == vm.nextPid && n.current == vm.current && n.asid == vm.asid && n.tlb == vm.tlb
  }

  lemma AllocBooks(c: Ctrl, start: nat, size: nat)
    requires Books(c, start, size)
    ensures Books(Alloc(c), start, size) && NewPage(c) !in c.live && Alloc(c).live == c.live + {NewPage(c)}
    ensures NewPage(c) % size == 0 && Alloc(c).dropped == c.dropped
    ensures Total(Alloc(c)) == if c.free == [] then Total(c) + 1 else Total(c)
  {
    AllocValid(c);
    Conservation(c, AllocPage);
    assert size * (Total(c) + 1) == size * Total(c) + size;
  }

  lemma FreeBooks(c: Ctrl, start: nat, size: nat, p: nat)
    requires Books(c, start, size) && p in c.live
    ensures Books(Free(c, p), start, size) && Free(c, p).live == c.live - {p} && Total(Free(c, p)) == Total(c)
    ensures |c.free| < MAX_FREE_PAGE ==> Free(c, p).dropped == c.dropped
  {
    AlignedBase(c, p);
    FreeValid(c, p);
    Conservation(c, FreePage(p));
    assert size * (Total(c) + 1) == size * Total(c) + size;
  }

  lemma FreshTable(vm: Vm)
    requires MemOk(vm)
    ensures NewPage(vm.pt) !in vm.pt.live && Alloc(vm.pt).live == vm.pt.live + {NewPage(vm.pt)}
  {
    AllocBooks(vm.pt, PT_START, TABLE_SIZE);
  }

  lemma NewTableDirs(vm: Vm, d: nat, i: nat)
    requires MemOk(vm) && d in vm.pgd.live && i < NUM_ENTRY
    ensures DirsOk(EnsureTable(vm, d, i))
  {
    hide Books, Total, Valid, Shaped, TablesOk, FramesOk;
    AllocBooks(vm.pt, PT_START, TABLE_SIZE);
  }

  lemma DirEntryAfter(vm: Vm, d: nat, i: nat, e: nat, k: nat)
    requires MemOk(vm) && d in vm.pgd.live && i < NUM_ENTRY && e in vm.pgd.live && k < NUM_ENTRY
    ensures var n := EnsureTable(vm, d, i);
            && Shaped(n) && n.pgd == vm.pgd && n.empty == vm.empty && n.dirs[d][i] != vm.empty
            && (n.dirs[e][k] != n.empty ==> n.dirs[e][k] in n.tableAt && n.tableAt[n.dirs[e][k]] == Place(e, k))
  {
    hide DirsOk, FramesOk, NewPage, Alloc;
    FreshTable(vm);
    EnsureTableShaped(vm, d, i);
  }

  lemma TableAfter(vm: Vm, d: nat, i: nat, t: nat)
    requires MemOk(vm) && d in vm.pgd.live && i < NUM_ENTRY && t in EnsureTable(vm, d, i).tableAt
    ensures var n := EnsureTable(vm, d, i);
            && Shaped(n) && n.tableAt[t].table in n.pgd.live && n.tableAt[t].index < NUM_ENTRY
            && n.dirs[n.tableAt[t].table][n.tableAt[t].index] == t
  {
    hide DirsOk, FramesOk, NewPage, Alloc;
    FreshTable(vm);
    EnsureTableShaped(vm, d, i);
  }

  lemma EmptyAfter(vm: Vm, d: nat, i: nat)
    requires MemOk(vm) && d in vm.pgd.live && i < NUM_ENTRY
    ensures var n := EnsureTable(vm, d, i);
            && Shaped(n) && n.empty in n.pt.live && n.tableAt.Keys == n.pt.live - {n.empty}
            && (forall j | 0 <= j < NUM_ENTRY :: n.tables[n.empty][j] == 0)
  {
    hide DirsOk, FramesOk, NewPage, Alloc;
    FreshTable(vm);
    EnsureTableShaped(vm, d, i);
  }

  lemma NewTableTables(vm: Vm, d: nat, i: nat)
    requires MemOk(vm) && d in vm.pgd.live && i < NUM_ENTRY
    ensures var n := EnsureTable(vm, d, i); Shaped(n) && TablesOk(n) && n.dirs[d][i] != vm.empty
  {
    hide DirsOk, FramesOk, EnsureTable;
    EmptyAfter(vm, d, i);
    DirEntryAfter(vm, d, i, d, i);
    var n := EnsureTable(vm, d, i);
    forall e, k | e in n.pgd.live && 0 <= k < NUM_ENTRY && n.dirs[e][k] != n.empty
      ensures n.dirs[e][k] in n.tableAt && n.tableAt[n.dirs[e][k]] == Place(e, k)
    {
      DirEntryAfter(vm, d, i, e, k);
    }
    forall t | t in n.tableAt
      ensures n.tableAt[t].table in n.pgd.live && n.tableAt[t].index < NUM_ENTRY
      ensures n.dirs[n.tableAt[t].table][n.tableAt[t].index] == t
    {
      TableAfter(vm, d, i, t);
    }
  }

  lemma NewTableFrames(vm: Vm, d: nat, i: nat)
    requires MemOk(vm) && d in vm.pgd.live && i < NUM_ENTRY
    ensures var n := EnsureTable(vm, d, i); Shaped(n) && FramesOk(n)
  {
    hide DirsOk, TablesOk, Pack, FrameOf, NewPage, Alloc;
    FreshTable(vm);
    EnsureTableShaped(vm, d, i);
    var n := EnsureTable(vm, d, i);
    assert forall u | u in vm.pt.live :: n.tables[u] == vm.tables[u];
  }

  lemma NewTablePtes(vm: Vm, d: nat, i: nat)
    requires MemOk(vm) && d in vm.pgd.live && i < NUM_ENTRY
    ensures var n := EnsureTable(vm, d, i);
            && Shaped(n)
            && forall e: nat, x: nat | e in vm.pgd.live && x < PAGES :: Pte(n, e, x) == Pte(vm, e, x)
  {
    hide DirsOk, FramesOk, NewPage, Alloc;
    FreshTable(vm);
    EnsureTableShaped(vm, d, i);
    var n := EnsureTable(vm, d, i);
    forall e: nat, x: nat | e in vm.pgd.live && x < PAGES
      ensures Pte(n, e, x) == Pte(vm, e, x)
    {
      assert vm.dirs[e][x / NUM_ENTRY] in vm.pt.live;
    }
  }

  /** A private table changes what no page maps. */
  lemma EnsureTableOk(vm: Vm, d: nat, i: nat)
    requires MemOk(vm) && d in vm.pgd.live && i < NUM_ENTRY
    ensures var n := EnsureTable(vm, d, i);
            && MemOk(n) && SameProcs(vm, n) && n.user == vm.user && n.empty == vm.empty && n.dirs[d][i] != vm.empty
            && forall e: nat, x: nat | e in vm.pgd.live && x < PAGES :: Pte(n, e, x) == Pte(vm, e, x)
  {
    hide DirsOk, TablesOk, FramesOk, Pte;
    EnsureTableShaped(vm, d, i);
    NewTableDirs(vm, d, i);
    NewTableTables(vm, d, i);
    NewTableFrames(vm, d, i);
    NewTablePtes(vm, d, i);
  }

  // ----- a new frame -----

  lemma FreshFrame(vm: Vm)
    requires MemOk(vm)
    ensures NewPage(vm.user) !in vm.user.live && Alloc(vm.user).live == vm.user.live + {NewPage(vm.user)}
    ensures NewPage(vm.user) % PAGE == 0
    ensures Books(Alloc(vm.user), USER_START, PAGE)
  {
    AllocBooks(vm.user, USER_START, PAGE);
  }

  lemma NewFrameTables(vm: Vm, t: nat, j: nat)
    requires MemOk(vm) && t in vm.pt.live && t != vm.empty && j < NUM_ENTRY
    ensures var n := EnsureFrame(vm, t, j); Shaped(n) && TablesOk(n)
  {
    hide DirsOk, FramesOk, NewPage, Alloc;
    EnsureFrameShaped(vm, t, j);
  }

  lemma NewFrameDirs(vm: Vm, t: nat, j: nat)
    requires MemOk(vm) && t in vm.pt.live && j < NUM_ENTRY
    ensures DirsOk(EnsureFrame(vm, t, j))
  {
    hide Shaped, TablesOk, FramesOk, NewPage, Alloc, Books, Total;
    FreshFrame(vm);
  }

  /** A table entry is valid exactly when it is not zero. */
  lemma ZeroOrValid(vm: Vm, t: nat, j: nat)
    requires MemOk(vm) && t in vm.pt.live && j < NUM_ENTRY
    ensures PteValid(vm.tables[t][j]) == (vm.tables[t][j] != 0)
  {
    hide DirsOk, TablesOk, Pack, FrameOf, PteValid;
    ZeroInvalid();
    PackExact(FrameOf(vm.tables[t][j]));
  }

  lemma EntryOfNew(vm: Vm, t: nat, j: nat)
    requires MemOk(vm) && t in vm.pt.live && j < NUM_ENTRY && NewPage(vm.user) < PHYS_LIMIT && !PteValid(vm.tables[t][j])
    ensures var n := EnsureFrame(vm, t, j);
            Shaped(n) && n.pt == vm.pt && MapsFrame(n, t, j, FrameOf(n.tables[t][j]))
  {
    hide DirsOk, TablesOk, FramesOk, NewPage, Alloc, Pack, FrameOf, PteValid;
    FreshFrame(vm);
    EnsureFrameShaped(vm, t, j);
    PackExact(NewPage(vm.user));
  }

  lemma EntryOfOld(vm: Vm, t: nat, j: nat, u: nat, k: nat)
    requires MemOk(vm) && t in vm.pt.live && j < NUM_ENTRY && u in vm.pt.live && k < NUM_ENTRY
    requires u != t || k != j || PteValid(vm.tables[t][j])
    ensures var n := EnsureFrame(vm, t, j);
            Shaped(n) && n.pt == vm.pt && (n.tables[u][k] == 0 || MapsFrame(n, u, k, FrameOf(n.tables[u][k])))
  {
    hide DirsOk, TablesOk, PlacesOk, NewPage, Alloc, Pack, FrameOf, PteValid;
    FreshFrame(vm);
    EnsureFrameShaped(vm, t, j);
    assert vm.tables[u][k] == 0 || MapsFrame(vm, u, k, FrameOf(vm.tables[u][k]));
  }

  lemma EntryAfter(vm: Vm, t: nat, j: nat, u: nat, k: nat)
    requires MemOk(vm) && t in vm.pt.live && j < NUM_ENTRY && NewPage(vm.user) < PHYS_LIMIT
    requires u in vm.pt.live && k < NUM_ENTRY
    ensures var n := EnsureFrame(vm, t, j);
            Shaped(n) && n.pt == vm.pt && (n.tables[u][k] == 0 || MapsFrame(n, u, k, FrameOf(n.tables[u][k])))
  {
    hide DirsOk, TablesOk, FramesOk, EnsureFrame, MapsFrame, NewPage, Alloc, FrameOf, PteValid;
    if u == t && k == j && !PteValid(vm.tables[t][j]) {
      EntryOfNew(vm, t, j);
    } else {
      EntryOfOld(vm, t, j, u, k);
    }
  }

  lemma NewFrameEntries(vm: Vm, t: nat, j: nat)
    requires MemOk(vm) && t in vm.pt.live && j < NUM_ENTRY && NewPage(vm.user) < PHYS_LIMIT
    ensures var n := EnsureFrame(vm, t, j); Shaped(n) && EntriesOk(n)
  {
    hide DirsOk, TablesOk, FramesOk, Shaped, EnsureFrame, MapsFrame, NewPage, FrameOf;
    EnsureFrameShaped(vm, t, j);
    var n := EnsureFrame(vm, t, j);
    forall u, k | u in n.pt.live && 0 <= k < NUM_ENTRY
      ensures n.tables[u][k] == 0 || MapsFrame(n, u, k, FrameOf(n.tables[u][k]))
    {
      EntryAfter(vm, t, j, u, k);
    }
  }

  /** The place of a live frame is not one where nothing is mapped. */
  lemma PlaceOfFrame(vm: Vm, f: nat, t: nat, j: nat)
    requires MemOk(vm) && f in vm.frameAt && t in vm.pt.live && j < NUM_ENTRY && vm.tables[t][j] == 0
    ensures vm.frameAt[f] != Place(t, j)
  {
    hide DirsOk, TablesOk, EntriesOk, Pack;
    ZeroIsNoPack();
  }

  lemma NewFrameKeys(vm: Vm, t: nat, j: nat)
    requires MemOk(vm) && t in vm.pt.live && j < NUM_ENTRY
    ensures var n := EnsureFrame(vm, t, j); n.frameAt.Keys == n.user.live
  {
    hide DirsOk, TablesOk, EntriesOk, PlacesOk, Shaped, NewPage, Alloc, Pack, PteValid;
    FreshFrame(vm);
  }

  lemma PlaceOfNew(vm: Vm, t: nat, j: nat)
    requires MemOk(vm) && t in vm.pt.live && j < NUM_ENTRY && NewPage(vm.user) < PHYS_LIMIT && !PteValid(vm.tables[t][j])
    ensures var n, f := EnsureFrame(vm, t, j), NewPage(vm.user); Shaped(n) && f in n.frameAt && PlaceOk(n, f)
  {
    hide DirsOk, TablesOk, FramesOk, NewPage, Alloc, Pack, PteValid;
    FreshFrame(vm);
    EnsureFrameShaped(vm, t, j);
  }

  lemma PlaceOfOld(vm: Vm, t: nat, j: nat, f: nat)
    requires MemOk(vm) && t in vm.pt.live && j < NUM_ENTRY && f in vm.frameAt && f != NewPage(vm.user)
    ensures var n := EnsureFrame(vm, t, j); Shaped(n) && f in n.frameAt && PlaceOk(n, f)
  {
    hide DirsOk, TablesOk, EntriesOk, NewPage, Alloc, Pack, FrameOf, PteValid;
    EnsureFrameShaped(vm, t, j);
    ZeroOrValid(vm, t, j);
    assert PlaceOk(vm, f);
    if vm.tables[t][j] == 0 {
      PlaceOfFrame(vm, f, t, j);
    }
  }

  lemma PlaceAfter(vm: Vm, t: nat, j: nat, f: nat)
    requires MemOk(vm) && t in vm.pt.live && j < NUM_ENTRY && NewPage(vm.user) < PHYS_LIMIT
    requires f in EnsureFrame(vm, t, j).frameAt
    ensures var n := EnsureFrame(vm, t, j); Shaped(n) && PlaceOk(n, f)
  {
    hide DirsOk, TablesOk, FramesOk, Shaped, PlaceOk, NewPage, Alloc, Pack, PteValid;
    LiveFrames(vm);
    FreshFrame(vm);
    if f == NewPage(vm.user) {
      PlaceOfNew(vm, t, j);
    } else {
      PlaceOfOld(vm, t, j, f);
    }
  }

  lemma LiveFrames(vm: Vm)
    requires MemOk(vm)
    ensures vm.frameAt.Keys == vm.user.live
  {
    hide DirsOk, TablesOk, Shaped, EntriesOk, PlacesOk;
  }

  lemma NewFramePlaces(vm: Vm, t: nat, j: nat)
    requires MemOk(vm) && t in vm.pt.live && j < NUM_ENTRY && NewPage(vm.user) < PHYS_LIMIT
    ensures var n := EnsureFrame(vm, t, j); Shaped(n) && PlacesOk(n)
  {
    hide DirsOk, TablesOk, FramesOk, Shaped, EnsureFrame, PlaceOk, NewPage;
    EnsureFrameShaped(vm, t, j);
    forall f | f in EnsureFrame(vm, t, j).frameAt
      ensures PlaceOk(EnsureFrame(vm, t, j), f)
    {
      PlaceAfter(vm, t, j, f);
    }
  }

  lemma ZeroIsNoPack()
    ensures forall f: nat :: Pack(f) != 0
  {
  }

  lemma NewFrameFrames(vm: Vm, t: nat, j: nat)
    requires MemOk(vm) && t in vm.pt.live && j < NUM_ENTRY && NewPage(vm.user) < PHYS_LIMIT
    ensures var n := EnsureFrame(vm, t, j);
            && Shaped(n) && FramesOk(n) && PteValid(n.tables[t][j])
            && n.tables[t][j] == if vm.tables[t][j] == 0 then Pack(NewPage(vm.user)) else vm.tables[t][j]
  {
    hide DirsOk, TablesOk, EntriesOk, PlacesOk, NewPage, Alloc, Pack, FrameOf, PteValid;
    NewFrameEntries(vm, t, j);
    NewFramePlaces(vm, t, j);
    NewFrameKeys(vm, t, j);
    ZeroOrValid(vm, t, j);
    PackExact(NewPage(vm.user));
  }

  lemma PteOfPair(vm: Vm, d: nat, i: nat, j: nat)
    requires MemOk(vm) && d in vm.pgd.live && i < NUM_ENTRY && vm.dirs[d][i] != vm.empty && j < NUM_ENTRY
    requires NewPage(vm.user) < PHYS_LIMIT
    ensures var n, x := EnsureFrame(vm, vm.dirs[d][i], j), i * NUM_ENTRY + j;
            && Shaped(n) && n.pgd == vm.pgd && PteValid(Pte(n, d, x))
            && Pte(n, d, x) == (if Pte(vm, d, x) == 0 then Pack(NewPage(vm.user)) else Pte(vm, d, x))
            && (Pte(vm, d, x) == 0 ==> FrameOf(Pte(n, d, x)) !in vm.user.live)
  {
    hide DirsOk, TablesOk, FramesOk, NewPage, Alloc, Pack, PteValid, FrameOf;
    var t := vm.dirs[d][i];
    EnsureFrameShaped(vm, t, j);
    NewFrameFrames(vm, t, j);
    FreshFrame(vm);
    PackExact(NewPage(vm.user));
  }

  /** A table stands in one place, so a frame stored in it is seen under one directory, in one page. */
  lemma PteAfter(vm: Vm, d: nat, i: nat, j: nat, e: nat, y: nat)
    requires MemOk(vm) && d in vm.pgd.live && i < NUM_ENTRY && vm.dirs[d][i] != vm.empty && j < NUM_ENTRY
    requires e in vm.pgd.live && y < PAGES && !(e == d && y == i * NUM_ENTRY + j)
    ensures var n := EnsureFrame(vm, vm.dirs[d][i], j); Shaped(n) && n.pgd == vm.pgd && Pte(n, e, y) == Pte(vm, e, y)
  {
    hide DirsOk, FramesOk, NewPage, Alloc, Pack, PteValid;
    var t, u := vm.dirs[d][i], vm.dirs[e][y / NUM_ENTRY];
    EnsureFrameShaped(vm, t, j);
    assert u == t ==> Place(e, y / NUM_ENTRY) == vm.tableAt[t] == Place(d, i);
  }

  lemma NewFramePtes(vm: Vm, d: nat, i: nat, j: nat)
    requires MemOk(vm) && d in vm.pgd.live && i < NUM_ENTRY && vm.dirs[d][i] != vm.empty && j < NUM_ENTRY
    requires NewPage(vm.user) < PHYS_LIMIT
    ensures var n := EnsureFrame(vm, vm.dirs[d][i], j); Shaped(n) && FrameMapped(vm, n, d, i * NUM_ENTRY + j)
  {
    hide DirsOk, TablesOk, FramesOk, EnsureFrame, NewPage, Alloc, Pack, PteValid, FrameOf, Pte;
    PteOfPair(vm, d, i, j);
    var n := EnsureFrame(vm, vm.dirs[d][i], j);
    forall e: nat, y: nat | e in vm.pgd.live && y < PAGES && !(e == d && y == i * NUM_ENTRY + j)
      ensures Pte(n, e, y) == Pte(vm, e, y)
    {
      PteAfter(vm, d, i, j, e, y);
    }
  }

  /** do_page_fault maps one page of one directory, and no other page of any directory changes. */
  lemma EnsureFrameOk(vm: Vm, d: nat, i: nat, j: nat)
    requires MemOk(vm) && d in vm.pgd.live && i < NUM_ENTRY && vm.dirs[d][i] != vm.empty && j < NUM_ENTRY
    requires NewPage(vm.user) < PHYS_LIMIT
    ensures var n := EnsureFrame(vm, vm.dirs[d][i], j);
            && MemOk(n) && SameProcs(vm, n) && n.dirs == vm.dirs && n.pt == vm.pt && n.empty == vm.empty
            && (n.user == vm.user || n.user == Alloc(vm.user)) && vm.user.live <= n.user.live
            && FrameMapped(vm, n, d, i * NUM_ENTRY + j)
  {
    hide DirsOk, FramesOk, TablesOk, NewPage, Alloc, Pack, PteValid, FrameOf, FrameMapped;
    var t := vm.dirs[d][i];
    NewFrameTables(vm, t, j);
    NewFrameDirs(vm, t, j);
    NewFrameFrames(vm, t, j);
    NewFramePtes(vm, d, i, j);
    FreshFrame(vm);
  }

  /** Page `x` under `d` is mapped in `n`, by a frame not in use before if it was not mapped; every other page is the same. */
  ghost predicate FrameMapped(vm: Vm, n: Vm, d: nat, x: nat)
    requires Shaped(vm) && Shaped(n) && n.pgd == vm.pgd && d in vm.pgd.live && x < PAGES
  {
    && (forall e: nat, y: nat | e in vm.pgd.live && y < PAGES && !(e == d && y == x && Pte(vm, d, x) == 0) :: Pte(n, e, y) == Pte(vm, e, y))
    && PteValid(Pte(n, d, x)) && (Pte(vm, d, x) == 0 ==> FrameOf(Pte(n, d, x)) !in vm.user.live)
  }

  // ----- a page pair -----

  /** Only the pair of pages from `x0` under `d` may differ, and only where nothing was mapped. */
  ghost predicate MapsOnly(vm: Vm, n: Vm, d: nat, x0: nat)
    requires Shaped(vm) && Shaped(n) && n.pgd == vm.pgd
  {
    forall e: nat, x: nat | e in vm.pgd.live && x < PAGES ::
      Pte(n, e, x) == Pte(vm, e, x) || (e == d && (x == x0 || x == x0 + 1) && Pte(vm, e, x) == 0)
  }

  /** The pair of pages from `x` under `d` is mapped, by frames not in use before where it was not. */
  ghost predicate PairMapped(vm: Vm, n: Vm, d: nat, x: nat)
    requires Shaped(vm) && Shaped(n) && n.pgd == vm.pgd && d in vm.pgd.live && x + 1 < PAGES
  {
    && MapsOnly(vm, n, d, x) && PteValid(Pte(n, d, x)) && PteValid(Pte(n, d, x + 1))
    && (Pte(vm, d, x) == 0 ==> FrameOf(Pte(n, d, x)) !in vm.user.live)
    && (Pte(vm, d, x + 1) == 0 ==> FrameOf(Pte(n, d, x + 1)) !in vm.user.live)
  }

  lemma FrameTwice(a: Vm, b: Vm, c: Vm, e: Vm, d: nat, x: nat)
    requires Shaped(a) && Shaped(b) && Shaped(c) && Shaped(e) && a.pgd == b.pgd == c.pgd == e.pgd && d in a.pgd.live && x + 1 < PAGES
    requires forall g: nat, y: nat | g in a.pgd.live && y < PAGES :: Pte(b, g, y) == Pte(a, g, y)
    requires a.user == b.user && FrameMapped(b, c, d, x) && FrameMapped(c, e, d, x + 1) && b.user.live <= c.user.live
    ensures PairMapped(a, e, d, x)
  {
    hide Shaped, PteValid, FrameOf, Pte;
  }

  /** Both C handlers map exactly the faulting pair; frames already mapped stay, new ones were not in use. */
  lemma MapPairOk(vm: Vm, d: nat, va: nat)
    requires MemOk(vm) && d in vm.pgd.live && Room(vm)
    ensures var n := MapPair(vm, d, va); MemOk(n) && SameProcs(vm, n) && PairMapped(vm, n, d, EvenPage(Vpn2(va)))
  {
    hide DirsOk, TablesOk, FramesOk, NewPage, Alloc, PteValid, EvenPage, Vpn2, PgdIndex, PtIndex, Pte, EnsureTable, EnsureFrame, FrameMapped, PairMapped;
    var i, j, x := PgdIndex(va), PtIndex(va), EvenPage(Vpn2(va));
    WalkIsPage(va);
    EnsureTableOk(vm, d, i);
    var v1 := EnsureTable(vm, d, i);
    var t := v1.dirs[d][i];
    EnsureFrameOk(v1, d, i, j);
    var v2 := EnsureFrame(v1, t, j);
    EnsureFrameOk(v2, d, i, j + 1);
    assert x == i * NUM_ENTRY + j;
    FrameTwice(vm, v1, v2, EnsureFrame(v2, t, j + 1), d, x);
  }
}
