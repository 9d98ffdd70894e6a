/**
 Virtual memory over every run of spawns, switches, frees and faults on both
 paths: isolation, a truthful TLB, and exactly when the TLB stays truthful.
 */
module MemoryRuns {
  import opened Wrappers
  import opened PageAllocator
  import opened PageTables
  import opened VirtualMemory
  import opened MemoryInvariant
  import opened Tlb
  import opened ProcessMemory

  datatype Event =
    | DoSpawn
    | DoSwitch(pid: nat)
    | DoFree(pid: nat)
    | FastMiss(va: nat, pteBase: nat, slot: nat)
    | SlowMiss(va: nat, slot: nat)

  /** The hardware enters the assembly path only when no entry matches, and picks random slots above the wired ones. */
  ghost predicate Enabled(vm: Vm, e: Event) {
    && Shaped(vm)
    && match e
       case DoSpawn => |vm.procs| < MAX_PROCS
       case DoSwitch(pid) => pid in vm.procs
       case DoFree(pid) => pid in vm.procs
       case FastMiss(va, _, slot) =>
         vm.current in vm.procs && va < VA_LIMIT && WIRED <= slot < TLB_SIZE && Probe(vm.tlb, Vpn2(va), vm.asid, 0).None?
       case SlowMiss(va, slot) =>
         vm.current in vm.procs && va < VA_LIMIT && WIRED <= slot < TLB_SIZE && Room(vm)
  }

  function Step(vm: Vm, e: Event): Vm
    requires Enabled(vm, e)
  {
    match e
    case DoSpawn => Spawn(vm)
    case DoSwitch(pid) => Switch(vm, pid)
    case DoFree(pid) => FreeProc(vm, pid)
    case FastMiss(va, pteBase, slot) => FastRefill(vm, vm.procs[vm.current], va, pteBase, slot)
    case SlowMiss(va, slot) => SlowRefill(vm, vm.procs[vm.current], va, slot)
  }

  lemma OnlyTlb(vm: Vm, n: Vm)
    requires MemOk(vm) && n == vm.(tlb := n.tlb, asid := n.asid, current := n.current)
    ensures MemOk(n) && forall d: nat, x: nat | d in vm.pgd.live && x < PAGES :: Pte(n, d, x) == Pte(vm, d, x)
  {
    hide Books, Total, Pack, FrameOf;
  }

  /** The fault at `va` is over: the faulting pair is mapped, by frames not in use before where it was not
      mapped, no other page of anyone differs, the TLB translates the address as the tables do, a store as
      a load, and no other slot of it differs. */
  ghost predicate Served(vm: Vm, n: Vm, va: nat) {
    && Shaped(vm) && Shaped(n) && n.procs == vm.procs && n.pgd == vm.pgd && n.current == vm.current && vm.current in vm.procs && n.nextPid == vm.nextPid
    && PairMapped(vm, n, vm.procs[vm.current], EvenPage(Vpn2(va)))
    && Lookup(n, va) == Translate(n, vm.current, va) && Lookup(n, va).Some? && StoreTo(n, va) == Lookup(n, va)
    && n.asid == vm.asid && exists slot :: OneSlot(vm.tlb, n.tlb, slot)
  }

  /** The C path serves the fault, so the same one cannot come back. */
  lemma SlowRefillInv(vm: Vm, va: nat, slot: nat)
    requires Inv(vm) && Enabled(vm, SlowMiss(va, slot))
    ensures Inv(Step(vm, SlowMiss(va, slot))) && Served(vm, Step(vm, SlowMiss(va, slot)), va)
  {
    hide DirsOk, TablesOk, FramesOk, TlbOk, Lookup, NewPage, Alloc, PteValid, FrameOf, Pte, MapPair, Load, Vpn2, EvenPage, PageNo, Shaped, MapsOnly;
    var d := vm.procs[vm.current];
    CurrentLive(vm);
    MapPairOk(vm, d, va);
    var m := MapPair(vm, d, va);
    TlbKept(vm, m, d, EvenPage(Vpn2(va)));
    LoadOk(m, va, slot);
    var n := Load(m, d, va, slot);
    OnlyTlb(m, n);
    HalfOfPair(va);
    SameMapping(vm, m, n, d, EvenPage(Vpn2(va)));
    StoresAsLoads(m, n, va);
  }

  /** What the tables hold: nothing, or a page that user code may write, cached, in its own address space alone. */
  ghost predicate UserPage(pte: nat) {
    pte == 0 || (PteValid(pte) && Writable(pte) && !Global(pte) && CacheAttr(pte) == 2)
  }

  ghost predicate UserPages(vm: Vm) {
    Shaped(vm) && forall t, j | t in vm.pt.live && 0 <= j < NUM_ENTRY :: UserPage(vm.tables[t][j])
  }

  lemma EntriesProper(vm: Vm)
    requires MemOk(vm)
    ensures UserPages(vm)
  {
    hide DirsOk, TablesOk, PlacesOk, Pack, PteValid, Writable, Global, CacheAttr, FrameOf;
    forall t, j | t in vm.pt.live && 0 <= j < NUM_ENTRY
      ensures UserPage(vm.tables[t][j])
    {
      PackFields(FrameOf(vm.tables[t][j]));
      assert vm.tables[t][j] == 0 || MapsFrame(vm, t, j, FrameOf(vm.tables[t][j]));
    }
  }

  lemma PteProper(vm: Vm, d: nat, x: nat)
    requires UserPages(vm) && d in vm.pgd.live && x < PAGES
    ensures UserPage(Pte(vm, d, x))
  {
    hide UserPage;
  }

  /** A half that is what a table holds is writable where it is valid. */
  lemma StoresAsLoads(m: Vm, n: Vm, va: nat)
    requires MemOk(m) && m.current in m.procs && m.procs[m.current] in m.pgd.live
    requires Half(n, va) == Some(Pte(m, m.procs[m.current], PageNo(va)))
    ensures StoreTo(n, va) == Lookup(n, va)
  {
    hide MemOk, Shaped, Pte, FrameOf, Global, CacheAttr, UserPages, Probe, Vpn2;
    EntriesProper(m);
    PteProper(m, m.procs[m.current], PageNo(va));
    ZeroInvalid();
  }

  lemma SameMapping(vm: Vm, m: Vm, n: Vm, d: nat, x: nat)
    requires Shaped(vm) && Shaped(m) && Shaped(n) && m.pgd == vm.pgd == n.pgd && d in vm.pgd.live && x + 1 < PAGES
    requires PairMapped(vm, m, d, x)
    requires forall e: nat, y: nat | e in m.pgd.live && y < PAGES :: Pte(n, e, y) == Pte(m, e, y)
    ensures PairMapped(vm, n, d, x)
  {
    hide Shaped, Pte, PteValid, FrameOf;
  }

  lemma CurrentLive(vm: Vm)
    requires Inv(vm) && vm.current in vm.procs
    ensures vm.procs[vm.current] in vm.pgd.live && 0 < vm.current
  {
    hide DirsOk, TablesOk, FramesOk, TlbOk;
  }

  /** The assembly path: the address now translates in the TLB exactly as in the tables. */
  lemma FastRefillInv(vm: Vm, va: nat, pteBase: nat, slot: nat)
    requires Inv(vm) && Enabled(vm, FastMiss(va, pteBase, slot))
    ensures var n := Step(vm, FastMiss(va, pteBase, slot));
            && Inv(n) && n.procs == vm.procs && Lookup(n, va) == Translate(n, vm.current, va) == Translate(vm, vm.current, va)
            && StoreTo(n, va) == Lookup(n, va) && OneSlot(vm.tlb, n.tlb, slot) && n == vm.(tlb := n.tlb)
  {
    hide DirsOk, TablesOk, FramesOk, TlbOk, Lookup, PteValid, FrameOf, Pte, Vpn2, Shaped, PgdIndex, PtIndex, AsmPgdOffset, AsmPtOffset, PageNo;
    CurrentLive(vm);
    FastRefillOk(vm, va, pteBase, slot);
    OnlyTlb(vm, Step(vm, FastMiss(va, pteBase, slot)));
    StoresAsLoads(vm, Step(vm, FastMiss(va, pteBase, slot)), va);
  }

  lemma SwitchInv(vm: Vm, pid: nat)
    requires Inv(vm) && pid in vm.procs
    ensures Inv(Switch(vm, pid))
  {
    hide TablesOk, FramesOk, PteValid, Pte, Books, Total;
    var n := Switch(vm, pid);
    OnlyTlb(vm, n);
    forall s | s in n.tlb && n.tlb[s].owner in n.procs
      ensures Agrees(n, n.tlb[s], n.procs[n.tlb[s].owner])
    {
      assert Agrees(vm, vm.tlb[s], vm.procs[vm.tlb[s].owner]);
    }
  }

  lemma StepInv(vm: Vm, e: Event)
    requires Inv(vm) && Enabled(vm, e)
    ensures Inv(Step(vm, e))
  {
    hide Inv, Spawn, Switch, FreeProc, FastRefill, SlowRefill, Shaped, Lookup, Probe, Translate, PairMapped;
    match e
    case DoSpawn => SpawnInv(vm);
    case DoSwitch(pid) => SwitchInv(vm, pid);
    case DoFree(pid) => FreeProcInv(vm, pid);
    case FastMiss(va, pteBase, slot) => FastRefillInv(vm, va, pteBase, slot);
    case SlowMiss(va, slot) => SlowRefillInv(vm, va, slot);
  }

  ghost predicate RunEnabled(vm: Vm, es: seq<Event>)
    decreases |es|
  {
    es == [] || (Enabled(vm, es[0]) && RunEnabled(Step(vm, es[0]), es[1..]))
  }

  function Run(vm: Vm, es: seq<Event>): Vm
    requires RunEnabled(vm, es)
    decreases |es|
  {
    if es == [] then vm else Run(Step(vm, es[0]), es[1..])
  }

  lemma {:induction false} RunAppend(vm: Vm, a: seq<Event>, b: seq<Event>)
    requires RunEnabled(vm, a) && RunEnabled(Run(vm, a), b)
    ensures RunEnabled(vm, a + b) && Run(vm, a + b) == Run(Run(vm, a), b)
    decreases |a|
  {
    hide Enabled, Step;
    if a == [] {
      assert a + b == b;
    } else {
      RunAppend(Step(vm, a[0]), a[1..], b);
      assert (a + b)[1..] == a[1..] + b;
    }
  }

  lemma EmptyRun(vm: Vm)
    ensures RunEnabled(vm, []) && Run(vm, []) == vm
  {
  }

  lemma RunCons(vm: Vm, e: Event, es: seq<Event>)
    requires Enabled(vm, e) && RunEnabled(Step(vm, e), es)
    ensures RunEnabled(vm, [e] + es) && Run(vm, [e] + es) == Run(Step(vm, e), es)
  {
    hide Enabled, Step;
    var run := [e] + es;
    assert run[0] == e && run[1..] == es;
  }

  lemma RunTwo(vm: Vm, a: Event, b: Event)
    requires Enabled(vm, a) && Enabled(Step(vm, a), b)
    ensures RunEnabled(vm, [a, b]) && Run(vm, [a, b]) == Step(Step(vm, a), b)
  {
    hide Enabled, Step, RunEnabled, Run;
    EmptyRun(Step(Step(vm, a), b));
    RunCons(Step(vm, a), b, []);
    RunCons(vm, a, [b] + []);
    assert [a] + ([b] + []) == [a, b];
  }

  lemma {:induction false} RunInv(vm: Vm, es: seq<Event>)
    requires Inv(vm) && RunEnabled(vm, es)
    ensures Inv(Run(vm, es))
    decreases |es|
  {
    hide Inv, Step, Enabled;
    if es == [] {
    } else {
      StepInv(vm, es[0]);
      RunInv(Step(vm, es[0]), es[1..]);
    }
  }

  lemma EmptyBooks(start: nat, size: nat)
    requires 0 < size && start % size == 0
    ensures Books(Ctrl(size, start, [], {}, {}), start, size) && Total(Ctrl(size, start, [], {}, {})) == 0
  {
  }

  lemma BootInv()
    ensures Inv(Boot())
  {
    hide Pack, FrameOf, Books, Total, Alloc, NewPage;
    EmptyBooks(USER_START, PAGE);
    EmptyBooks(PT_START, TABLE_SIZE);
    EmptyBooks(PGD_START, TABLE_SIZE);
    AllocBooks(Ctrl(TABLE_SIZE, PT_START, [], {}, {}), PT_START, TABLE_SIZE);
    SizeKept(Ctrl(TABLE_SIZE, PT_START, [], {}, {}));
  }

  lemma SizeKept(c: Ctrl)
    ensures Alloc(c).size == c.size
  {
  }

  // ----- what the invariant means -----

  /** Two pages do not map the same frame. */
  ghost predicate Apart(vm: Vm, p: nat, x: nat, q: nat, y: nat)
    requires Shaped(vm) && p in vm.procs && q in vm.procs && x < PAGES && y < PAGES
  {
    var a, b := Pte(vm, vm.procs[p], x), Pte(vm, vm.procs[q], y);
    PteValid(a) && PteValid(b) ==> FrameOf(a) != FrameOf(b)
  }

  lemma NoSharing(vm: Vm, p: nat, x: nat, q: nat, y: nat)
    requires Inv(vm) && p in vm.procs && q in vm.procs && x < PAGES && y < PAGES && (p != q || x != y)
    ensures Apart(vm, p, x, q, y)
  {
    hide Books, Total, Pack, FrameOf, PteValid;
    var d, e := vm.procs[p], vm.procs[q];
    var t, u := vm.dirs[d][x / NUM_ENTRY], vm.dirs[e][y / NUM_ENTRY];
    ZeroInvalid();
    ZeroOrValid(vm, t, x % NUM_ENTRY);
    ZeroOrValid(vm, u, y % NUM_ENTRY);
    if PteValid(vm.tables[t][x % NUM_ENTRY]) && PteValid(vm.tables[u][y % NUM_ENTRY]) {
      assert MapsFrame(vm, t, x % NUM_ENTRY, FrameOf(vm.tables[t][x % NUM_ENTRY]));
      assert MapsFrame(vm, u, y % NUM_ENTRY, FrameOf(vm.tables[u][y % NUM_ENTRY]));
      if t == u {
        assert Place(d, x / NUM_ENTRY) == Place(e, y / NUM_ENTRY);
      }
    }
  }

  ghost predicate Isolated(vm: Vm) {
    && Shaped(vm) && vm.empty in vm.pt.live
    && (forall p, q, x: nat, y: nat | p in vm.procs && q in vm.procs && x < PAGES && y < PAGES && (p != q || x != y) :: Apart(vm, p, x, q, y))
    && (forall p, q | p in vm.procs && q in vm.procs && p != q :: vm.procs[p] != vm.procs[q])
    && (forall j | 0 <= j < NUM_ENTRY :: vm.tables[vm.empty][j] == 0)
  }

  /** Each allocator has issued its live, listed and dropped pages, and the page directories never reach
      the region of the page tables. */
  ghost predicate Conserved(vm: Vm) {
    && vm.user.next == USER_START + PAGE * Total(vm.user)
    && vm.pt.next == PT_START + TABLE_SIZE * Total(vm.pt)
    && vm.pgd.next == PGD_START + TABLE_SIZE * Total(vm.pgd) < PT_START
  }

  lemma InvIsolates(vm: Vm)
    requires Inv(vm)
    ensures Isolated(vm)
  {
    hide Books, Total, FramesOk, TlbOk, Apart;
    forall p, q, x: nat, y: nat | p in vm.procs && q in vm.procs && x < PAGES && y < PAGES && (p != q || x != y)
      ensures Apart(vm, p, x, q, y)
    {
      NoSharing(vm, p, x, q, y);
    }
  }

  lemma InvConserves(vm: Vm)
    requires Inv(vm)
    ensures Conserved(vm)
  {
    hide Shaped, TablesOk, FramesOk, TlbOk;
  }

  lemma InvProper(vm: Vm)
    requires Inv(vm)
    ensures UserPages(vm)
  {
    hide Shaped, DirsOk, TablesOk, FramesOk, TlbOk, UserPages;
    EntriesProper(vm);
  }

  /** Isolation and conservation, in every reachable state: no frame stands behind two pages, no table
      and no directory is shared, the shared empty table is all zero, every page that is mapped is one user
      code may write, and every allocator has issued exactly its live, listed and dropped pages. */
  lemma MemoryOverRuns(es: seq<Event>)
    requires RunEnabled(Boot(), es)
    ensures Inv(Run(Boot(), es)) && Isolated(Run(Boot(), es)) && Conserved(Run(Boot(), es)) && UserPages(Run(Boot(), es))
  {
    hide Inv, Isolated, Conserved, UserPages, Enabled, Step;
    BootInv();
    RunInv(Boot(), es);
    InvIsolates(Run(Boot(), es));
    InvConserves(Run(Boot(), es));
    InvProper(Run(Boot(), es));
  }

  // ----- what each event leaves alone -----

  /** The processes that live through it keep their directories. */
  ghost predicate SameDirs(vm: Vm, n: Vm) {
    forall p | p in vm.procs && p in n.procs :: n.procs[p] == vm.procs[p]
  }

  /** Which processes there are, which runs, and what the TLB holds: only a switch changes the running process and the
      ASID, only a fault the TLB, and that in one slot. */
  ghost predicate Frame(vm: Vm, n: Vm, e: Event) {
    && n.current == (if e.DoSwitch? then e.pid else vm.current)
    && n.asid == (if e.DoSwitch? then e.pid % 256 else vm.asid)
    && n.nextPid == vm.nextPid + (if e.DoSpawn? then 1 else 0)
    && n.procs.Keys == vm.procs.Keys + (if e.DoSpawn? then {vm.nextPid} else {}) - (if e.DoFree? then {e.pid} else {})
    && SameDirs(vm, n) && n.empty == vm.empty
    && (if e.FastMiss? || e.SlowMiss? then exists slot :: OneSlot(vm.tlb, n.tlb, slot) else n.tlb == vm.tlb)
    && (!e.SlowMiss? && !e.DoFree? ==> n.user == vm.user && n.pt == vm.pt)
    && (!e.DoSpawn? && !e.DoFree? ==> n.pgd == vm.pgd)
  }

  lemma EmptyStays(vm: Vm, d: nat, va: nat, slot: nat)
    requires Shaped(vm) && d in vm.pgd.live
    ensures SlowRefill(vm, d, va, slot).empty == vm.empty
  {
    hide Shaped, PgdIndex, PtIndex, Probe;
    MapPairShaped(vm, d, va);
    EnsureTableShaped(vm, d, PgdIndex(va));
    var v1 := EnsureTable(vm, d, PgdIndex(va));
    EnsureFrameShaped(v1, v1.dirs[d][PgdIndex(va)], PtIndex(va));
  }

  lemma SpawnFrame(vm: Vm)
    requires Inv(vm) && Enabled(vm, DoSpawn)
    ensures Frame(vm, Step(vm, DoSpawn), DoSpawn)
  {
    hide Shaped, DirsOk, TablesOk, FramesOk, TlbOk, Alloc, NewPage, Frame, Spawn;
    FreshDir(vm);
    SpawnFields(vm);
  }

  lemma SpawnFields(vm: Vm)
    requires vm.nextPid !in vm.procs
    ensures Frame(vm, Spawn(vm), DoSpawn)
  {
    hide Alloc, NewPage, OneSlot;
  }

  lemma SwitchFrame(vm: Vm, pid: nat)
    requires Enabled(vm, DoSwitch(pid))
    ensures Frame(vm, Step(vm, DoSwitch(pid)), DoSwitch(pid))
  {
    hide Shaped;
  }

  lemma FreeFrame(vm: Vm, pid: nat)
    requires Enabled(vm, DoFree(pid))
    ensures Frame(vm, Step(vm, DoFree(pid)), DoFree(pid))
  {
    hide Shaped, FreeTables, Free, KeptTables, KeptFrames;
  }

  lemma FastFrame(vm: Vm, e: Event)
    requires Inv(vm) && Enabled(vm, e) && e.FastMiss?
    ensures Frame(vm, Step(vm, e), e)
  {
    hide Inv, Enabled, Step, Shaped, Lookup, Translate, StoreTo, OneSlot;
    FastRefillInv(vm, e.va, e.pteBase, e.slot);
    assert OneSlot(vm.tlb, Step(vm, e).tlb, e.slot);
  }

  lemma SlowFrame(vm: Vm, e: Event)
    requires Inv(vm) && Enabled(vm, e) && e.SlowMiss?
    ensures Frame(vm, Step(vm, e), e)
  {
    hide Inv, Shaped, SlowRefill, Lookup, Translate, StoreTo, OneSlot, PairMapped, Room;
    SlowRefillInv(vm, e.va, e.slot);
    CurrentLive(vm);
    EmptyStays(vm, vm.procs[vm.current], e.va, e.slot);
  }

  lemma StepFrame(vm: Vm, e: Event)
    requires Inv(vm) && Enabled(vm, e)
    ensures Frame(vm, Step(vm, e), e)
  {
    hide Inv, Enabled, Step, Frame;
    match e
    case DoSpawn => SpawnFrame(vm);
    case DoSwitch(pid) => SwitchFrame(vm, pid);
    case DoFree(pid) => FreeFrame(vm, pid);
    case FastMiss(_, _, _) => FastFrame(vm, e);
    case SlowMiss(_, _) => SlowFrame(vm, e);
  }
}
