/**
 The page tables' region ends where the kernel's own pages begin, after 1920
 tables, and nothing checks (mm/memory.c:18-25, 70-81, 139-157). Which step
 passes the end, and in which runs one does.
 */
module TableRoom {
  import PageAllocator
  import opened PageTables
  import opened VirtualMemory
  import opened MemoryInvariant
  import opened ProcessMemory
  import opened MemoryRuns

  const KERNEL_PAGE_START: nat := 0xffff_ffff_a200_0000
  const MAX_TABLES: nat := 1920

  /** A fault in a region without a table, with no freed table listed and the next one to issue at the end. */
  predicate NoRoom(vm: Vm, e: Event)
    requires Enabled(vm, e)
  {
    && e.SlowMiss? && vm.dirs[vm.procs[vm.current]][PgdIndex(e.va)] == vm.empty
    && vm.pt.free == [] && vm.pt.next >= KERNEL_PAGE_START
  }

  /** do_page_fault touches no table allocator. */
  lemma MapPairPt(vm: Vm, d: nat, va: nat)
    requires Shaped(vm) && d in vm.pgd.live
    ensures MapPair(vm, d, va).pt == EnsureTable(vm, d, PgdIndex(va)).pt
  {
    hide Shaped, EnsureTable, EnsureFrame, PgdIndex, PtIndex;
    EnsureTableShaped(vm, d, PgdIndex(va));
    var v1 := EnsureTable(vm, d, PgdIndex(va));
    var t := v1.dirs[d][PgdIndex(va)];
    EnsureFrameShaped(v1, t, PtIndex(va));
    EnsureFrameShaped(EnsureFrame(v1, t, PtIndex(va)), t, PtIndex(va) + 1);
  }

  /** Tables are issued at multiples of their size, so one that starts below the end ends there at the latest. */
  lemma TableFits(c: PageAllocator.Ctrl)
    requires Books(c, PT_START, TABLE_SIZE)
    ensures c.next < KERNEL_PAGE_START <==> c.next + TABLE_SIZE <= KERNEL_PAGE_START
  {
    hide PageAllocator.Valid, PageAllocator.Total;
  }

  lemma EnsureTableBelow(vm: Vm, d: nat, i: nat)
    requires MemOk(vm) && d in vm.pgd.live && i < NUM_ENTRY && vm.pt.next <= KERNEL_PAGE_START
    ensures EnsureTable(vm, d, i).pt.next <= KERNEL_PAGE_START <==>
              vm.dirs[d][i] != vm.empty || vm.pt.free != [] || vm.pt.next < KERNEL_PAGE_START
  {
    hide Books, TablesOk, FramesOk;
    MemBooks(vm);
    TableFits(vm.pt);
  }

  lemma CurrentDir(vm: Vm)
    requires Shaped(vm) && vm.current in vm.procs
    ensures vm.procs[vm.current] in vm.pgd.live
  {
  }

  /** Only a fault issues a table, and none is ever taken back. */
  lemma StepIssues(vm: Vm, e: Event)
    requires Enabled(vm, e)
    ensures vm.pt.next <= Step(vm, e).pt.next && (!e.SlowMiss? ==> Step(vm, e).pt.next == vm.pt.next)
    ensures e.SlowMiss? ==> Step(vm, e).pt == EnsureTable(vm, vm.procs[vm.current], PgdIndex(e.va)).pt
  {
    hide Shaped, PgdIndex, PtIndex, AsmPgdOffset, AsmPtOffset, MapPair;
    if e.SlowMiss? {
      CurrentDir(vm);
      MapPairShaped(vm, vm.procs[vm.current], e.va);
      MapPairPt(vm, vm.procs[vm.current], e.va);
    }
  }

  /** A step passes the end of the region if and only if it is a fault of that kind; all 1920 tables are then
      live or dropped. */
  lemma StepBelowExact(vm: Vm, e: Event)
    requires Inv(vm) && Enabled(vm, e) && vm.pt.next <= KERNEL_PAGE_START
    ensures Step(vm, e).pt.next <= KERNEL_PAGE_START <==> !NoRoom(vm, e)
    ensures NoRoom(vm, e) ==> |vm.pt.live| + |vm.pt.dropped| == MAX_TABLES
  {
    hide DirsOk, TablesOk, FramesOk, TlbOk, Step, EnsureTable, PgdIndex;
    StepIssues(vm, e);
    MemBooks(vm);
    if e.SlowMiss? {
      CurrentLive(vm);
      EnsureTableBelow(vm, vm.procs[vm.current], PgdIndex(e.va));
    }
  }

  /** No step of the run is such a fault. */
  ghost predicate AlwaysRoom(vm: Vm, es: seq<Event>)
    requires RunEnabled(vm, es)
    decreases |es|
  {
    es == [] || (!NoRoom(vm, es[0]) && AlwaysRoom(Step(vm, es[0]), es[1..]))
  }

  lemma {:induction false} RunIssues(vm: Vm, es: seq<Event>)
    requires RunEnabled(vm, es)
    ensures vm.pt.next <= Run(vm, es).pt.next
    decreases |es|
  {
    hide Enabled, Step;
    if es == [] {
    } else {
      StepIssues(vm, es[0]);
      RunIssues(Step(vm, es[0]), es[1..]);
    }
  }

  /** Over every run the page tables stay below the kernel's pages if and only if no step finds the region full. */
  lemma {:induction false} RunBelowExact(vm: Vm, es: seq<Event>)
    requires Inv(vm) && RunEnabled(vm, es) && vm.pt.next <= KERNEL_PAGE_START
    ensures Run(vm, es).pt.next <= KERNEL_PAGE_START <==> AlwaysRoom(vm, es)
    decreases |es|
  {
    hide Inv, Enabled, Step, NoRoom;
    if es == [] {
    } else {
      var n := Step(vm, es[0]);
      StepInv(vm, es[0]);
      StepBelowExact(vm, es[0]);
      if NoRoom(vm, es[0]) {
        RunIssues(n, es[1..]);
      } else {
        RunBelowExact(n, es[1..]);
      }
    }
  }

  lemma BootBelow()
    ensures Boot().pt.next <= KERNEL_PAGE_START
  {
  }

  /** The same of every run from the start. */
  lemma TablesBelowExactly(es: seq<Event>)
    requires RunEnabled(Boot(), es)
    ensures Run(Boot(), es).pt.next <= KERNEL_PAGE_START <==> AlwaysRoom(Boot(), es)
  {
    hide Inv, Boot, RunEnabled, Run, AlwaysRoom;
    BootInv();
    BootBelow();
    RunBelowExact(Boot(), es);
  }
}
