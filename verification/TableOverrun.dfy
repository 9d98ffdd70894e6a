/**
 Two runs that meet the full region of page tables. Two processes that touch
 an address in each of their 4 MB regions need 2049 tables. Two that do so one
 after the other never have more than 1025, but the list of freed pages keeps
 124 of the first one's and the others are issued no more (mm/memory.c:70-93,
 139-157).
 */
module TableOverrun {
  import PageAllocator
  import opened PageTables
  import opened VirtualMemory
  import opened MemoryInvariant
  import opened ProcessMemory
  import opened MemoryRuns
  import opened TableRoom

  const REGION: nat := 0x40_0000

  lemma RegionIndex(g: nat)
    requires g < NUM_ENTRY
    ensures PgdIndex(g * REGION) == g && g * REGION < VA_LIMIT
  {
    assert Splits(g * REGION, 0, g, 0, 0);
    SplitC(g * REGION, 0, g, 0, 0);
  }

  predicate Untouched(dir: seq<nat>, empty: nat, g: nat) {
    |dir| == NUM_ENTRY && forall i | g <= i < NUM_ENTRY :: dir[i] == empty
  }

  /** Tables that no later request gets, unless a live one is freed: live and dropped. */
  ghost function Taken(c: PageAllocator.Ctrl): nat {
    |c.live| + |c.dropped|
  }

  /** The regions from `g` on are untouched by the running process, `m` tables are taken, and at most 2k frames
      were ever issued. */
  ghost predicate Sparse(vm: Vm, g: nat, m: nat, k: nat) {
    && Inv(vm) && vm.current in vm.procs && m <= Taken(vm.pt) && vm.user.next <= USER_START + 2 * PAGE * k
    && vm.procs[vm.current] in vm.dirs && Untouched(vm.dirs[vm.procs[vm.current]], vm.empty, g)
  }

  /** Process `q` has touched nothing. */
  ghost predicate Blank(vm: Vm, q: nat) {
    && q in vm.procs && vm.procs[q] in vm.dirs && Untouched(vm.dirs[vm.procs[q]], vm.empty, 0)
  }

  // ----- one fault in an untouched region -----

  lemma TableUses(vm: Vm, d: nat, g: nat)
    requires MemOk(vm) && d in vm.pgd.live && g < NUM_ENTRY && Untouched(vm.dirs[d], vm.empty, g)
    ensures var n := EnsureTable(vm, d, g);
            && Shaped(n) && n.pgd == vm.pgd && n.user == vm.user && n.empty == vm.empty
            && |n.pt.live| == |vm.pt.live| + 1 && n.pt.dropped == vm.pt.dropped
            && d in n.dirs && n.dirs == vm.dirs[d := n.dirs[d]] && Untouched(n.dirs[d], n.empty, g + 1)
            && |n.dirs[d]| == NUM_ENTRY && n.dirs[d][g] in n.pt.live
  {
    hide DirsOk, TablesOk, FramesOk, PageAllocator.NewPage, PageAllocator.Alloc;
    FreshTable(vm);
    NothingDropped(vm.pt);
    EnsureTableShaped(vm, d, g);
  }

  lemma NothingDropped(c: PageAllocator.Ctrl)
    ensures PageAllocator.Alloc(c).dropped == c.dropped
  {
  }

  lemma FrameUses(vm: Vm, t: nat, j: nat)
    requires Shaped(vm) && t in vm.pt.live && j < NUM_ENTRY && vm.user.size == PAGE
    ensures var n := EnsureFrame(vm, t, j);
            && Shaped(n) && n.pt == vm.pt && n.pgd == vm.pgd && n.dirs == vm.dirs && n.empty == vm.empty
            && n.user.size == PAGE && n.user.next <= vm.user.next + PAGE
  {
    hide Shaped, PteValid, Pack;
    EnsureFrameShaped(vm, t, j);
  }

  /** A fault in an untouched region takes one more table and at most two frames. */
  lemma PairUses(vm: Vm, d: nat, va: nat)
    requires MemOk(vm) && d in vm.pgd.live && d in vm.dirs && Untouched(vm.dirs[d], vm.empty, PgdIndex(va))
    ensures var n := MapPair(vm, d, va);
            && |n.pt.live| == |vm.pt.live| + 1 && n.pt.dropped == vm.pt.dropped && n.empty == vm.empty
            && d in n.dirs && n.dirs == vm.dirs[d := n.dirs[d]] && Untouched(n.dirs[d], n.empty, PgdIndex(va) + 1)
            && n.user.next <= vm.user.next + 2 * PAGE
  {
    hide DirsOk, TablesOk, FramesOk, EnsureTable, EnsureFrame, PgdIndex, PtIndex, Shaped, Untouched;
    MemBooks(vm);
    var g := PgdIndex(va);
    TableUses(vm, d, g);
    var v1 := EnsureTable(vm, d, g);
    var t := v1.dirs[d][g];
    FrameUses(v1, t, PtIndex(va));
    FrameUses(EnsureFrame(v1, t, PtIndex(va)), t, PtIndex(va) + 1);
  }

  lemma PagesNear(c: PageAllocator.Ctrl)
    requires PageAllocator.Valid(c)
    ensures PageAllocator.NewPage(c) <= c.next && PageAllocator.NewPage(PageAllocator.Alloc(c)) <= c.next + c.size
  {
    assert forall i | 0 <= i < |c.free| :: c.free[i] in c.free;
  }

  lemma UserRoom(vm: Vm, k: nat)
    requires MemOk(vm) && vm.user.next <= USER_START + 2 * PAGE * k && k < 4 * NUM_ENTRY
    ensures Room(vm)
  {
    hide MemOk, PageAllocator.Total, PageAllocator.NewPage, PageAllocator.Alloc;
    MemBooks(vm);
    PagesNear(vm.user);
  }

  /** What a refill leaves of the tables is what MapPair made. */
  lemma RefillKeeps(vm: Vm, d: nat, va: nat, slot: nat)
    requires Shaped(vm) && d in vm.pgd.live
    ensures var m, n := MapPair(vm, d, va), SlowRefill(vm, d, va, slot);
            n.pt == m.pt && n.user == m.user && n.dirs == m.dirs && n.empty == m.empty
  {
    hide Shaped, MapPair, PgdIndex, PtIndex;
    MapPairShaped(vm, d, va);
  }

  lemma OtherDir(vm: Vm, p: nat, q: nat)
    requires Inv(vm) && p in vm.procs && q in vm.procs && p != q
    ensures vm.procs[p] != vm.procs[q]
  {
    hide Shaped, TablesOk, FramesOk, TlbOk;
  }

  /** The running process faults in its next untouched region, and nobody else gets or loses a table. */
  lemma FaultStep(vm: Vm, g: nat, m: nat, k: nat)
    requires Sparse(vm, g, m, k) && g < NUM_ENTRY && k < 4 * NUM_ENTRY
    ensures var e := SlowMiss(g * REGION, WIRED);
            && Enabled(vm, e) && Sparse(Step(vm, e), g + 1, m + 1, k + 1) && SameButTable(vm, Step(vm, e))
  {
    hide Inv, MemOk, Enabled, MapPair, PgdIndex, Shaped, Untouched, PairMapped, Room, SlowRefill;
    FaultEnabled(vm, g, m, k);
    SlowRefillInv(vm, g * REGION, WIRED);
    FaultTakes(vm, g);
  }

  /** One more table is live; the directories differ only in the running process's. */
  ghost predicate SameButTable(vm: Vm, n: Vm) {
    && n.current == vm.current && n.nextPid == vm.nextPid && n.procs == vm.procs && n.empty == vm.empty
    && |n.pt.live| == |vm.pt.live| + 1
    && vm.current in vm.procs && vm.procs[vm.current] in n.dirs
    && n.dirs == vm.dirs[vm.procs[vm.current] := n.dirs[vm.procs[vm.current]]]
  }

  lemma FaultEnabled(vm: Vm, g: nat, m: nat, k: nat)
    requires Sparse(vm, g, m, k) && g < NUM_ENTRY && k < 4 * NUM_ENTRY
    ensures Enabled(vm, SlowMiss(g * REGION, WIRED))
  {
    hide DirsOk, TablesOk, FramesOk, TlbOk, Shaped, Untouched, Room;
    RegionIndex(g);
    UserRoom(vm, k);
  }

  lemma FaultTakes(vm: Vm, g: nat)
    requires Inv(vm) && g < NUM_ENTRY && Enabled(vm, SlowMiss(g * REGION, WIRED))
    requires vm.procs[vm.current] in vm.dirs && Untouched(vm.dirs[vm.procs[vm.current]], vm.empty, g)
    ensures var d, n := vm.procs[vm.current], Step(vm, SlowMiss(g * REGION, WIRED));
            && |n.pt.live| == |vm.pt.live| + 1 && n.pt.dropped == vm.pt.dropped && n.empty == vm.empty
            && d in n.dirs && n.dirs == vm.dirs[d := n.dirs[d]] && Untouched(n.dirs[d], n.empty, g + 1)
            && n.user.next <= vm.user.next + 2 * PAGE
  {
    hide DirsOk, TablesOk, FramesOk, TlbOk, MapPair, SlowRefill, PgdIndex, Shaped, Untouched, Room;
    CurrentLive(vm);
    RegionIndex(g);
    PairUses(vm, vm.procs[vm.current], g * REGION);
    RefillKeeps(vm, vm.procs[vm.current], g * REGION, WIRED);
  }

  lemma BlankStays(vm: Vm, n: Vm, q: nat)
    requires Inv(vm) && SameButTable(vm, n) && Blank(vm, q) && q != vm.current
    ensures Blank(n, q)
  {
    hide Inv, Untouched;
    OtherDir(vm, vm.current, q);
  }

  // ----- a process that touches everything -----

  /** Faults in regions `g` to 1023. */
  function Touch(g: nat): seq<Event>
    decreases NUM_ENTRY - g
  {
    if g >= NUM_ENTRY then [] else [SlowMiss(g * REGION, WIRED)] + Touch(g + 1)
  }

  /** At every point of the run at most `n` tables are live. */
  ghost predicate LiveAtMost(vm: Vm, es: seq<Event>, n: nat)
    requires RunEnabled(vm, es)
    decreases |es|
  {
    |vm.pt.live| <= n && (es == [] || LiveAtMost(Step(vm, es[0]), es[1..], n))
  }

  lemma LiveCons(vm: Vm, e: Event, es: seq<Event>, most: nat)
    requires Enabled(vm, e) && RunEnabled(Step(vm, e), es) && RunEnabled(vm, [e] + es)
    requires |vm.pt.live| <= most && LiveAtMost(Step(vm, e), es, most)
    ensures LiveAtMost(vm, [e] + es, most)
  {
    hide Enabled, Step;
    assert ([e] + es)[1..] == es;
  }

  lemma LiveTwo(vm: Vm, a: Event, b: Event, most: nat)
    requires Enabled(vm, a) && Enabled(Step(vm, a), b)
    requires |vm.pt.live| <= most && |Step(vm, a).pt.live| <= most && |Step(Step(vm, a), b).pt.live| <= most
    ensures RunEnabled(vm, [a, b]) && Run(vm, [a, b]) == Step(Step(vm, a), b) && LiveAtMost(vm, [a, b], most)
  {
    hide Enabled, Step, RunEnabled, Run;
    var v := Step(vm, a);
    EmptyRun(Step(v, b));
    RunCons(v, b, []);
    LiveCons(v, b, [], most);
    RunCons(vm, a, [b] + []);
    LiveCons(vm, a, [b] + [], most);
    assert [a] + ([b] + []) == [a, b];
  }

  lemma {:induction false} LiveAppend(vm: Vm, a: seq<Event>, b: seq<Event>, most: nat)
    requires RunEnabled(vm, a) && RunEnabled(Run(vm, a), b) && RunEnabled(vm, a + b)
    requires LiveAtMost(vm, a, most) && LiveAtMost(Run(vm, a), b, most)
    ensures LiveAtMost(vm, a + b, most)
    decreases |a|
  {
    hide Enabled, Step;
    if a == [] {
      assert a + b == b;
    } else {
      assert (a + b)[1..] == a[1..] + b;
      LiveAppend(Step(vm, a[0]), a[1..], b, most);
    }
  }

  lemma {:induction false} LiveMore(vm: Vm, es: seq<Event>, most: nat, more: nat)
    requires RunEnabled(vm, es) && LiveAtMost(vm, es, most) && most <= more
    ensures LiveAtMost(vm, es, more)
    decreases |es|
  {
    hide Enabled, Step;
    if es == [] {
    } else {
      LiveMore(Step(vm, es[0]), es[1..], most, more);
    }
  }

  /** Joins a run to the one after it. */
  lemma Joined(vm: Vm, a: seq<Event>, b: seq<Event>, most: nat)
    requires RunEnabled(vm, a) && RunEnabled(Run(vm, a), b) && LiveAtMost(vm, a, most) && LiveAtMost(Run(vm, a), b, most)
    ensures RunEnabled(vm, a + b) && Run(vm, a + b) == Run(Run(vm, a), b) && LiveAtMost(vm, a + b, most)
  {
    hide RunEnabled, Run, LiveAtMost;
    RunAppend(vm, a, b);
    LiveAppend(vm, a, b, most);
  }

  /** What a process that touches its regions from `g` on leaves. */
  ghost predicate Touched(vm: Vm, n: Vm, g: nat, m: nat, k: nat)
    requires g <= NUM_ENTRY
  {
    && Sparse(n, NUM_ENTRY, m + (NUM_ENTRY - g), k + (NUM_ENTRY - g))
    && n.nextPid == vm.nextPid && n.procs == vm.procs && n.current == vm.current
    && |n.pt.live| == |vm.pt.live| + (NUM_ENTRY - g)
  }

  lemma {:induction false} TouchAll(vm: Vm, g: nat, m: nat, k: nat, most: nat)
    requires Sparse(vm, g, m, k) && g <= NUM_ENTRY && k + (NUM_ENTRY - g) <= 4 * NUM_ENTRY
    requires |vm.pt.live| + (NUM_ENTRY - g) <= most
    ensures RunEnabled(vm, Touch(g)) && Touched(vm, Run(vm, Touch(g)), g, m, k) && LiveAtMost(vm, Touch(g), most)
    decreases NUM_ENTRY - g
  {
    hide Sparse, Enabled, Step;
    if g == NUM_ENTRY {
      EmptyRun(vm);
    } else {
      FaultStep(vm, g, m, k);
      assert Touch(g)[1..] == Touch(g + 1) && Touch(g)[0] == SlowMiss(g * REGION, WIRED);
      TouchAll(Step(vm, SlowMiss(g * REGION, WIRED)), g + 1, m + 1, k + 1, most);
    }
  }

  lemma {:induction false} TouchKeepsBlank(vm: Vm, g: nat, m: nat, k: nat, q: nat)
    requires Sparse(vm, g, m, k) && g <= NUM_ENTRY && k + (NUM_ENTRY - g) <= 4 * NUM_ENTRY && Blank(vm, q) && q != vm.current
    requires RunEnabled(vm, Touch(g))
    ensures Blank(Run(vm, Touch(g)), q)
    decreases NUM_ENTRY - g
  {
    hide Inv, Blank, Untouched, Enabled, Step;
    if g == NUM_ENTRY {
      EmptyRun(vm);
    } else {
      var e := SlowMiss(g * REGION, WIRED);
      FaultStep(vm, g, m, k);
      BlankStays(vm, Step(vm, e), q);
      assert Touch(g)[1..] == Touch(g + 1) && Touch(g)[0] == e;
      TouchKeepsBlank(Step(vm, e), g + 1, m + 1, k + 1, q);
    }
  }

  lemma StartsUntouched(vm: Vm)
    ensures var n := Switch(Spawn(vm), vm.nextPid);
            && n.procs.Keys == vm.procs.Keys + {vm.nextPid} && n.pt == vm.pt && n.user == vm.user && n.current == vm.nextPid && n.nextPid == vm.nextPid + 1
            && n.procs == Spawn(vm).procs && n.current in n.procs && n.procs[n.current] in n.dirs
            && Untouched(n.dirs[n.procs[n.current]], n.empty, 0)
  {
  }

  lemma InvShaped(vm: Vm)
    requires Inv(vm)
    ensures MemOk(vm) && Shaped(vm)
  {
    hide Shaped, DirsOk, TablesOk, FramesOk, TlbOk;
  }

  lemma SpawnBlank(vm: Vm)
    ensures Blank(Spawn(vm), vm.nextPid) && Spawn(vm).pt == vm.pt && Spawn(vm).user == vm.user && Spawn(vm).nextPid == vm.nextPid + 1
  {
  }

  /** A new process runs with all its regions untouched. */
  lemma StartProcess(vm: Vm, m: nat, k: nat)
    requires Inv(vm) && |vm.procs| < MAX_PROCS && m <= Taken(vm.pt) && vm.user.next <= USER_START + 2 * PAGE * k
    ensures var es := [DoSpawn, DoSwitch(vm.nextPid)];
            && RunEnabled(vm, es) && Sparse(Run(vm, es), 0, m, k) && Run(vm, es) == Switch(Spawn(vm), vm.nextPid)
            && LiveAtMost(vm, es, |vm.pt.live|)
  {
    hide Inv, MemOk, Shaped, Untouched, Blank, Spawn, Switch, RunEnabled, Run, LiveAtMost, Taken, Pte;
    InvShaped(vm);
    SpawnInv(vm);
    InvShaped(Spawn(vm));
    SwitchInv(Spawn(vm), vm.nextPid);
    SpawnBlank(vm);
    StartsUntouched(vm);
    LiveTwo(vm, DoSpawn, DoSwitch(vm.nextPid), |vm.pt.live|);
  }

  lemma PastEnd(vm: Vm)
    requires Inv(vm) && Taken(vm.pt) > MAX_TABLES
    ensures vm.pt.next > KERNEL_PAGE_START
  {
    hide Shaped, TablesOk, FramesOk, TlbOk;
  }

  lemma KeysCount(vm: Vm, ps: set<nat>)
    requires vm.procs.Keys == ps
    ensures |vm.procs| == |ps|
  {
    assert |vm.procs| == |vm.procs.Keys|;
  }

  lemma StartsEmpty()
    ensures var vm := Boot(); |vm.pt.live| == 1 && Taken(vm.pt) == 1 && vm.user.next == USER_START && vm.nextPid == 1 && |vm.procs| == 0
  {
  }

  // ----- two at once -----

  /** The run: two processes, each touching all its regions; then the page tables reach past the start of
      the kernel's pages. */
  lemma TablesOverrun() returns (es: seq<Event>)
    ensures RunEnabled(Boot(), es) && Run(Boot(), es).pt.next > KERNEL_PAGE_START
  {
    hide Inv, Boot, RunEnabled, Run, Touch, Untouched, LiveAtMost, Taken, Spawn;
    BootInv();
    StartsEmpty();
    StartsUntouched(Boot());
    StartProcess(Boot(), 1, 0);
    var a := [DoSpawn, DoSwitch(1)];
    var v1 := Run(Boot(), a);
    TouchAll(v1, 0, 1, 0, |v1.pt.live| + NUM_ENTRY);
    RunAppend(Boot(), a, Touch(0));
    var v2 := Run(v1, Touch(0));
    KeysCount(v2, {1});
    StartProcess(v2, 1 + NUM_ENTRY, NUM_ENTRY);
    var b := [DoSpawn, DoSwitch(v2.nextPid)];
    var v3 := Run(v2, b);
    TouchAll(v3, 0, 1 + NUM_ENTRY, NUM_ENTRY, |v3.pt.live| + NUM_ENTRY);
    RunAppend(v2, b, Touch(0));
    RunAppend(Boot(), a + Touch(0), b + Touch(0));
    PastEnd(Run(v3, Touch(0)));
    es := (a + Touch(0)) + (b + Touch(0));
  }

  // ----- one after the other -----

  /** Starting a process touches nothing of another. */
  lemma StartKeepsBlank(vm: Vm, q: nat)
    requires Inv(vm) && Blank(vm, q)
    ensures Blank(Switch(Spawn(vm), vm.nextPid), q)
  {
    hide DirsOk, TablesOk, FramesOk, TlbOk, Shaped, Untouched, PageAllocator.NewPage, PageAllocator.Alloc;
    InvShaped(vm);
    FreshDir(vm);
    ProcOfInv(vm, q);
  }

  /** With one process left that has touched nothing, the only live table is the shared empty one. */
  lemma OnlyEmptyLive(vm: Vm, q: nat)
    requires Inv(vm) && vm.procs.Keys == {q} && Blank(vm, q)
    ensures vm.pt.live == {vm.empty}
  {
    hide FramesOk, TlbOk, Books, PageAllocator.Total;
    forall t | t in vm.pt.live
      ensures t == vm.empty
    {
      if t in vm.tableAt {
        var d := vm.tableAt[t].table;
        assert d in vm.dirOwner && vm.dirOwner[d] in vm.procs.Keys;
      }
    }
    assert vm.pt.live == {vm.empty};
  }

  lemma FreedPools(vm: Vm, p: nat)
    requires Shaped(vm) && p in vm.procs
    ensures var n := FreeProc(vm, p);
            && n.pt.next == vm.pt.next && n.user.next == vm.user.next && n.dirs == vm.dirs && n.empty == vm.empty
            && n.current == vm.current && n.procs == vm.procs - {p}
  {
    hide Shaped, PageAllocator.Free;
  }

  /** Of all tables issued at most 124 are listed; the others are taken. */
  lemma TakenAfter(vm: Vm, n: Vm)
    requires MemOk(vm) && MemOk(n) && n.pt.next == vm.pt.next
    ensures PageAllocator.Total(vm.pt) <= Taken(n.pt) + PageAllocator.MAX_FREE_PAGE
  {
    hide Shaped, TablesOk, FramesOk;
  }

  /** Process `q` is dispatched and `p`, the only other one, is freed. */
  lemma HandOver(vm: Vm, p: nat, q: nat, m: nat, k: nat)
    requires Inv(vm) && p != q && vm.procs.Keys == {p, q} && Blank(vm, q) && vm.user.next <= USER_START + 2 * PAGE * k
    requires m + PageAllocator.MAX_FREE_PAGE <= Taken(vm.pt) && 0 < |vm.pt.live|
    ensures var es, n := [DoSwitch(q), DoFree(p)], FreeProc(Switch(vm, q), p);
            && RunEnabled(vm, es) && Run(vm, es) == n && Sparse(n, 0, m, k) && |n.pt.live| == 1
            && LiveAtMost(vm, es, |vm.pt.live|)
  {
    hide Inv, MemOk, Shaped, Untouched, FreeProc, RunEnabled, Run, LiveAtMost, Taken;
    SwitchInv(vm, q);
    var v := Switch(vm, q);
    InvShaped(vm);
    InvShaped(v);
    FreeProcInv(v, p);
    FreedPools(v, p);
    var n := FreeProc(v, p);
    InvShaped(n);
    OnlyEmptyLive(n, q);
    TakenAfter(v, n);
    TakenInTotal(vm.pt);
    LiveTwo(vm, DoSwitch(q), DoFree(p), |vm.pt.live|);
  }

  lemma TakenInTotal(c: PageAllocator.Ctrl)
    ensures Taken(c) <= PageAllocator.Total(c)
  {
  }

  lemma FirstSpawn()
    ensures Enabled(Boot(), DoSpawn) && Step(Boot(), DoSpawn) == Spawn(Boot()) && Inv(Spawn(Boot()))
    ensures var n := Spawn(Boot());
            && n.procs.Keys == {1} && |n.procs| == 1 && n.nextPid == 2 && Blank(n, 1) && |n.pt.live| == 1 && Taken(n.pt) == 1
            && |Boot().pt.live| == 1 && n.user.next <= USER_START
  {
    hide Inv, MemOk, Shaped, Blank, Untouched, Boot, Taken, Spawn, Pte;
    BootInv();
    StartsEmpty();
    InvShaped(Boot());
    SpawnInv(Boot());
    SpawnBlank(Boot());
    KeysCount(Spawn(Boot()), {1});
  }

  /** Two processes are spawned, and the second one runs. */
  lemma TwoStart() returns (es: seq<Event>)
    ensures RunEnabled(Boot(), es) && LiveAtMost(Boot(), es, 1)
    ensures var n := Run(Boot(), es);
            && Sparse(n, 0, 1, 0) && Blank(n, 1) && n.procs.Keys == {1, 2} && n.current == 2 && |n.pt.live| == 1
  {
    hide Inv, Shaped, Blank, Untouched, Boot, Enabled, RunEnabled, Run, LiveAtMost, Taken, Spawn, Switch, Step;
    FirstSpawn();
    var v1 := Spawn(Boot());
    StartProcess(v1, 1, 0);
    StartKeepsBlank(v1, 1);
    StartsUntouched(v1);
    var b := [DoSpawn, DoSwitch(2)];
    RunCons(Boot(), DoSpawn, b);
    LiveCons(Boot(), DoSpawn, b, 1);
    es := [DoSpawn] + b;
  }

  /** The run: of two processes the second touches all its regions and is freed, then the first does the same.
      At most 1025 tables are ever live, and the page tables reach past the start of the kernel's pages. */
  lemma OverrunOneByOne() returns (es: seq<Event>)
    ensures RunEnabled(Boot(), es) && LiveAtMost(Boot(), es, 1 + NUM_ENTRY)
    ensures Run(Boot(), es).pt.next > KERNEL_PAGE_START
  {
    hide Inv, Boot, RunEnabled, Run, Touch, Untouched, LiveAtMost, FreeProc, Step, Enabled;
    var a := TwoStart();
    var v1 := Run(Boot(), a);
    TouchAll(v1, 0, 1, 0, 1 + NUM_ENTRY);
    TouchKeepsBlank(v1, 0, 1, 0, 1);
    LiveMore(Boot(), a, 1, 1 + NUM_ENTRY);
    Joined(Boot(), a, Touch(0), 1 + NUM_ENTRY);
    var v2 := Run(v1, Touch(0));
    var m := 1 + NUM_ENTRY - PageAllocator.MAX_FREE_PAGE;
    HandOver(v2, 2, 1, m, NUM_ENTRY);
    var b := [DoSwitch(1), DoFree(2)];
    var v3 := Run(v2, b);
    Joined(Boot(), a + Touch(0), b, 1 + NUM_ENTRY);
    TouchAll(v3, 0, m, NUM_ENTRY, 1 + NUM_ENTRY);
    Joined(Boot(), a + Touch(0) + b, Touch(0), 1 + NUM_ENTRY);
    es := a + Touch(0) + b + Touch(0);
    PastEnd(Run(Boot(), es));
  }
}
