/** Spawning, switching and freeing keep the memory invariant (kernel/sched/sched.c:158-177, 249-288, 364-408). */
module ProcessMemory {
  import opened PageAllocator
  import opened PageTables
  import opened VirtualMemory
  import opened MemoryInvariant

  // ----- free_proc's loops -----

  /** Frame `f` is mapped by one of the first `n` entries of table `t`. */
  predicate InTable(vm: Vm, f: nat, t: nat, n: nat) {
    f in vm.frameAt && vm.frameAt[f].table == t && vm.frameAt[f].index < n
  }

  /** Table `t` is one of the first `n` entries of directory `d`. */
  predicate InDir(vm: Vm, t: nat, d: nat, n: nat) {
    t in vm.tableAt && vm.tableAt[t].table == d && vm.tableAt[t].index < n
  }

  predicate FrameInDir(vm: Vm, f: nat, d: nat, n: nat) {
    f in vm.frameAt && InDir(vm, vm.frameAt[f].table, d, n)
  }

  lemma EntryOfTable(vm: Vm, t: nat, j: nat)
    requires MemOk(vm) && t in vm.pt.live && j < NUM_ENTRY
    ensures PteValid(vm.tables[t][j]) ==> InTable(vm, FrameOf(vm.tables[t][j]), t, j + 1) && !InTable(vm, FrameOf(vm.tables[t][j]), t, j)
    ensures forall f: nat :: InTable(vm, f, t, j + 1) <==> InTable(vm, f, t, j) || (PteValid(vm.tables[t][j]) && f == FrameOf(vm.tables[t][j]))
  {
    hide DirsOk, TablesOk, Pack, FrameOf, PteValid;
    ZeroOrValid(vm, t, j);
    ZeroIsNoPack();
    forall f: nat | InTable(vm, f, t, j + 1) && !InTable(vm, f, t, j)
      ensures PteValid(vm.tables[t][j]) && f == FrameOf(vm.tables[t][j])
    {
      assert vm.tables[t][j] == Pack(f);
      PackExact(f);
    }
  }

  /** The inner loop frees exactly the frames the table maps: each packed entry gives its frame back. */
  lemma {:induction false} FreeFramesExact(vm: Vm, t: nat, user: Ctrl, n: nat)
    requires MemOk(vm) && t in vm.pt.live && n <= NUM_ENTRY && user.size == PAGE && Books(user, USER_START, PAGE)
    requires forall f | InTable(vm, f, t, NUM_ENTRY) :: f in user.live
    ensures var r := FreeFrames(user, vm.tables[t], n);
            Books(r, USER_START, PAGE) && forall f: nat :: f in r.live <==> f in user.live && !InTable(vm, f, t, n)
  {
    hide DirsOk, TablesOk, FramesOk, Books, FrameOf, PteValid;
    if n == 0 {
    } else {
      FreeFramesExact(vm, t, user, n - 1);
      EntryOfTable(vm, t, n - 1);
      var u := FreeFrames(user, vm.tables[t], n - 1);
      var f := FrameOf(vm.tables[t][n - 1]);
      if PteValid(vm.tables[t][n - 1]) {
        assert f in u.live;
        FreeBooks(u, USER_START, PAGE, f);
      }
    }
  }

  /** The frames that the first `n` entries of a table map, in order. */
  function MappedFrames(table: seq<nat>, n: nat): (fs: seq<nat>)
    requires n <= |table|
    ensures forall f | f in fs :: f % PAGE == 0
  {
    if n == 0 then [] else MappedFrames(table, n - 1) + if PteValid(table[n - 1]) then [FrameOf(table[n - 1])] else []
  }

  /** What a list of freed pages keeps of those offered to it. */
  function Kept(pages: seq<nat>): seq<nat> {
    if |pages| <= MAX_FREE_PAGE then pages else pages[..MAX_FREE_PAGE]
  }

  /** The inner loop frees in the order of the entries: the list takes the first frames, until it has 124. */
  lemma {:induction false} FreeFramesOrder(user: Ctrl, table: seq<nat>, n: nat)
    requires n <= |table| && user.size == PAGE && |user.free| <= MAX_FREE_PAGE
    ensures FreeFrames(user, table, n).free == Kept(user.free + MappedFrames(table, n))
  {
    hide PteValid, FrameOf;
    if n == 0 {
      assert user.free + [] == user.free;
    } else {
      FreeFramesOrder(user, table, n - 1);
      var u, all := FreeFrames(user, table, n - 1), user.free + MappedFrames(table, n - 1);
      if PteValid(table[n - 1]) {
        var f := FrameOf(table[n - 1]);
        assert MappedFrames(table, n) == MappedFrames(table, n - 1) + [f];
        assert f in MappedFrames(table, n);
        AlignedBase(u, f);
        assert user.free + MappedFrames(table, n) == all + [f];
      } else {
        assert MappedFrames(table, n) == MappedFrames(table, n - 1);
      }
    }
  }

  lemma {:induction false} FreeTablesExact(vm: Vm, d: nat, n: nat)
    requires MemOk(vm) && d in vm.pgd.live && n <= NUM_ENTRY
    ensures var r := FreeTables(vm, d, n);
            && Books(r.user, USER_START, PAGE) && Books(r.pt, PT_START, TABLE_SIZE)
            && (forall f: nat :: f in r.user.live <==> f in vm.user.live && !FrameInDir(vm, f, d, n))
            && (forall t: nat :: t in r.pt.live <==> t in vm.pt.live && !InDir(vm, t, d, n))
  {
    hide DirsOk, FramesOk, TablesOk, Books, FreeFrames, Free;
    MemBooks(vm);
    if n == 0 {
    } else {
      FreeTablesExact(vm, d, n - 1);
      var p := FreeTables(vm, d, n - 1);
      var t := vm.dirs[d][n - 1];
      EntryOfDir(vm, d, n - 1);
      if t != vm.empty {
        forall f | InTable(vm, f, t, NUM_ENTRY)
          ensures f in p.user.live
        {
          FrameLive(vm, f);
        }
        FreeFramesExact(vm, t, p.user, NUM_ENTRY);
        FreeBooks(p.pt, PT_START, TABLE_SIZE, t);
        forall f: nat
          ensures FrameInDir(vm, f, d, n) <==> FrameInDir(vm, f, d, n - 1) || InTable(vm, f, t, NUM_ENTRY)
        {
          FrameLive(vm, f);
        }
      }
    }
  }

  lemma MemBooks(vm: Vm)
    requires MemOk(vm)
    ensures Books(vm.user, USER_START, PAGE) && Books(vm.pt, PT_START, TABLE_SIZE) && Books(vm.pgd, PGD_START, TABLE_SIZE)
    ensures vm.user.size == PAGE && vm.pt.size == vm.pgd.size == TABLE_SIZE
  {
  }

  lemma FrameLive(vm: Vm, f: nat)
    requires MemOk(vm)
    ensures f in vm.frameAt ==> f in vm.user.live && vm.frameAt[f].index < NUM_ENTRY && vm.frameAt[f].table in vm.pt.live
  {
    hide DirsOk, TablesOk;
  }

  lemma EntryOfDir(vm: Vm, d: nat, i: nat)
    requires MemOk(vm) && d in vm.pgd.live && i < NUM_ENTRY
    ensures var t := vm.dirs[d][i];
            && (t != vm.empty ==> t in vm.pt.live && InDir(vm, t, d, i + 1) && !InDir(vm, t, d, i))
            && (forall u: nat :: InDir(vm, u, d, i + 1) <==> InDir(vm, u, d, i) || (t != vm.empty && u == t))
  {
    hide DirsOk, FramesOk;
  }

  /** The loops' effect, in terms of the accounting: all tables under the directory go, and all frames under those. */
  lemma FreedLive(vm: Vm, pid: nat)
    requires MemOk(vm) && pid in vm.procs
    ensures var n, d := FreeProc(vm, pid), vm.procs[pid];
            && Books(n.user, USER_START, PAGE) && Books(n.pt, PT_START, TABLE_SIZE) && Books(n.pgd, PGD_START, TABLE_SIZE)
            && n.pgd.live == vm.pgd.live - {d} && n.pgd.dropped == vm.pgd.dropped && Total(n.pgd) == Total(vm.pgd)
            && (forall t: nat :: t in n.pt.live <==> t in vm.pt.live && !UnderDir(vm, t, d))
            && (forall f: nat :: f in n.user.live <==> f in vm.user.live && f in n.frameAt)
            && d in vm.pgd.live && n.pt.size == vm.pt.size && n.pgd.size == vm.pgd.size && n.user.size == vm.user.size
  {
    hide Books, FreeTables, FramesOk;
    var d := vm.procs[pid];
    FreeTablesExact(vm, d, NUM_ENTRY);
    assert forall t: nat :: InDir(vm, t, d, NUM_ENTRY) == UnderDir(vm, t, d);
    MemBooks(vm);
    PoolSmall(vm);
    FreeBooks(vm.pgd, PGD_START, TABLE_SIZE, d);
    forall f: nat
      ensures f in vm.user.live <==> f in vm.frameAt
    {
      FrameLive(vm, f);
      LiveFrame(vm, f);
    }
  }

  lemma PoolSmall(vm: Vm)
    requires MemOk(vm)
    ensures |vm.pgd.free| < MAX_FREE_PAGE
  {
  }

  lemma LiveFrame(vm: Vm, f: nat)
    requires MemOk(vm)
    ensures f in vm.user.live ==> f in vm.frameAt
  {
    hide DirsOk, TablesOk;
  }

  lemma FreedShaped(vm: Vm, pid: nat)
    requires MemOk(vm) && pid in vm.procs
    ensures Shaped(FreeProc(vm, pid))
  {
    hide FramesOk, FreeTables, Free, Books, Total;
    FreedLive(vm, pid);
    var n, d := FreeProc(vm, pid), vm.procs[pid];
    assert forall p | p in n.procs :: n.procs[p] != d;
    forall e, i | e in n.pgd.live && 0 <= i < NUM_ENTRY
      ensures n.dirs[e][i] in n.pt.live
    {
      assert !UnderDir(vm, vm.dirs[e][i], d);
    }
  }

  lemma MapMinus(m: map<nat, nat>, k: nat)
    requires k in m
    ensures |m - {k}| == |m| - 1
  {
    assert (m - {k}).Keys == m.Keys - {k};
    assert |m| == |m.Keys| && |m - {k}| == |(m - {k}).Keys|;
  }

  lemma FreedDirs(vm: Vm, pid: nat)
    requires MemOk(vm) && pid in vm.procs
    ensures DirsOk(FreeProc(vm, pid))
  {
    hide FramesOk, TablesOk, FreeTables, Free, Books, Total, Shaped;
    FreedLive(vm, pid);
    var n, d := FreeProc(vm, pid), vm.procs[pid];
    MapMinus(vm.procs, pid);
    assert |n.pgd.live| == |vm.pgd.live| - 1;
    assert n.dirOwner.Keys == n.pgd.live;
    forall e | e in n.dirOwner
      ensures n.dirOwner[e] in n.procs && n.procs[n.dirOwner[e]] == e
    {
      assert vm.dirOwner[e] in vm.procs && vm.procs[vm.dirOwner[e]] == e;
    }
    forall p | p in n.procs
      ensures p < n.nextPid && n.procs[p] in n.dirOwner && n.dirOwner[n.procs[p]] == p
    {
      assert vm.dirOwner[vm.procs[p]] == p;
    }
  }

  lemma FreedTables(vm: Vm, pid: nat)
    requires MemOk(vm) && pid in vm.procs
    ensures Shaped(FreeProc(vm, pid)) && TablesOk(FreeProc(vm, pid))
  {
    hide FramesOk, DirsOk, FreeTables, Free, Books, Total;
    FreedLive(vm, pid);
    FreedShaped(vm, pid);
  }

  lemma FreedFrames(vm: Vm, pid: nat)
    requires MemOk(vm) && pid in vm.procs
    ensures Shaped(FreeProc(vm, pid)) && FramesOk(FreeProc(vm, pid))
  {
    hide TablesOk, DirsOk, FreeTables, Free, Books, Total, Pack, FrameOf;
    FreedLive(vm, pid);
    FreedShaped(vm, pid);
    var n := FreeProc(vm, pid);
    assert forall t, j | t in n.pt.live && 0 <= j < NUM_ENTRY && n.tables[t][j] != 0 :: MapsFrame(vm, t, j, FrameOf(vm.tables[t][j]));
  }

  lemma FreedTlb(vm: Vm, pid: nat)
    requires MemOk(vm) && pid in vm.procs && TlbOk(vm)
    ensures Shaped(FreeProc(vm, pid)) && TlbOk(FreeProc(vm, pid))
  {
    hide TablesOk, DirsOk, FramesOk, Agrees, FreeTables, Free;
    FreedShaped(vm, pid);
    FreedLive(vm, pid);
    var n := FreeProc(vm, pid);
    forall s | s in n.tlb && n.tlb[s].owner in n.procs
      ensures Agrees(n, n.tlb[s], n.procs[n.tlb[s].owner])
    {
      AgreesAfterFree(vm, n, n.tlb[s], vm.procs[vm.tlb[s].owner]);
    }
  }

  lemma AgreesAfterFree(vm: Vm, n: Vm, e: Entry, d: nat)
    requires Shaped(vm) && Shaped(n) && d in vm.pgd.live && d in n.pgd.live && n.dirs == vm.dirs && n.tables == vm.tables
    ensures Agrees(n, e, d) == Agrees(vm, e, d)
    ensures forall x: nat | x < PAGES :: Pte(n, d, x) == Pte(vm, d, x)
  {
  }

  /** free_proc gives back every page of the process, and only those: the invariant holds again and
      no other process's address space changes. */
  lemma FreeProcInv(vm: Vm, pid: nat)
    requires Inv(vm) && pid in vm.procs
    ensures var n := FreeProc(vm, pid);
            && Inv(n) && n.procs == vm.procs - {pid}
            && (forall q, x: nat | q in n.procs && x < PAGES :: Pte(n, n.procs[q], x) == Pte(vm, vm.procs[q], x))
  {
    hide TablesOk, DirsOk, FramesOk, TlbOk, FreeTables, Free, Pte;
    FreedShaped(vm, pid);
    FreedDirs(vm, pid);
    FreedTables(vm, pid);
    FreedFrames(vm, pid);
    FreedTlb(vm, pid);
    var n := FreeProc(vm, pid);
    forall q, x: nat | q in n.procs && x < PAGES
      ensures Pte(n, n.procs[q], x) == Pte(vm, vm.procs[q], x)
    {
      AgreesAfterFree(vm, n, Entry(0, 0, 0, 0, 0), n.procs[q]);
    }
  }

  // ----- spawning -----

  lemma FreshDir(vm: Vm)
    requires MemOk(vm)
    ensures NewPage(vm.pgd) !in vm.pgd.live && Alloc(vm.pgd).live == vm.pgd.live + {NewPage(vm.pgd)}
    ensures vm.empty in vm.pt.live && vm.nextPid !in vm.procs && Alloc(vm.pgd).size == vm.pgd.size
  {
    AllocBooks(vm.pgd, PGD_START, TABLE_SIZE);
  }

  lemma SpawnShaped(vm: Vm)
    requires MemOk(vm)
    ensures Shaped(Spawn(vm))
  {
    hide DirsOk, TablesOk, FramesOk, NewPage, Alloc;
    FreshDir(vm);
  }

  lemma SpawnDirs(vm: Vm)
    requires MemOk(vm) && |vm.procs| < MAX_PROCS
    ensures DirsOk(Spawn(vm))
  {
    hide TablesOk, FramesOk, Shaped, NewPage, Alloc, Books;
    FreshDir(vm);
    AllocBooks(vm.pgd, PGD_START, TABLE_SIZE);
  }

  lemma SpawnTables(vm: Vm)
    requires MemOk(vm)
    ensures Shaped(Spawn(vm)) && TablesOk(Spawn(vm)) && FramesOk(Spawn(vm))
  {
    hide DirsOk, NewPage, Alloc, Pack, FrameOf;
    FreshDir(vm);
    SpawnShaped(vm);
  }

  lemma SpawnPtes(vm: Vm)
    requires MemOk(vm)
    ensures var n := Spawn(vm);
            && Shaped(n)
            && (forall d, x: nat | d in vm.pgd.live && x < PAGES :: Pte(n, d, x) == Pte(vm, d, x))
            && (forall x: nat | x < PAGES :: Pte(n, NewPage(vm.pgd), x) == 0)
  {
    hide DirsOk, FramesOk, NewPage, Alloc;
    FreshDir(vm);
    SpawnShaped(vm);
  }

  lemma SpawnAgrees(vm: Vm, e: Entry, d: nat)
    requires MemOk(vm) && d in vm.pgd.live && Agrees(vm, e, d)
    ensures Shaped(Spawn(vm)) && d in Spawn(vm).pgd.live && Agrees(Spawn(vm), e, d)
  {
    hide DirsOk, TablesOk, FramesOk, NewPage, Alloc, Pte, PteValid;
    FreshDir(vm);
    SpawnPtes(vm);
  }

  lemma SpawnTlb(vm: Vm)
    requires MemOk(vm) && TlbOk(vm)
    ensures Shaped(Spawn(vm)) && TlbOk(Spawn(vm))
  {
    hide DirsOk, TablesOk, FramesOk, NewPage, Alloc, Agrees, Distinct;
    SpawnShaped(vm);
    var n := Spawn(vm);
    forall s | s in n.tlb && n.tlb[s].owner in n.procs
      ensures Agrees(n, n.tlb[s], n.procs[n.tlb[s].owner])
    {
      SpawnAgrees(vm, n.tlb[s], vm.procs[vm.tlb[s].owner]);
    }
  }

  lemma SpawnKeepsInv(vm: Vm)
    requires Inv(vm) && |vm.procs| < MAX_PROCS
    ensures Inv(Spawn(vm)) && vm.nextPid !in vm.procs
  {
    hide DirsOk, TablesOk, FramesOk, TlbOk, NewPage, Alloc;
    FreshDir(vm);
    SpawnShaped(vm);
    SpawnDirs(vm);
    SpawnTables(vm);
    SpawnTlb(vm);
  }

  lemma ProcOfInv(vm: Vm, q: nat)
    requires Inv(vm) && q in vm.procs
    ensures vm.procs[q] in vm.pgd.live
  {
    hide DirsOk, TablesOk, FramesOk, TlbOk;
  }

  /** Every page under a directory in use maps what it mapped, and none under the new one maps anything. */
  lemma SpawnMaps(vm: Vm)
    requires Inv(vm) && |vm.procs| < MAX_PROCS && Inv(Spawn(vm))
    ensures var n := Spawn(vm);
            && (forall q, x: nat | q in vm.procs && x < PAGES :: Pte(n, n.procs[q], x) == Pte(vm, vm.procs[q], x))
            && (forall x: nat | x < PAGES :: Pte(n, n.procs[vm.nextPid], x) == 0)
  {
    hide DirsOk, TablesOk, FramesOk, TlbOk, Shaped, NewPage, Alloc, Pte;
    SpawnPtes(vm);
    FreshDir(vm);
    forall q | q in vm.procs
      ensures vm.procs[q] in vm.pgd.live
    {
      ProcOfInv(vm, q);
    }
  }

  /** A new process maps nothing, and nobody else's address space changes. */
  lemma SpawnInv(vm: Vm)
    requires Inv(vm) && |vm.procs| < MAX_PROCS
    ensures var n := Spawn(vm);
            && Inv(n) && n.procs.Keys == vm.procs.Keys + {vm.nextPid} && vm.nextPid !in vm.procs
            && (forall q, x: nat | q in vm.procs && x < PAGES :: Pte(n, n.procs[q], x) == Pte(vm, vm.procs[q], x))
            && (forall x: nat | x < PAGES :: Pte(n, n.procs[vm.nextPid], x) == 0)
  {
    hide Inv, Shaped, NewPage, Alloc, Pte;
    SpawnKeepsInv(vm);
    SpawnMaps(vm);
  }
}
