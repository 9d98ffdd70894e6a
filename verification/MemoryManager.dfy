/**
 mm/memory.c, the refill handler and free_proc's loops in their own form:
 page tables overwritten in place, registers and the TLB written, loops over
 1024 entries. PageAllocator proves the allocators' own in-place form.
 */
module MemoryManager {
  import opened PageAllocator
  import opened PageTables
  import opened VirtualMemory
  import opened MemoryInvariant
  import opened MemoryRuns

  lemma ReachesTable(vm: Vm, d: nat, i: nat)
    requires Shaped(vm) && d in vm.pgd.live && i < NUM_ENTRY
    ensures d in vm.dirs && |vm.dirs[d]| == NUM_ENTRY && vm.dirs[d][i] in vm.pt.live
    ensures vm.dirs[d][i] in vm.tables && |vm.tables[vm.dirs[d][i]]| == NUM_ENTRY
  {
  }

  class Memory {
    var user: Ctrl
    var pt: Ctrl
    var pgd: Ctrl
    var dirs: map<nat, seq<nat>>
    var tables: map<nat, seq<nat>>
    const empty: nat
    var procs: map<nat, nat>
    var nextPid: nat
    var currentPid: nat
    var currentPgd: nat
    var asid: nat
    var tlb: map<nat, Entry>
    ghost var dirOwner: map<nat, nat>
    ghost var tableAt: map<nat, Place>
    ghost var frameAt: map<nat, Place>

    ghost function State(): Vm
      reads this
    {
      Vm(user, pt, pgd, dirs, tables, empty, procs, nextPid, currentPid, asid, tlb, dirOwner, tableAt, frameAt)
    }

    /** The running process is live and its directory is the one the handlers use. */
    ghost predicate Running()
      reads this
    {
      Inv(State()) && currentPid in procs && currentPgd == procs[currentPid]
    }

    constructor ()
      ensures State() == Boot()
    {
      user := Ctrl(PAGE, USER_START, [], {}, {});
      pgd := Ctrl(TABLE_SIZE, PGD_START, [], {}, {});
      var c := Ctrl(TABLE_SIZE, PT_START, [], {}, {});
      empty := NewPage(c);
      pt := Alloc(c);
      tables := map[NewPage(c) := Zeros()];
      dirs, procs, nextPid, currentPid, currentPgd, asid, tlb := map[], map[], 1, 0, 0, 0, map[];
      dirOwner, tableAt, frameAt := map[], map[], map[];
    }

    /** init_pgd. */
    method InitPgd(d: nat)
      modifies this`dirs
      ensures dirs == old(dirs)[d := AllEmpty(empty)]
    {
      var entries := Zeros();
      for i := 0 to NUM_ENTRY
        invariant |entries| == NUM_ENTRY
        invariant forall k | 0 <= k < i :: entries[k] == empty
      {
        entries := Store(entries, i, empty);
      }
      assert entries == AllEmpty(empty);
      dirs := dirs[d := entries];
    }

    /** The memory part of do_spawn. */
    method SpawnSpace() returns (pid: nat)
      modifies this
      ensures State() == Spawn(old(State())) && pid == old(nextPid)
    {
      pid := nextPid;
      nextPid := nextPid + 1;
      var d := NewPage(pgd);
      pgd := Alloc(pgd);
      InitPgd(d);
      procs := procs[pid := d];
      dirOwner := dirOwner[d := pid];
    }

    /** The end of scheduler and do_scheduler's write to EntryHi. */
    method SwitchTo(pid: nat)
      requires pid in procs
      modifies this`currentPid, this`currentPgd, this`asid
      ensures State() == Switch(old(State()), pid) && currentPgd == procs[pid]
    {
      currentPid := pid;
      currentPgd := procs[pid];
      asid := pid % ASIDS;
    }

    /** TLBexception_handler_entry, register by register. */
    method FastHandler(va: nat, pteBase: nat, slot: nat)
      requires Running() && va < VA_LIMIT && WIRED <= slot < TLB_SIZE && Probe(tlb, Vpn2(va), asid, 0).None?
      modifies this`tlb
      ensures Running() && State() == FastRefill(old(State()), currentPgd, va, pteBase, slot)
      ensures Tlb.Lookup(State(), va) == Tlb.Translate(old(State()), currentPid, va)
    {
      hide DirsOk, TablesOk, FramesOk, TlbOk, Probe, Vpn2, AsmPgdOffset, AsmPtOffset, PgdIndex, PtIndex;
      FastRefillInv(State(), va, pteBase, slot);
      WalksAgree(va, pteBase);
      var k0 := AsmPgdOffset(va);
      var k1 := dirs[currentPgd][k0 / 8];
      k0 := AsmPtOffset(pteBase, va);
      var table := k1;
      var entryLo0 := tables[table][k0 / 8];
      var entryLo1 := tables[table][(k0 + 8) / 8];
      tlb := tlb[slot := Entry(Vpn2(va), asid, entryLo0, entryLo1, currentPid)];
    }

    /** do_page_fault on entry `j` of table `t`. */
    method PageFault(t: nat, j: nat)
      requires Shaped(State()) && t in pt.live && j < NUM_ENTRY && !PteValid(tables[t][j])
      modifies this`user, this`tables, this`frameAt
      ensures State() == EnsureFrame(old(State()), t, j)
      ensures t in tables && j < |tables[t]| && PteValid(tables[t][j]) && Writable(tables[t][j]) && !Global(tables[t][j]) && CacheAttr(tables[t][j]) == 2
    {
      var phys := NewPage(user);
      PackFields(phys);
      user := Alloc(user);
      var pfn := phys / PAGE;
      tables := tables[t := Store(tables[t], j, EntryLo(pfn, 2, 1, 1, 0))];
      frameAt := frameAt[phys := Place(t, j)];
    }

    /** "if the entry is not valid, do_page_fault". */
    method ValidEntry(t: nat, j: nat)
      requires Shaped(State()) && t in pt.live && j < NUM_ENTRY
      modifies this`user, this`tables, this`frameAt
      ensures State() == EnsureFrame(old(State()), t, j)
    {
      if !PteValid(tables[t][j]) {
        PageFault(t, j);
      }
    }

    /** "if the directory leads to global_empty_pt, give it a table of its own". */
    method PrivateTable(i: nat) returns (t: nat)
      requires Shaped(State()) && currentPgd in pgd.live && i < NUM_ENTRY
      modifies this`pt, this`dirs, this`tables, this`tableAt
      ensures State() == EnsureTable(old(State()), currentPgd, i) && currentPgd in dirs && i < |dirs[currentPgd]| && t == dirs[currentPgd][i]
    {
      t := dirs[currentPgd][i];
      if t == empty {
        t := NewPage(pt);
        pt := Alloc(pt);
        dirs := dirs[currentPgd := Store(dirs[currentPgd], i, t)];
        tables := tables[t := Zeros()];
        tableAt := tableAt[t := Place(currentPgd, i)];
      }
    }

    /** do_TLB_Refill and TLB_Invalid_handler up to the TLB write. */
    method MapFaulting(va: nat) returns (t: nat)
      requires Shaped(State()) && currentPgd in pgd.live
      modifies this`user, this`pt, this`dirs, this`tables, this`tableAt, this`frameAt
      ensures Shaped(State()) && State() == MapPair(old(State()), currentPgd, va) && currentPgd in dirs && PgdIndex(va) < |dirs[currentPgd]| && t == dirs[currentPgd][PgdIndex(va)]
    {
      hide EnsureTable, EnsureFrame, PgdIndex, PtIndex;
      var i, j := PgdIndex(va), PtIndex(va);
      MapPairShaped(State(), currentPgd, va);
      EnsureTableShaped(State(), currentPgd, i);
      t := PrivateTable(i);
      ReachesTable(State(), currentPgd, i);
      EnsureFrameShaped(State(), t, j);
      ValidEntry(t, j);
      ReachesTable(State(), currentPgd, i);
      ValidEntry(t, j + 1);
    }

    /** TLB_Invalid_handler, and do_TLB_Refill, which start_up calls for the same effect. */
    method InvalidHandler(va: nat, slot: nat)
      requires Running() && va < VA_LIMIT && WIRED <= slot < TLB_SIZE && Room(State())
      modifies this
      ensures Running() && State() == SlowRefill(old(State()), old(currentPgd), va, slot) && Served(old(State()), State(), va)
    {
      hide Inv, MapPair, PgdIndex, PtIndex, Served, Probe, Room;
      RunningShaped();
      ghost var s := State();
      SlowRefillInv(s, va, slot);
      var t := MapFaulting(va);
      ghost var m := State();
      ReachesTable(m, currentPgd, PgdIndex(va));
      var entryHi := EntryHi(Vpn2(va), currentPid);
      asid := entryHi % 0x2000;
      var index := Probe(tlb, entryHi / 0x2000, asid, 0);
      var e := Entry(entryHi / 0x2000, asid, tables[t][PtIndex(va)], tables[t][PtIndex(va) + 1], currentPid);
      if index.None? {
        tlb := tlb[slot := e];
      } else {
        tlb := tlb[index.value := e];
      }
      assert State() == Load(m, currentPgd, va, slot);
    }

    lemma RunningShaped()
      requires Running()
      ensures Shaped(State()) && currentPgd in pgd.live
    {
    }

    /** free_proc's inner loop. */
    method FreeTable(t: nat)
      requires t in tables && |tables[t]| == NUM_ENTRY && 0 < user.size
      modifies this`user
      ensures user == FreeFrames(old(user), tables[t], NUM_ENTRY)
    {
      hide PteValid, FrameOf;
      for j := 0 to NUM_ENTRY
        invariant user == FreeFrames(old(user), tables[t], j)
      {
        if PteValid(tables[t][j]) {
          user := Free(user, FrameOf(tables[t][j]));
        }
      }
    }

    /** free_proc's outer loop. */
    method FreeDir(d: nat)
      requires Shaped(State()) && d in pgd.live
      modifies this`user, this`pt
      ensures Pools(user, pt) == FreeTables(old(State()), d, NUM_ENTRY)
    {
      hide FreeFrames;
      ghost var s := State();
      for i := 0 to NUM_ENTRY
        invariant Pools(user, pt) == FreeTables(s, d, i)
      {
        if dirs[d][i] != empty {
          var t := dirs[d][i];
          FreeTable(t);
          pt := Free(pt, t);
        }
      }
    }

    /** free_proc's page tables and pages. */
    method FreeSpace(pid: nat)
      requires Shaped(State()) && pid in procs
      modifies this
      ensures State() == FreeProc(old(State()), pid)
    {
      hide FreeTables, Free, KeptTables, KeptFrames;
      ghost var s := State();
      var d := procs[pid];
      FreeDir(d);
      pgd := Free(pgd, d);
      procs := procs - {pid};
      dirOwner, tableAt, frameAt := dirOwner - {d}, KeptTables(s, d), KeptFrames(s, d);
    }
  }
}
