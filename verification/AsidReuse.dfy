/**
 An entry is tagged with the low byte of a pid (include/os/mm.h:38-39), and
 nothing flushes the TLB: how long that is enough to tell processes apart.
 */
module AsidReuse {
  import opened PageTables
  import opened VirtualMemory
  import opened MemoryInvariant
  import opened Tlb
  import opened ProcessMemory
  import opened MemoryRuns

  /** What the hardware makes of an address, if it makes anything of it, is what the tables say. */
  ghost predicate Truthful(vm: Vm) {
    Shaped(vm) && (vm.current in vm.procs ==> forall va: nat | va < VA_LIMIT :: TruthAt(vm, va))
  }

  ghost predicate TruthAt(vm: Vm, va: nat)
    requires Shaped(vm) && vm.current in vm.procs
  {
    Lookup(vm, va).Some? ==> Lookup(vm, va) == Translate(vm, vm.current, va)
  }

  /** Where the matching entry is the running process's own, it tells the truth. */
  lemma OwnEntryTrue(vm: Vm, va: nat)
    requires Inv(vm) && vm.current in vm.procs
    requires var s := Probe(vm.tlb, Vpn2(va), vm.asid, 0); s.Some? && vm.tlb[s.value].owner == vm.current
    ensures TruthAt(vm, va)
  {
    hide DirsOk, TablesOk, FramesOk, PteValid, FrameOf, Pte, EvenPage, Vpn2, PageNo;
    HalfOfPair(va);
  }

  /** Where it belongs to another live process, a valid half gives away that process's frame. */
  lemma AliasedEntryLies(vm: Vm, va: nat)
    requires Inv(vm) && vm.current in vm.procs && Lookup(vm, va).Some?
    requires vm.tlb[Probe(vm.tlb, Vpn2(va), vm.asid, 0).value].owner in vm.procs
    ensures TruthAt(vm, va) <==> vm.tlb[Probe(vm.tlb, Vpn2(va), vm.asid, 0).value].owner == vm.current
  {
    hide DirsOk, TablesOk, FramesOk, PteValid, FrameOf, Pte, EvenPage, Vpn2, PageNo;
    HalfOfPair(va);
    var e := vm.tlb[Probe(vm.tlb, Vpn2(va), vm.asid, 0).value];
    if e.owner == vm.current {
      OwnEntryTrue(vm, va);
    } else {
      NoSharing(vm, e.owner, PageNo(va), vm.current, PageNo(va));
    }
  }

  /** While no more than 256 pids have been given out, the TLB never misleads. */
  lemma FewPidsTruthful(vm: Vm)
    requires Inv(vm) && vm.nextPid <= 257
    ensures Truthful(vm)
  {
    hide DirsOk, TablesOk, FramesOk, Agrees, TruthAt, Probe, Vpn2;
    if vm.current in vm.procs {
      forall va: nat | va < VA_LIMIT
        ensures TruthAt(vm, va)
      {
        var s := Probe(vm.tlb, Vpn2(va), vm.asid, 0);
        if s.Some? {
          OwnEntryTrue(vm, va);
        } else {
          NoEntryTrue(vm, va);
        }
      }
    }
  }

  lemma NoEntryTrue(vm: Vm, va: nat)
    requires Shaped(vm) && vm.current in vm.procs && Probe(vm.tlb, Vpn2(va), vm.asid, 0).None?
    ensures TruthAt(vm, va)
  {
  }

  // ----- the run that goes wrong -----

  /** No process is left, but a valid entry for page 0 with ASID 1 is. */
  ghost predicate Stale(vm: Vm) {
    Inv(vm) && vm.procs == map[] && Probe(vm.tlb, 0, 1, 0).Some? && PteValid(vm.tlb[Probe(vm.tlb, 0, 1, 0).value].lo0)
  }

  /** Processes `k` to `k + m - 1` come and go. */
  function Cycles(k: nat, m: nat): seq<Event>
    decreases m
  {
    if m == 0 then [] else [DoSpawn, DoFree(k)] + Cycles(k + 1, m - 1)
  }

  lemma OneCycle(vm: Vm)
    requires Stale(vm)
    ensures var es := [DoSpawn, DoFree(vm.nextPid)];
            RunEnabled(vm, es) && Stale(Run(vm, es)) && Run(vm, es).nextPid == vm.nextPid + 1
  {
    hide DirsOk, TablesOk, FramesOk, TlbOk, FreeTables, Probe, PteValid, Shaped;
    SpawnInv(vm);
    var s := Spawn(vm);
    FreeProcInv(s, vm.nextPid);
    assert s.procs - {vm.nextPid} == map[];
    RunTwo(vm, DoSpawn, DoFree(vm.nextPid));
  }

  lemma {:induction false} ManyCycles(vm: Vm, m: nat)
    requires Stale(vm)
    ensures var es := Cycles(vm.nextPid, m);
            RunEnabled(vm, es) && Stale(Run(vm, es)) && Run(vm, es).nextPid == vm.nextPid + m
    decreases m
  {
    hide Stale, RunEnabled, Run;
    if m == 0 {
      EmptyRun(vm);
    } else {
      OneCycle(vm);
      var es := [DoSpawn, DoFree(vm.nextPid)];
      ManyCycles(Run(vm, es), m - 1);
      RunAppend(vm, es, Cycles(vm.nextPid + 1, m - 1));
    }
  }

  lemma StaleAfterFree(vm: Vm)
    requires Inv(vm) && vm.current == 1 && vm.procs.Keys == {1} && Lookup(vm, 0).Some?
    ensures Enabled(vm, DoFree(1)) && Stale(FreeProc(vm, 1)) && FreeProc(vm, 1).nextPid == vm.nextPid
  {
    hide DirsOk, TablesOk, FramesOk, FreeTables, Probe, PteValid, Shaped, FrameOf, Agrees;
    FreeProcInv(vm, 1);
    assert FreeProc(vm, 1).procs.Keys == {};
    assert vm.asid == 1 && Vpn2(0) == 0;
  }

  lemma TouchAndGo(vm: Vm)
    requires Inv(vm) && vm.current == 1 && vm.procs.Keys == {1} && Room(vm)
    ensures var es := [SlowMiss(0, WIRED), DoFree(1)];
            RunEnabled(vm, es) && Stale(Run(vm, es)) && Run(vm, es).nextPid == vm.nextPid
  {
    hide DirsOk, TablesOk, FramesOk, TlbOk, Shaped, SlowRefill, Lookup, FreeProc, Stale, PairMapped, Translate, RunEnabled, Run;
    CurrentLive(vm);
    SlowRefillInv(vm, 0, WIRED);
    StaleAfterFree(SlowRefill(vm, vm.procs[1], 0, WIRED));
    RunTwo(vm, SlowMiss(0, WIRED), DoFree(1));
  }

  /** Process 1 touches page 0 and goes. */
  lemma FirstProcess()
    ensures var es := [DoSpawn, DoSwitch(1)] + [SlowMiss(0, WIRED), DoFree(1)];
            RunEnabled(Boot(), es) && Stale(Run(Boot(), es)) && Run(Boot(), es).nextPid == 2
  {
    hide DirsOk, TablesOk, FramesOk, Stale, Shaped, SlowRefill, FreeProc, TlbOk;
    var es := [DoSpawn, DoSwitch(1)];
    BootInv();
    SpawnInv(Boot());
    var v1 := Spawn(Boot());
    SwitchInv(v1, 1);
    var v2 := Switch(v1, 1);
    RunTwo(Boot(), DoSpawn, DoSwitch(1));
    TouchAndGo(v2);
    RunAppend(Boot(), es, [SlowMiss(0, WIRED), DoFree(1)]);
  }

  /** Process 257 runs with nothing mapped, and the hardware hands it process 1's frame. */
  lemma LateProcess(vm: Vm)
    requires Stale(vm) && vm.nextPid == 257
    ensures var es := [DoSpawn, DoSwitch(257)];
            RunEnabled(vm, es) && !Truthful(Run(vm, es)) && Run(vm, es).nextPid == 258
  {
    hide DirsOk, TablesOk, FramesOk, TlbOk, Probe, PteValid, Shaped, FrameOf;
    SpawnInv(vm);
    var v1 := Spawn(vm);
    SwitchInv(v1, 257);
    var v2 := Switch(v1, 257);
    RunTwo(vm, DoSpawn, DoSwitch(257));
    OnlyTlb(v1, v2);
    ZeroInvalid();
    assert Vpn2(0) == 0 && PageNo(0) == 0;
    assert Lookup(v2, 0).Some? && Translate(v2, 257, 0).None?;
    assert !TruthAt(v2, 0);
  }

  lemma BadRun() returns (es: seq<Event>)
    ensures RunEnabled(Boot(), es) && !Truthful(Run(Boot(), es)) && Run(Boot(), es).nextPid == 258
  {
    hide Stale, Truthful, Run, RunEnabled, Cycles;
    FirstProcess();
    var a := [DoSpawn, DoSwitch(1)] + [SlowMiss(0, WIRED), DoFree(1)];
    var v := Run(Boot(), a);
    ManyCycles(v, 255);
    var b := Cycles(2, 255);
    LateProcess(Run(v, b));
    var c := [DoSpawn, DoSwitch(257)];
    RunAppend(v, b, c);
    RunAppend(Boot(), a, b + c);
    es := a + (b + c);
  }

  /** In every run that keeps the next pid at or below `n` the TLB is truthful in the end. */
  ghost predicate SafeBelow(n: nat) {
    forall es :: RunEnabled(Boot(), es) && Run(Boot(), es).nextPid <= n ==> Truthful(Run(Boot(), es))
  }

  /** The TLB can be trusted over all runs exactly while pids stay at or below 256. */
  lemma TlbTruthfulExactly(n: nat)
    ensures SafeBelow(n) <==> n <= 257
  {
    hide Inv, Truthful, Run, RunEnabled;
    if n <= 257 {
      forall es | RunEnabled(Boot(), es) && Run(Boot(), es).nextPid <= n
        ensures Truthful(Run(Boot(), es))
      {
        BootInv();
        RunInv(Boot(), es);
        FewPidsTruthful(Run(Boot(), es));
      }
    } else {
      var es := BadRun();
    }
  }
}
