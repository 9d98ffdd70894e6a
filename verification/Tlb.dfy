/**
 The TLB as a cache of the page tables: what both refill paths keep
 (mm/memory.c:34-105, arch/mips/kernel/entry.S:234-254).
 */
module Tlb {
  import opened Wrappers
  import opened PageAllocator
  import opened PageTables
  import opened VirtualMemory
  import opened MemoryInvariant

  function PageNo(va: nat): (x: nat)
    ensures x < PAGES
  {
    va / PAGE % PAGES
  }

  /** What the page tables of process `pid` say about an address. */
  function Translate(vm: Vm, pid: nat, va: nat): Option<nat>
    requires Shaped(vm) && pid in vm.procs
  {
    var pte := Pte(vm, vm.procs[pid], PageNo(va));
    if PteValid(pte) then Some(FrameOf(pte) + va % PAGE) else None
  }

  /** What the hardware does with an address: the matching entry's half, if there is one and it is valid. */
  function Lookup(vm: Vm, va: nat): Option<nat> {
    var s := Probe(vm.tlb, Vpn2(va), vm.asid, 0);
    if s.None? then None
    else
      var half := if va / PAGE % 2 == 0 then vm.tlb[s.value].lo0 else vm.tlb[s.value].lo1;
      if PteValid(half) then Some(FrameOf(half) + va % PAGE) else None
  }

  /** The half of the matching entry that the address selects. */
  function Half(vm: Vm, va: nat): Option<nat> {
    var s := Probe(vm.tlb, Vpn2(va), vm.asid, 0);
    if s.None? then None else Some(if va / PAGE % 2 == 0 then vm.tlb[s.value].lo0 else vm.tlb[s.value].lo1)
  }

  /** Where a store to the address goes: a valid half that is not writable traps. */
  function StoreTo(vm: Vm, va: nat): Option<nat> {
    var h := Half(vm, va);
    if h.Some? && PteValid(h.value) && Writable(h.value) then Some(FrameOf(h.value) + va % PAGE) else None
  }

  /** No slot but `slot` differs. */
  ghost predicate OneSlot(a: map<nat, Entry>, b: map<nat, Entry>, slot: nat) {
    slot in b && forall s | s != slot :: (s in b <==> s in a) && (s in a ==> b[s] == a[s])
  }

  lemma HalfOfPair(va: nat)
    ensures PageNo(va) == EvenPage(Vpn2(va)) + va / PAGE % 2
  {
    var high, g, t, low := Split(va);
    SplitVpn2(va, high, g, t, low);
    DivisionUnique(va, PAGE, (high * 1024 + g) * 1024 + 2 * t + low / PAGE, low % PAGE);
    DivisionUnique(va / PAGE, PAGES, high, g * 1024 + 2 * t + low / PAGE);
    DivisionUnique(va / PAGE, 2, (high * 1024 + g) * 512 + t, low / PAGE);
  }

  lemma AgreesKept(vm: Vm, n: Vm, e: Entry, d: nat, f: nat, x: nat)
    requires Shaped(vm) && Shaped(n) && n.pgd == vm.pgd && d in vm.pgd.live && MapsOnly(vm, n, f, x) && Agrees(vm, e, d)
    ensures Agrees(n, e, d)
  {
    ZeroInvalid();
  }

  /** Mapping more pages leaves every entry right. */
  lemma TlbKept(vm: Vm, n: Vm, d: nat, x: nat)
    requires Shaped(vm) && Shaped(n) && SameProcs(vm, n) && MapsOnly(vm, n, d, x) && TlbOk(vm)
    ensures TlbOk(n)
  {
    hide Agrees, MapsOnly;
    forall s | s in n.tlb && n.tlb[s].owner in n.procs
      ensures Agrees(n, n.tlb[s], n.procs[n.tlb[s].owner])
    {
      AgreesKept(vm, n, n.tlb[s], n.procs[n.tlb[s].owner], d, x);
    }
  }

  /** Rewriting the match, or any slot when nothing matches, leaves one match. */
  lemma WriteDistinct(tlb: map<nat, Entry>, e: Entry, slot: nat)
    requires Distinct(tlb) && slot < TLB_SIZE
    requires var p := Probe(tlb, e.vpn2, e.asid, 0); p.None? || p.value == slot
    requires forall s | s in tlb :: s < TLB_SIZE
    ensures Distinct(tlb[slot := e]) && Probe(tlb[slot := e], e.vpn2, e.asid, 0) == Some(slot)
  {
    var n, p := tlb[slot := e], Probe(tlb, e.vpn2, e.asid, 0);
    assert p.Some? ==> Matches(tlb[slot], e.vpn2, e.asid);
    assert forall s | s in tlb && s != slot :: !Matches(tlb[s], e.vpn2, e.asid);
    assert slot in n && Matches(n[slot], e.vpn2, e.asid);
    var q := Probe(n, e.vpn2, e.asid, 0);
    assert q.Some? && q.value in n && Matches(n[q.value], e.vpn2, e.asid);
  }

  lemma WriteAgrees(vm: Vm, n: Vm, e: Entry, d: nat)
    requires Shaped(vm) && Shaped(n) && n.pgd == vm.pgd && n.dirs == vm.dirs && n.tables == vm.tables && d in vm.pgd.live
    ensures Agrees(n, e, d) == Agrees(vm, e, d)
  {
    hide Shaped, PteValid;
  }

  /** Writing the running process's own pair over the match, or anywhere when there is none. */
  lemma WriteOk(vm: Vm, e: Entry, slot: nat)
    requires Shaped(vm) && TlbOk(vm) && vm.current in vm.procs && 0 < vm.current && slot < TLB_SIZE
    requires e.asid == vm.asid && e.owner == vm.current
    requires e.lo0 == Pte(vm, vm.procs[vm.current], EvenPage(e.vpn2)) && e.lo1 == Pte(vm, vm.procs[vm.current], EvenPage(e.vpn2) + 1)
    requires var p := Probe(vm.tlb, e.vpn2, e.asid, 0); p.None? || p.value == slot
    ensures var n := vm.(tlb := vm.tlb[slot := e]); Shaped(n) && TlbOk(n) && Probe(n.tlb, e.vpn2, e.asid, 0) == Some(slot)
  {
    hide Agrees, Distinct, Probe, EvenPage, Pte;
    var n := vm.(tlb := vm.tlb[slot := e]);
    WriteDistinct(vm.tlb, e, slot);
    AgreesWithSelf(vm, e, vm.procs[vm.current]);
    forall s | s in n.tlb && n.tlb[s].owner in n.procs
      ensures Agrees(n, n.tlb[s], n.procs[n.tlb[s].owner])
    {
      WriteAgrees(vm, n, n.tlb[s], n.procs[n.tlb[s].owner]);
    }
  }

  lemma AgreesWithSelf(vm: Vm, e: Entry, d: nat)
    requires Shaped(vm) && d in vm.pgd.live && e.lo0 == Pte(vm, d, EvenPage(e.vpn2)) && e.lo1 == Pte(vm, d, EvenPage(e.vpn2) + 1)
    ensures Agrees(vm, e, d)
  {
  }

  /** The assembly path: taken when nothing matches, it writes one slot, keeps the TLB right and leaves the address translated as the tables say. */
  lemma FastRefillOk(vm: Vm, va: nat, pteBase: nat, slot: nat)
    requires Shaped(vm) && TlbOk(vm) && vm.current in vm.procs && 0 < vm.current && slot < TLB_SIZE
    requires Probe(vm.tlb, Vpn2(va), vm.asid, 0).None?
    ensures var n := FastRefill(vm, vm.procs[vm.current], va, pteBase, slot);
            && Shaped(n) && TlbOk(n) && Lookup(n, va) == Translate(vm, vm.current, va)
            && Half(n, va) == Some(Pte(vm, vm.procs[vm.current], PageNo(va))) && OneSlot(vm.tlb, n.tlb, slot)
  {
    hide PteValid, FrameOf, EvenPage, Vpn2, TlbOk, PgdIndex, PtIndex, AsmPgdOffset, AsmPtOffset, Probe, PageNo;
    var d := vm.procs[vm.current];
    var n := FastRefill(vm, d, va, pteBase, slot);
    WalksAgree(va, pteBase);
    WalkIsPage(va);
    HalfOfPair(va);
    WriteOk(vm, n.tlb[slot], slot);
  }

  lemma Vpn2Bound(va: nat)
    requires va < VA_LIMIT
    ensures Vpn2(va) < VA_LIMIT / 0x2000
  {
  }

  lemma AsidOfCurrent(vm: Vm)
    requires Shaped(vm) && TlbOk(vm)
    ensures vm.asid == vm.current % ASIDS
  {
  }

  /** The slot the C path writes: the one that matches, else the random one. */
  function RefillSlot(vm: Vm, va: nat, slot: nat): nat {
    var p := Probe(vm.tlb, Vpn2(va), vm.asid, 0);
    if p.Some? then p.value else slot
  }

  /** The C path on a pair already mapped: probe and rewrite. */
  lemma LoadOk(vm: Vm, va: nat, slot: nat)
    requires Shaped(vm) && TlbOk(vm) && vm.current in vm.procs && 0 < vm.current && slot < TLB_SIZE && va < VA_LIMIT
    ensures var n := Load(vm, vm.procs[vm.current], va, slot);
            && Shaped(n) && TlbOk(n) && Lookup(n, va) == Translate(vm, vm.current, va)
            && n == vm.(tlb := n.tlb, asid := n.asid) && n.asid == vm.asid
            && Half(n, va) == Some(Pte(vm, vm.procs[vm.current], PageNo(va)))
            && OneSlot(vm.tlb, n.tlb, RefillSlot(vm, va, slot))
  {
    hide PteValid, FrameOf, EvenPage, Vpn2, TlbOk, PgdIndex, PtIndex, Probe, PageNo;
    var d := vm.procs[vm.current];
    AsidOfCurrent(vm);
    Vpn2Bound(va);
    EntryHiExact(Vpn2(va), vm.current);
    WalkIsPage(va);
    HalfOfPair(va);
    var p := Probe(vm.tlb, Vpn2(va), vm.asid, 0);
    var s := if p.Some? then p.value else slot;
    var pt := vm.tables[vm.dirs[d][PgdIndex(va)]];
    WriteOk(vm, Entry(Vpn2(va), vm.asid, pt[PtIndex(va)], pt[PtIndex(va) + 1], vm.current), s);
  }
}
