/**
 Page tables, frames and the TLB (mm/memory.c, the refill handler of
 arch/mips/kernel/entry.S:234-254, free_proc of kernel/sched/sched.c:158-177)
 as a state and its steps. dirOwner, tableAt, frameAt and a TLB entry's owner
 are accounting that no code keeps.
 */
module VirtualMemory {
  import opened Wrappers
  import opened PageAllocator
  import opened PageTables

  const USER_START: nat := 0x2000_0000
  const PGD_START: nat := 0xffff_ffff_a100_0000
  const PT_START: nat := 0xffff_ffff_a110_0000
  const MAX_PROCS: nat := 31
  const WIRED: nat := 32
  const TLB_SIZE: nat := 64

  datatype Place = Place(table: nat, index: nat)

  datatype Entry = Entry(vpn2: nat, asid: nat, lo0: nat, lo1: nat, owner: nat)

  datatype Vm = Vm(
    user: Ctrl, pt: Ctrl, pgd: Ctrl,
    dirs: map<nat, seq<nat>>, tables: map<nat, seq<nat>>, empty: nat,
    procs: map<nat, nat>, nextPid: nat, current: nat, asid: nat, tlb: map<nat, Entry>,
    dirOwner: map<nat, nat>, tableAt: map<nat, Place>, frameAt: map<nat, Place>)

  function Zeros(): (t: seq<nat>)
    ensures |t| == NUM_ENTRY && forall j | 0 <= j < NUM_ENTRY :: t[j] == 0
  {
    seq(NUM_ENTRY, _ => 0)
  }

  /** What init_pgd leaves. */
  function AllEmpty(empty: nat): (d: seq<nat>)
    ensures |d| == NUM_ENTRY && forall i | 0 <= i < NUM_ENTRY :: d[i] == empty
  {
    seq(NUM_ENTRY, _ => empty)
  }

  function Store(words: seq<nat>, i: nat, x: nat): seq<nat>
    requires i < |words|
  {
    words[i := x]
  }

  /** init_memory and init_page_table; no process yet. */
  function Boot(): Vm {
    var pt := Ctrl(TABLE_SIZE, PT_START, [], {}, {});
    Vm(Ctrl(PAGE, USER_START, [], {}, {}), Alloc(pt), Ctrl(TABLE_SIZE, PGD_START, [], {}, {}),
       map[], map[NewPage(pt) := Zeros()], NewPage(pt),
       map[], 1, 0, 0, map[], map[], map[], map[])
  }

  /** Live directories and tables are in memory, whole, and lead to live tables. */
  ghost predicate Shaped(vm: Vm) {
    && (forall p | p in vm.procs :: vm.procs[p] in vm.pgd.live)
    && (forall d | d in vm.pgd.live :: d in vm.dirs && |vm.dirs[d]| == NUM_ENTRY)
    && (forall d, i | d in vm.pgd.live && 0 <= i < NUM_ENTRY :: vm.dirs[d][i] in vm.pt.live)
    && (forall t | t in vm.pt.live :: t in vm.tables && |vm.tables[t]| == NUM_ENTRY)
    && 0 < vm.user.size && 0 < vm.pt.size && 0 < vm.pgd.size
  }

  /** The table entry of page `x` under directory `d`. */
  function Pte(vm: Vm, d: nat, x: nat): nat
    requires Shaped(vm) && d in vm.pgd.live && x < PAGES
  {
    vm.tables[vm.dirs[d][x / NUM_ENTRY]][x % NUM_ENTRY]
  }

  // ----- page faults -----

  /** The first half of both handlers: a private table instead of the shared empty one. */
  function EnsureTable(vm: Vm, d: nat, i: nat): Vm
    requires Shaped(vm) && d in vm.pgd.live && i < NUM_ENTRY
  {
    var t := NewPage(vm.pt);
    if vm.dirs[d][i] != vm.empty then vm
    else vm.(pt := Alloc(vm.pt), dirs := vm.dirs[d := Store(vm.dirs[d], i, t)], tables := vm.tables[t := Zeros()],
             tableAt := vm.tableAt[t := Place(d, i)])
  }

  /** "if the entry is not valid, do_page_fault". */
  function EnsureFrame(vm: Vm, t: nat, j: nat): Vm
    requires Shaped(vm) && t in vm.pt.live && j < NUM_ENTRY
  {
    var f := NewPage(vm.user);
    if PteValid(vm.tables[t][j]) then vm
    else vm.(user := Alloc(vm.user), tables := vm.tables[t := Store(vm.tables[t], j, Pack(f))],
             frameAt := vm.frameAt[f := Place(t, j)])
  }

  /** Both handlers up to the TLB write: the address's pair of pages gets frames. */
  function MapPair(vm: Vm, d: nat, va: nat): Vm
    requires Shaped(vm) && d in vm.pgd.live
  {
    var v1 := EnsureTable(vm, d, PgdIndex(va));
    EnsureTableShaped(vm, d, PgdIndex(va));
    var t := v1.dirs[d][PgdIndex(va)];
    var v2 := EnsureFrame(v1, t, PtIndex(va));
    EnsureFrameShaped(v1, t, PtIndex(va));
    EnsureFrame(v2, t, PtIndex(va) + 1)
  }

  lemma EnsureTableShaped(vm: Vm, d: nat, i: nat)
    requires Shaped(vm) && d in vm.pgd.live && i < NUM_ENTRY
    ensures Shaped(EnsureTable(vm, d, i)) && EnsureTable(vm, d, i).pgd == vm.pgd
  {
  }

  lemma EnsureFrameShaped(vm: Vm, t: nat, j: nat)
    requires Shaped(vm) && t in vm.pt.live && j < NUM_ENTRY
    ensures Shaped(EnsureFrame(vm, t, j)) && EnsureFrame(vm, t, j).pt == vm.pt && EnsureFrame(vm, t, j).pgd == vm.pgd
  {
  }

  // ----- the TLB -----

  predicate Matches(e: Entry, vpn2: nat, asid: nat) {
    e.vpn2 == vpn2 && e.asid == asid
  }

  /** tlbp: the slot that matches, if any. */
  function Probe(tlb: map<nat, Entry>, vpn2: nat, asid: nat, s: nat): (r: Option<nat>)
    ensures r.Some? ==> s <= r.value < TLB_SIZE && r.value in tlb && Matches(tlb[r.value], vpn2, asid)
    ensures r.None? ==> forall k | s <= k < TLB_SIZE && k in tlb :: !Matches(tlb[k], vpn2, asid)
    decreases TLB_SIZE - s
  {
    if s >= TLB_SIZE then None
    else if s in tlb && Matches(tlb[s], vpn2, asid) then Some(s)
    else Probe(tlb, vpn2, asid, s + 1)
  }

  /** TLBexception_handler_entry: loads the pair its own walk finds into a random slot.
      EntryHi already holds the address's VPN2 and the ASID do_scheduler wrote. */
  function FastRefill(vm: Vm, d: nat, va: nat, pteBase: nat, slot: nat): Vm
    requires Shaped(vm) && d in vm.pgd.live
  {
    WalksAgree(va, pteBase);
    var pt := vm.tables[vm.dirs[d][AsmPgdOffset(va) / 8]];
    vm.(tlb := vm.tlb[slot := Entry(Vpn2(va), vm.asid, pt[AsmPtOffset(pteBase, va) / 8],
                                    pt[(AsmPtOffset(pteBase, va) + 8) / 8], vm.current)])
  }

  /** The second half of both C handlers: probe, then rewrite the match or a random slot. */
  function Load(vm: Vm, d: nat, va: nat, slot: nat): Vm
    requires Shaped(vm) && d in vm.pgd.live
  {
    var pt := vm.tables[vm.dirs[d][PgdIndex(va)]];
    var hi := EntryHi(Vpn2(va), vm.current);
    var asid := hi % 0x2000;
    var e := Entry(hi / 0x2000, asid, pt[PtIndex(va)], pt[PtIndex(va) + 1], vm.current);
    var probed := Probe(vm.tlb, hi / 0x2000, asid, 0);
    vm.(asid := asid, tlb := vm.tlb[if probed.Some? then probed.value else slot := e])
  }

  /** TLB_Invalid_handler and do_TLB_Refill. */
  function SlowRefill(vm: Vm, d: nat, va: nat, slot: nat): Vm
    requires Shaped(vm) && d in vm.pgd.live
  {
    MapPairShaped(vm, d, va);
    Load(MapPair(vm, d, va), d, va, slot)
  }

  lemma MapPairShaped(vm: Vm, d: nat, va: nat)
    requires Shaped(vm) && d in vm.pgd.live
    ensures Shaped(MapPair(vm, d, va)) && MapPair(vm, d, va).pgd == vm.pgd
  {
    hide Shaped, EnsureTable, EnsureFrame, PgdIndex, PtIndex;
    EnsureTableShaped(vm, d, PgdIndex(va));
    var v1 := EnsureTable(vm, d, PgdIndex(va));
    var t := v1.dirs[d][PgdIndex(va)];
    EnsureFrameShaped(v1, t, PtIndex(va));
    EnsureFrameShaped(EnsureFrame(v1, t, PtIndex(va)), t, PtIndex(va) + 1);
  }

  // ----- processes -----

  /** The memory part of do_spawn. */
  function Spawn(vm: Vm): Vm {
    var d := NewPage(vm.pgd);
    vm.(pgd := Alloc(vm.pgd), dirs := vm.dirs[d := AllEmpty(vm.empty)], procs := vm.procs[vm.nextPid := d],
        nextPid := vm.nextPid + 1, dirOwner := vm.dirOwner[d := vm.nextPid])
  }

  /** scheduler's last lines and do_scheduler's write to EntryHi. */
  function Switch(vm: Vm, pid: nat): Vm {
    vm.(current := pid, asid := pid % ASIDS)
  }

  /** free_proc's inner loop over the first `n` entries of a table. */
  function FreeFrames(user: Ctrl, table: seq<nat>, n: nat): (r: Ctrl)
    requires n <= |table| && 0 < user.size
    ensures r.size == user.size && r.next == user.next
  {
    if n == 0 then user
    else
      var u := FreeFrames(user, table, n - 1);
      if PteValid(table[n - 1]) then Free(u, FrameOf(table[n - 1])) else u
  }

  datatype Pools = Pools(user: Ctrl, pt: Ctrl)

  /** free_proc's outer loop over the first `n` entries of a directory. */
  function FreeTables(vm: Vm, d: nat, n: nat): (r: Pools)
    requires Shaped(vm) && d in vm.pgd.live && n <= NUM_ENTRY
    ensures r.user.size == vm.user.size && r.pt.size == vm.pt.size && r.user.next == vm.user.next && r.pt.next == vm.pt.next
  {
    if n == 0 then Pools(vm.user, vm.pt)
    else
      var p := FreeTables(vm, d, n - 1);
      var t := vm.dirs[d][n - 1];
      if t == vm.empty then p else Pools(FreeFrames(p.user, vm.tables[t], NUM_ENTRY), Free(p.pt, t))
  }

  predicate UnderDir(vm: Vm, t: nat, d: nat) {
    t in vm.tableAt && vm.tableAt[t].table == d
  }

  function KeptTables(vm: Vm, d: nat): map<nat, Place> {
    map t | t in vm.tableAt && !UnderDir(vm, t, d) :: vm.tableAt[t]
  }

  function KeptFrames(vm: Vm, d: nat): map<nat, Place> {
    map f | f in vm.frameAt && !UnderDir(vm, vm.frameAt[f].table, d) :: vm.frameAt[f]
  }

  /** free_proc's page tables and pages. */
  function FreeProc(vm: Vm, pid: nat): Vm
    requires Shaped(vm) && pid in vm.procs
  {
    var d := vm.procs[pid];
    var p := FreeTables(vm, d, NUM_ENTRY);
    vm.(user := p.user, pt := p.pt, pgd := Free(vm.pgd, d), procs := vm.procs - {pid}, dirOwner := vm.dirOwner - {d},
        tableAt := KeptTables(vm, d), frameAt := KeptFrames(vm, d))
  }

  // ----- invariant -----

  /** An allocator's pages are exactly those issued since `start`. */
  ghost predicate Books(c: Ctrl, start: nat, size: nat) {
    Valid(c) && c.size == size && c.next == start + size * Total(c)
  }

  /** Each live directory belongs to one live process, and there are never more than 31. */
  ghost predicate DirsOk(vm: Vm) {
    && Books(vm.user, USER_START, PAGE) && Books(vm.pt, PT_START, TABLE_SIZE) && Books(vm.pgd, PGD_START, TABLE_SIZE)
    && vm.dirOwner.Keys == vm.pgd.live && |vm.procs| <= MAX_PROCS && |vm.pgd.live| == |vm.procs|
    && vm.pgd.dropped == {} && Total(vm.pgd) <= MAX_PROCS
    && (forall d | d in vm.dirOwner :: vm.dirOwner[d] in vm.procs && vm.procs[vm.dirOwner[d]] == d)
    && (forall p | p in vm.procs :: p < vm.nextPid && vm.procs[p] in vm.dirOwner && vm.dirOwner[vm.procs[p]] == p)
  }

  /** Each live table but the shared empty one has exactly one place in one directory. */
  ghost predicate TablesOk(vm: Vm)
    requires Shaped(vm)
  {
    && vm.empty in vm.pt.live && vm.tableAt.Keys == vm.pt.live - {vm.empty}
    && (forall j | 0 <= j < NUM_ENTRY :: vm.tables[vm.empty][j] == 0)
    && (forall d, i | d in vm.pgd.live && 0 <= i < NUM_ENTRY && vm.dirs[d][i] != vm.empty ::
          vm.dirs[d][i] in vm.tableAt && vm.tableAt[vm.dirs[d][i]] == Place(d, i))
    && (forall t | t in vm.tableAt ::
          && vm.tableAt[t].table in vm.pgd.live && vm.tableAt[t].index < NUM_ENTRY
          && vm.dirs[vm.tableAt[t].table][vm.tableAt[t].index] == t)
  }

  /** A table entry is zero or maps a live frame, and each live frame is mapped in exactly one place. */
  ghost predicate FramesOk(vm: Vm)
    requires Shaped(vm)
  {
    vm.frameAt.Keys == vm.user.live && EntriesOk(vm) && PlacesOk(vm)
  }

  ghost predicate EntriesOk(vm: Vm)
    requires Shaped(vm)
  {
    forall t, j | t in vm.pt.live && 0 <= j < NUM_ENTRY ::
      vm.tables[t][j] == 0 || MapsFrame(vm, t, j, FrameOf(vm.tables[t][j]))
  }

  ghost predicate PlacesOk(vm: Vm)
    requires Shaped(vm)
  {
    forall f | f in vm.frameAt :: PlaceOk(vm, f)
  }

  ghost predicate PlaceOk(vm: Vm, f: nat)
    requires Shaped(vm) && f in vm.frameAt
  {
    && f % PAGE == 0 && f < PHYS_LIMIT && vm.frameAt[f].table in vm.pt.live && vm.frameAt[f].index < NUM_ENTRY
    && vm.tables[vm.frameAt[f].table][vm.frameAt[f].index] == Pack(f)
  }

  ghost predicate MapsFrame(vm: Vm, t: nat, j: nat, f: nat)
    requires Shaped(vm) && t in vm.pt.live && j < NUM_ENTRY
  {
    vm.tables[t][j] == Pack(f) && f in vm.frameAt && vm.frameAt[f] == Place(t, j)
  }

  /** A valid half of an entry is what the owner's table says now. */
  ghost predicate Agrees(vm: Vm, e: Entry, d: nat)
    requires Shaped(vm) && d in vm.pgd.live
  {
    && (PteValid(e.lo0) ==> e.lo0 == Pte(vm, d, EvenPage(e.vpn2)))
    && (PteValid(e.lo1) ==> e.lo1 == Pte(vm, d, EvenPage(e.vpn2) + 1))
  }

  ghost predicate Distinct(tlb: map<nat, Entry>) {
    forall s, r | s in tlb && r in tlb && s != r :: !Matches(tlb[s], tlb[r].vpn2, tlb[r].asid)
  }

  /** No two entries match the same address, and every entry of a live process agrees with its table. */
  ghost predicate TlbOk(vm: Vm)
    requires Shaped(vm)
  {
    && vm.current < vm.nextPid && vm.asid == vm.current % ASIDS && Distinct(vm.tlb)
    && (forall s | s in vm.tlb ::
          && s < TLB_SIZE && 0 < vm.tlb[s].owner < vm.nextPid && vm.tlb[s].asid == vm.tlb[s].owner % ASIDS
          && (vm.tlb[s].owner in vm.procs ==> Agrees(vm, vm.tlb[s], vm.procs[vm.tlb[s].owner])))
  }

  ghost predicate Inv(vm: Vm) {
    Shaped(vm) && DirsOk(vm) && TablesOk(vm) && FramesOk(vm) && TlbOk(vm) && 0 !in vm.procs && 0 < vm.nextPid
  }
}
