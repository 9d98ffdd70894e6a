/**
 Virtual addresses, page table entries and TLB registers as numbers
 (include/os/mm.h:38-41, mm/memory.c:36-38, arch/mips/kernel/entry.S:236-246).
 */
module PageTables {
  import opened PageAllocator

  const NUM_ENTRY: nat := 1024
  const PAGE: nat := 0x1000
  const TABLE_SIZE: nat := 0x2000
  /** ENTRYLO keeps 24 bits of frame number, ENTRYHI 27 bits of VPN2 and 8 of ASID. */
  const PHYS_LIMIT: nat := 0x10_0000_0000
  const VA_LIMIT: nat := 0x100_0000_0000
  const ASIDS: nat := 256

  /** x & m for the mask m whose ones are exactly the bits from value `lo` up to below value `hi`. */
  function Masked(x: nat, lo: nat, hi: nat): int
    requires 0 < lo && 0 < hi
  {
    x % hi - x % lo
  }

  // ----- the two walks -----

  /** (addr >> 22) & 0x3ff, in do_TLB_Refill and TLB_Invalid_handler. */
  function PgdIndex(va: nat): (i: nat)
    ensures i < NUM_ENTRY
  {
    va / 0x40_0000 % 1024
  }

  /** (addr >> 12) & 0x3fe. */
  function PtIndex(va: nat): (j: nat)
    ensures j + 1 < NUM_ENTRY
  {
    Masked(va / 0x1000, 2, 1024)
  }

  /** addr >> 13. */
  function Vpn2(va: nat): nat {
    va / 0x2000
  }

  /** (BadVAddr >> 19) & 0x1FF8: the byte offset into the directory that the refill code loads from. */
  function AsmPgdOffset(va: nat): int {
    Masked(va / 0x8_0000, 8, 0x2000)
  }

  /** The Context register: BadVPN2, bits 31 to 13 of the address, stands at bits 22 to 4. */
  function Context(pteBase: nat, va: nat): nat {
    pteBase * 0x80_0000 + va / 0x2000 % 0x8_0000 * 16
  }

  /** Context & 0x1FF8: the byte offset into the table. */
  function AsmPtOffset(pteBase: nat, va: nat): int {
    Masked(Context(pteBase, va), 8, 0x2000)
  }

  /** An address as directory index, table pair and offset; `high` is what a walk ignores. */
  predicate Splits(va: nat, high: nat, g: nat, t: nat, low: nat) {
    g < 1024 && t < 512 && low < 0x2000 && va == high * 0x1_0000_0000 + g * 0x40_0000 + t * 0x2000 + low
  }

  lemma Split(va: nat) returns (high: nat, g: nat, t: nat, low: nat)
    ensures Splits(va, high, g, t, low)
  {
    high, g, t, low := va / 0x1_0000_0000, va % 0x1_0000_0000 / 0x40_0000, va % 0x40_0000 / 0x2000, va % 0x2000;
    var r := va % 0x1_0000_0000;
    assert va == high * 0x1_0000_0000 + r;
    DivisionUnique(va, 0x40_0000, high * 1024 + g, r % 0x40_0000);
    var s := va % 0x40_0000;
    DivisionUnique(va, 0x2000, (high * 1024 + g) * 512 + t, s % 0x2000);
  }

  lemma SplitVpn2(va: nat, high: nat, g: nat, t: nat, low: nat)
    requires Splits(va, high, g, t, low)
    ensures Vpn2(va) == high * 0x8_0000 + g * 512 + t && Vpn2(va) % 0x8_0000 == g * 512 + t
  {
    DivisionUnique(va, 0x2000, high * 0x8_0000 + g * 512 + t, low);
    DivisionUnique(Vpn2(va), 0x8_0000, high, g * 512 + t);
  }

  lemma SplitC(va: nat, high: nat, g: nat, t: nat, low: nat)
    requires Splits(va, high, g, t, low)
    ensures PgdIndex(va) == g && PtIndex(va) == 2 * t
  {
    DivisionUnique(va, 0x40_0000, high * 1024 + g, t * 0x2000 + low);
    DivisionUnique(high * 1024 + g, 1024, high, g);
    DivisionUnique(va, 0x1000, (high * 1024 + g) * 1024 + 2 * t + low / 0x1000, low % 0x1000);
    DivisionUnique(va / 0x1000, 1024, high * 1024 + g, 2 * t + low / 0x1000);
    DivisionUnique(va / 0x1000, 2, (high * 1024 + g) * 512 + t, low / 0x1000);
  }

  lemma SplitAsm(va: nat, high: nat, g: nat, t: nat, low: nat, pteBase: nat)
    requires Splits(va, high, g, t, low)
    ensures AsmPgdOffset(va) == 8 * g && AsmPtOffset(pteBase, va) == 16 * t
  {
    var rest := t * 0x2000 + low;
    DivisionUnique(va, 0x8_0000, (high * 1024 + g) * 8 + rest / 0x8_0000, rest % 0x8_0000);
    DivisionUnique(va / 0x8_0000, 0x2000, high, g * 8 + rest / 0x8_0000);
    DivisionUnique(va / 0x8_0000, 8, high * 1024 + g, rest / 0x8_0000);
    SplitVpn2(va, high, g, t, low);
    var c := Context(pteBase, va);
    DivisionUnique(c, 0x2000, pteBase * 1024 + g, t * 16);
    DivisionUnique(c, 8, (pteBase * 1024 + g) * 1024 + 2 * t, 0);
  }

  /** The assembly walk selects the very entry pair that the C walk selects, whatever PTEBase holds. */
  lemma WalksAgree(va: nat, pteBase: nat)
    ensures AsmPgdOffset(va) == 8 * PgdIndex(va)
    ensures AsmPtOffset(pteBase, va) == 8 * PtIndex(va) && AsmPtOffset(pteBase, va) + 8 == 8 * (PtIndex(va) + 1)
  {
    hide AsmPgdOffset, AsmPtOffset, PgdIndex, PtIndex;
    var high, g, t, low := Split(va);
    SplitC(va, high, g, t, low);
    SplitAsm(va, high, g, t, low, pteBase);
  }

  /** The pages of the low 4 GiB in order: table `x / 1024`, entry `x % 1024`. */
  const PAGES: nat := 0x10_0000

  /** The first of the pair of pages that one TLB entry maps. */
  function EvenPage(vpn2: nat): (x: nat)
    ensures x + 1 < PAGES && x % 2 == 0
  {
    vpn2 % 0x8_0000 * 2
  }

  /** Both indices come from the page number. */
  lemma WalkIsPage(va: nat)
    ensures var x := EvenPage(Vpn2(va));
            && PgdIndex(va) == x / NUM_ENTRY == (x + 1) / NUM_ENTRY
            && PtIndex(va) == x % NUM_ENTRY && PtIndex(va) + 1 == (x + 1) % NUM_ENTRY
  {
    hide PgdIndex, PtIndex, Vpn2;
    var high, g, t, low := Split(va);
    SplitC(va, high, g, t, low);
    SplitVpn2(va, high, g, t, low);
    DivisionUnique(g * 1024 + 2 * t, 1024, g, 2 * t);
    DivisionUnique(g * 1024 + 2 * t + 1, 1024, g, 2 * t + 1);
  }

  /** Two addresses share a table entry pair exactly when their VPN2 agree in the 19 bits a walk looks
      at; below 4 GiB that is exactly when they lie in the same pair of pages. */
  lemma WalkInjective(va: nat, vb: nat)
    ensures PgdIndex(va) == PgdIndex(vb) && PtIndex(va) == PtIndex(vb) <==> Vpn2(va) % 0x8_0000 == Vpn2(vb) % 0x8_0000
    ensures va < 0x1_0000_0000 && vb < 0x1_0000_0000 ==>
              (PgdIndex(va) == PgdIndex(vb) && PtIndex(va) == PtIndex(vb) <==> va / 0x2000 == vb / 0x2000)
  {
    hide PgdIndex, PtIndex;
    var ha, ga, ta, la := Split(va);
    var hb, gb, tb, lb := Split(vb);
    SplitC(va, ha, ga, ta, la);
    SplitC(vb, hb, gb, tb, lb);
    SplitVpn2(va, ha, ga, ta, la);
    SplitVpn2(vb, hb, gb, tb, lb);
  }

  // ----- packed entries -----

  /** ENTRYLO(pfn, c, d, v, g): the fields do not overlap, so or is plus. */
  function EntryLo(pfn: nat, c: nat, d: nat, v: nat, g: nat): nat {
    pfn % 0x100_0000 * 64 + c % 8 * 8 + d % 2 * 4 + v % 2 * 2 + g % 2
  }

  /** What do_page_fault stores for a frame. */
  function Pack(phys: nat): nat {
    EntryLo(phys / PAGE, 2, 1, 1, 0)
  }

  /** pte & 0x2. */
  function PteValid(pte: nat): bool {
    pte / 2 % 2 == 1
  }

  /** ((pte >> 6) & 0xFFFFFF) << 12, which free_proc computes and the hardware uses. */
  function FrameOf(pte: nat): nat {
    pte / 64 % 0x100_0000 * PAGE
  }

  /** free_proc recovers a frame exactly when it is aligned and has a 24-bit number. */
  lemma PackExact(phys: nat)
    ensures PteValid(Pack(phys)) && Pack(phys) % 2 == 0
    ensures FrameOf(Pack(phys)) == phys <==> phys % PAGE == 0 && phys < PHYS_LIMIT
  {
    var q := phys / PAGE;
    var n := q % 0x100_0000;
    DivisionUnique(Pack(phys), 64, n, 22);
    DivisionUnique(Pack(phys), 2, n * 32 + 11, 0);
    DivisionUnique(n * 32 + 11, 2, n * 16 + 5, 1);
    assert phys == q * PAGE + phys % PAGE;
    assert n == q <==> phys < PHYS_LIMIT;
  }

  // What the hardware reads in an entry besides the frame and the valid bit.

  predicate Writable(pte: nat) {
    pte / 4 % 2 == 1
  }

  predicate Global(pte: nat) {
    pte % 2 == 1
  }

  function CacheAttr(pte: nat): nat {
    pte / 8 % 8
  }

  /** Every frame is entered valid, writable, with cache attribute 2 and for its own address space only, and its
      number stands from bit 6 on. */
  lemma PackFields(phys: nat)
    ensures var pte := Pack(phys);
            && PteValid(pte) && Writable(pte) && !Global(pte) && CacheAttr(pte) == 2
            && pte / 64 == phys / PAGE % 0x100_0000
  {
    var n := phys / PAGE % 0x100_0000;
    var pte := Pack(phys);
    assert pte == n * 64 + 22;
    DivisionUnique(pte, 64, n, 22);
    DivisionUnique(pte, 8, n * 8 + 2, 6);
    DivisionUnique(n * 8 + 2, 8, n, 2);
    DivisionUnique(pte, 4, n * 16 + 5, 2);
    DivisionUnique(n * 16 + 5, 2, n * 8 + 2, 1);
    DivisionUnique(pte, 2, n * 32 + 11, 0);
    DivisionUnique(n * 32 + 11, 2, n * 16 + 5, 1);
  }

  lemma ZeroInvalid()
    ensures !PteValid(0)
  {
  }

  /** ENTRYHI(0, vpn2, pid). */
  function EntryHi(vpn2: nat, pid: nat): nat {
    vpn2 % 0x800_0000 * 0x2000 + pid % ASIDS
  }

  /** The register keeps a 40-bit address's VPN2 whole, and of a pid its low byte. */
  lemma EntryHiExact(vpn2: nat, pid: nat)
    ensures EntryHi(vpn2, pid) % 0x2000 == pid % ASIDS
    ensures EntryHi(vpn2, pid) / 0x2000 == vpn2 <==> vpn2 < VA_LIMIT / 0x2000
  {
  }
}
