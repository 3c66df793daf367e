/** Address arithmetic and descriptor bit patterns of include/mmu.h, include/memlayout.h and
    include/pmap.h, and the section map that init_boot_pgdir writes.

    A 32-bit descriptor is kept as its upper twenty bits (a number) and its lower twelve bits
    (a bit vector), so that masks on the flag bits are the source's own and page numbers stay
    arithmetic. */
module Mmu {

  const BY2PG := 0x1000
  const PDMAP := 0x100000
  const DRAMBASE := 0x4000_0000
  const DRAMSIZE := 0x4000_0000
  const ULIM := 0x8000_0000
  const UTOP := ULIM - 3 * PDMAP
  const IOVABASE := 0xC000_0000
  const IOPABASE := 0x01C0_0000
  const IOPATOP := 0x01D0_0000
  const FOURGIG := 0x1_0000_0000
  const PPN_DRAM := DRAMBASE / BY2PG

  const E_UNSPECIFIED := 1
  const E_BAD_ENV := 2
  const E_INVAL := 3
  const E_NO_MEM := 4
  const E_NO_FREE_ENV := 5
  const E_IPC_NOT_RECV := 6

  datatype Word = Word(hi: nat, lo: bv12) {
    predicate Fits() { hi < 0x10_0000 }
  }

  const ZERO := Word(0, 0)

  const PTE_V: bv12 := 0x42A
  const PTE_R: bv12 := 0x030
  const PDE_PAGE_TABLE: bv12 := 0x021

  function PDX(va: nat): nat { va / PDMAP % 0x1000 }
  function PTX(va: nat): nat { va / BY2PG % 0x100 }
  function VPN(va: nat): nat { va / BY2PG }
  function RoundDown(va: nat): nat { va - va % BY2PG }

  /** The user and supervisor windows that are mapped by sections, never by page tables. */
  predicate SectionMapped(va: nat) {
    ULIM <= va < ULIM + DRAMSIZE || IOVABASE <= va < IOVABASE - IOPABASE + IOPATOP
  }

  /** page2pa(pp) with flag bits or-ed in: the physical base has its low twelve bits clear. */
  function Descriptor(frame: nat, flags: bv12): Word { Word(frame + PPN_DRAM, flags) }

  /** pa2page: PPN(pa - DRAMBASE), with the subtraction of a 32-bit word. */
  function FrameOf(w: Word): nat
    requires w.Fits()
  {
    if w.hi >= PPN_DRAM then w.hi - PPN_DRAM else w.hi + 0x10_0000 - PPN_DRAM
  }

  /** The bit of n with this weight. */
  predicate BitSet(n: nat, weight: nat)
    requires weight > 0
  {
    n / weight % 2 == 1
  }

  /** (w & 0x50402) == 0x50402, (w & 0x10402) == 0x10402 and (w & 0x21) == 0x21. */
  predicate IsSuperSection(w: Word) { w.lo & 0x402 == 0x402 && BitSet(w.hi, 0x10) && BitSet(w.hi, 0x40) }
  predicate IsSection(w: Word) { w.lo & 0x402 == 0x402 && BitSet(w.hi, 0x10) }
  predicate IsTable(w: Word) { w.lo & PDE_PAGE_TABLE == PDE_PAGE_TABLE }

  /** (PDX, PTX) numbers the virtual pages one to one. */
  lemma PageNumberSplit(va: nat)
    requires va < FOURGIG
    ensures PDX(va) < 0x1000 && PTX(va) < 0x100
    ensures VPN(va) == PDX(va) * 0x100 + PTX(va)
    ensures VPN(va) / 0x100 == PDX(va) && VPN(va) % 0x100 == PTX(va)
  {}

  lemma PageNumberJoin(pdx: nat, ptx: nat)
    requires pdx < 0x1000 && ptx < 0x100
    ensures var va := pdx * PDMAP + ptx * BY2PG;
            va < FOURGIG && PDX(va) == pdx && PTX(va) == ptx && VPN(va) == pdx * 0x100 + ptx
  {
    var va := pdx * PDMAP + ptx * BY2PG;
    assert va / BY2PG == pdx * 0x100 + ptx;
    assert va / PDMAP == pdx;
  }

  /** A descriptor built from a frame gives the frame and its flags back. */
  lemma DescriptorRoundTrip(frame: nat, flags: bv12)
    requires frame < DRAMSIZE / BY2PG
    ensures Descriptor(frame, flags).Fits()
    ensures FrameOf(Descriptor(frame, flags)) == frame
    ensures Descriptor(frame, flags).lo == flags
  {}

  /** What pgdir_walk writes is a page table and never reads back as a section of either size;
      env_free's test of the same word against PTE_V also succeeds. */
  lemma TableIsNoSection(frame: nat)
    ensures var w := Descriptor(frame, PDE_PAGE_TABLE);
            IsTable(w) && !IsSection(w) && !IsSuperSection(w) && w != ZERO
    ensures PDE_PAGE_TABLE & PTE_V != 0
  {
    assert PDE_PAGE_TABLE & 0x402 != 0x402;
  }

  lemma ValidFlags(perm: bv12)
    ensures (perm | PTE_V) & PTE_V == PTE_V && (perm | PTE_V) & PTE_V != 0
    ensures (perm | PTE_V) | PTE_V == perm | PTE_V
  {}

  /* ---------- the boot directory ---------- */

  /** ((pa) & 0xFF000000) | PDE_SUPER_SECTION_C and pa | PDE_SECTION_DEV for a section-aligned pa. */
  function SuperSectionWord(pa: nat): Word { Word(pa / 0x100_0000 * 0x1000 + 0x50, 0x40A) }
  function DeviceWord(pa: nat): Word { Word(pa / BY2PG + 0x10, 0x406) }

  /** Entry i of the boot directory once init_boot_pgdir has run. */
  function BootEntry(i: nat): Word {
    if 0x800 <= i < 0xC00 then SuperSectionWord((i - 0x800) * PDMAP + DRAMBASE)
    else if i == 0xC00 then DeviceWord(IOPABASE)
    else ZERO
  }

  /** boot_pgdir's static initialiser sets only entries the loops overwrite, so the entries
      from 0xC01 up start and stay zero. */
  method InitBootPgdir(pgdir: array<Word>)
    requires pgdir.Length == 0x1000
    requires forall i :: 0xC01 <= i < 0x1000 ==> pgdir[i] == ZERO
    modifies pgdir
    ensures forall i :: 0 <= i < 0x1000 ==> pgdir[i] == BootEntry(i)
  {
    var i := 0;
    while i < ULIM
      invariant i % PDMAP == 0 && i <= ULIM
      invariant forall j :: 0 <= j < i / PDMAP ==> pgdir[j] == ZERO
      invariant forall j :: 0xC01 <= j < 0x1000 ==> pgdir[j] == ZERO
    {
      pgdir[PDX(i)] := ZERO;
      i := i + PDMAP;
    }
    i := 0;
    while i < DRAMSIZE
      invariant i % PDMAP == 0 && i <= DRAMSIZE
      invariant forall j :: 0 <= j < 0x800 || 0xC01 <= j < 0x1000 ==> pgdir[j] == ZERO
      invariant forall j :: 0x800 <= j < 0x800 + i / PDMAP ==> pgdir[j] == BootEntry(j)
    {
      assert PDX(i + ULIM) == 0x800 + i / PDMAP;
      pgdir[PDX(i + ULIM)] := SuperSectionWord(i + DRAMBASE);
      i := i + PDMAP;
    }
    i := IOPABASE;
    while i < IOPATOP
      invariant i == IOPABASE || i == IOPATOP
      invariant forall j :: 0 <= j < 0x1000 && j != 0xC00 ==> pgdir[j] == BootEntry(j)
      invariant i == IOPATOP ==> pgdir[0xC00] == BootEntry(0xC00)
    {
      pgdir[PDX(i - IOPABASE + IOVABASE)] := DeviceWord(i);
      i := i + PDMAP;
    }
  }

  /** The section half of va2pa. */
  function SectionPa(w: Word, va: nat): nat
    requires IsSection(w)
  {
    if IsSuperSection(w) then w.hi / 0x1000 * 0x100_0000 + va % 0x100_0000
    else w.hi / 0x100 * 0x10_0000 + va % 0x10_0000
  }

  /** PADDR, for the addresses it does not reject. */
  function Paddr(kva: nat): nat
    requires ULIM <= kva
  {
    if kva < IOVABASE then kva - ULIM + DRAMBASE else kva - IOVABASE + IOPABASE
  }

  lemma SuperSectionArithmetic(q: nat, off: nat)
    requires q < 0x400 && off < PDMAP
    ensures var w := SuperSectionWord(q * PDMAP + DRAMBASE);
            w.hi / 0x1000 == q / 16 + 0x40 && w.hi / 16 % 2 == 1 && w.hi / 64 % 2 == 1
    ensures ((q + 0x800) * PDMAP + off) % 0x100_0000 == q % 16 * PDMAP + off
  {
    var s, r := q / 16, q % 16;
    assert (q * PDMAP + DRAMBASE) / 0x100_0000 == s + 0x40;
    assert (q + 0x800) * PDMAP + off == (s + 0x80) * 0x100_0000 + (r * PDMAP + off);
  }

  lemma DramSlot(i: nat, off: nat)
    requires 0x800 <= i < 0xC00 && off < PDMAP
    ensures var w, va := BootEntry(i), i * PDMAP + off;
            IsSection(w) && !IsTable(w) && SectionPa(w, va) == va - ULIM + DRAMBASE
  {
    SuperSectionArithmetic(i - 0x800, off);
  }

  lemma DeviceSlot(off: nat)
    requires off < PDMAP
    ensures var w := BootEntry(0xC00);
            IsSection(w) && !IsTable(w) && SectionPa(w, IOVABASE + off) == IOPABASE + off
  {
  }

  /** Every kernel and device address translates to PADDR of itself; no section entry reads as
      a page table, and every other boot entry is empty. */
  lemma BootMapIsPaddr(va: nat)
    requires va < FOURGIG
    ensures SectionMapped(va) ==>
              var w := BootEntry(PDX(va));
              IsSection(w) && !IsTable(w) && SectionPa(w, va) == Paddr(va)
    ensures !SectionMapped(va) ==> BootEntry(PDX(va)) == ZERO
  {
    var i, off := PDX(va), va % PDMAP;
    assert va == i * PDMAP + off && i == va / PDMAP;
    hide SectionPa, IsSection, BootEntry, IsTable;
    if ULIM <= va < ULIM + DRAMSIZE {
      DramSlot(i, off);
    } else if SectionMapped(va) {
      assert i == 0xC00 && va == IOVABASE + off;
      DeviceSlot(off);
    } else {
      EmptySlot(i);
    }
  }

  lemma EmptySlot(i: nat)
    requires i < 0x800 || i > 0xC00
    ensures BootEntry(i) == ZERO
  {}
}
