/** mm/pmap.c over physical memory: descriptor words, pp_ref counters and the free list.

    Row f of mem is the 16 KiB that start at frame f, as 4096 words. Only every fourth frame is
    ever handed out, so rows never overlap: a page table is the first 256 words of its row, a
    user page the first 1024, a directory all of them. The ghost field vm says what the words
    and counters mean; every method is specified by the step it makes on vm. */
module Pmap {
  import opened Mmu
  import opened Queue
  import opened Vm

  /** A Pte* : null, or word idx of the table in a frame. */
  datatype PtePtr = NoPte | Pte(frame: int, idx: nat)

  /** pp_ref is a u_short. */
  function Inc16(n: nat): nat { (n + 1) % 0x1_0000 }
  function Dec16(n: nat): nat { if n == 0 then 0xFFFF else n - 1 }

  ghost function PdeWord(vm: VM, k: Key): Word
    requires k.no >= 0
  {
    var o := Key(Owner(vm, k.dir, k.no), k.no);
    if o in vm.tables && vm.tables[o] >= 0 then Descriptor(vm.tables[o], PDE_PAGE_TABLE) else BootEntry(k.no)
  }

  ghost function PteWord(vm: VM, k: Key): Word {
    if k in vm.maps && vm.maps[k].frame >= 0 then Descriptor(vm.maps[k].frame, vm.maps[k].perm) else ZERO
  }

  /** The list that page_init builds: frames are pushed in ascending order. */
  function PushedFrames(l: nat, n: nat): seq<int>
    decreases n
  {
    if n <= l then [] else (if (n - 1) % 4 == 0 then [n - 1] else []) + PushedFrames(l, n - 1)
  }

  ghost function BootVm(npage: nat, l: nat, boot: nat): VM {
    VM(npage, l, boot, PushedFrames(l, npage),
       (map f: int | l <= f < npage && f % 4 == 0 :: Free)[VECTORS := Data],
       map[VECTORS := ZeroPage()], map[], map[], map[VECTORS := 1])
  }

  lemma {:induction false} PushedFramesAre(l: nat, n: nat)
    ensures NoDup(PushedFrames(l, n))
    ensures forall f :: f in PushedFrames(l, n) <==> l <= f < n && f % 4 == 0
    decreases n
  {
    if n > l {
      PushedFramesAre(l, n - 1);
      assert n - 1 !in PushedFrames(l, n - 1);
    }
  }

  /** The state page_init leaves: everything allocatable is free, nothing is held. */
  lemma BootVmInv(npage: nat, l: nat, boot: nat)
    requires 0 < boot < l <= npage <= DRAMSIZE / BY2PG
    ensures Inv(BootVm(npage, l, boot)) && OnlyBoot(BootVm(npage, l, boot))
    ensures BootVm(npage, l, boot).tables == map[] && BootVm(npage, l, boot).maps == map[]
    ensures forall f :: RefCount(BootVm(npage, l, boot), f) == if f == VECTORS then 1 else 0
  {
    PushedFramesAre(l, npage);
    var vm := BootVm(npage, l, boot);
    forall f ensures RefCount(vm, f) == if f == VECTORS then 1 else 0 {
      assert PteRefs(vm.maps, f) == {} && PdeRefs(vm.tables, f) == {};
    }
  }

  lemma WithoutHead(items: seq<nat>)
    requires NoDup(items) && items != []
    ensures Without(items, items[0]) == items[1..]
  {
    assert Index(items, items[0]) == 0;
    assert items == [items[0]] + items[1..];
  }

  class Pmap {
    const npage: nat
    const boot: nat                  // frame of boot_pgdir
    const pref: array<nat>
    const mem: array2<Word>
    const freeList: List
    ghost var vm: VM

    ghost const Repr: set<object>

    ghost predicate Shape()
      reads this
    {
      && pref.Length == npage && mem.Length0 == npage && mem.Length1 == 0x1000
      && freeList.next.Length == npage
      && (pref as object) != freeList.next
      && Repr == {this, pref, mem, freeList, freeList.next, freeList.prev}
      && vm.npage == npage && vm.boot == boot < npage
    }

    ghost predicate Counts()
      requires Shape()
      reads this, pref
    {
      forall f :: f in vm.role && 0 <= f < npage ==> pref[f] == RefCount(vm, f) && pref[f] < 0x1_0000
    }

    /** The words of directories, tables and user pages are exactly what vm says. */
    ghost predicate DirWords()
      requires Shape()
      reads this, mem
    {
      forall d, i :: IsDir(vm, d) && 0 <= d < npage && 0 <= i < 0x1000 ==> mem[d, i] == PdeWord(vm, Key(d, i))
    }

    ghost predicate TableWords()
      requires Shape()
      reads this, mem
    {
      forall t, j :: t in vm.role && vm.role[t].Table? && 0 <= t < npage && 0 <= j < 0x100 ==>
                       mem[t, j] == PteWord(vm, PteKey(vm.role[t].key, j))
    }

    ghost predicate DataWords()
      requires Shape()
      reads this, mem
    {
      forall p, j :: p in vm.data && 0 <= p < npage && 0 <= j < 0x400 && |vm.data[p]| == 0x400 ==>
          mem[p, j] == vm.data[p][j]
    }

    ghost predicate Valid()
      reads Repr, this, pref, mem, freeList, freeList.next, freeList.prev
    {
      && Shape() && Inv(vm) && freeList.Valid() && freeList.items == vm.free
      && Counts() && DirWords() && TableWords() && DataWords()
    }

    lemma ReprIs()
      requires Valid()
      ensures Repr == {this, pref, mem, freeList, freeList.next, freeList.prev} && Inv(vm) && vm.boot == boot
    {}

    /** page_init, with the boot directory as InitBootPgdir left it. The first l frames hold the
        kernel and the page array. */
    constructor (npage: nat, l: nat, boot: nat)
      requires 0 < boot < l <= npage <= DRAMSIZE / BY2PG
      ensures Valid() && fresh(Repr)
      ensures vm == BootVm(npage, l, boot)
    {
      this.npage, this.boot := npage, boot;
      var refs := new nat[npage](i => 0);
      this.pref := refs;
      var m := new Word[npage, 0x1000]((f, i) => if f == boot && i >= 0 then BootEntry(i) else ZERO);
      this.mem := m;
      var fl := new List(npage);
      this.freeList := fl;
      this.vm := BootVm(npage, l, boot);
      this.Repr := {this, refs, m, fl, fl.next, fl.prev};
      new;
      PageInit(l);
      BootVmInv(npage, l, boot);
      BootWords(npage, l, boot);
    }

    lemma BootWords(n: nat, l: nat, boot: nat)
      requires Shape() && n == npage && 0 < boot < l <= npage <= DRAMSIZE / BY2PG && vm == BootVm(n, l, boot)
      requires forall f, j :: 0 <= f < npage && 0 <= j < 0x1000 ==>
               mem[f, j] == if f == boot then BootEntry(j) else ZERO
      ensures DirWords() && TableWords() && DataWords()
    {}

    /** Frames below l are in use; the others get a zero count and every fourth is pushed. */
    method PageInit(l: nat)
      requires Shape() && l <= npage && freeList.Valid() && freeList.items == []
      modifies pref, freeList, freeList.next, freeList.prev
      ensures forall f :: 0 <= f < npage ==> pref[f] == if f < l then 1 else 0
      ensures freeList.Valid() && freeList.items == PushedFrames(l, npage)
    {
      var i := 0;
      while i < l
        invariant i <= l && freeList.Valid() && freeList.items == []
        invariant forall f :: 0 <= f < i ==> pref[f] == 1
      {
        pref[i] := 1;
        i := i + 1;
      }
      while i < npage
        invariant l <= i <= npage
        invariant forall f :: 0 <= f < i ==> pref[f] == if f < l then 1 else 0
        invariant freeList.Valid() && freeList.items == PushedFrames(l, i)
      {
        pref[i] := 0;
        PushedFramesAre(l, i);
        if i % 4 == 0 {
          freeList.InsertHead(i);
        }
        i := i + 1;
      }
    }

    /** bzero((void *)page2kva(pp), BY2PG). */
    method Bzero(f: nat)
      requires Shape() && f < npage
      modifies mem
      ensures forall g, j :: 0 <= g < npage && 0 <= j < 0x1000 ==>
                               mem[g, j] == if g == f && j < 0x400 then ZERO else old(mem[g, j])
    {
      var k := 0;
      while k < 0x400
        invariant k <= 0x400
        invariant forall g, j :: 0 <= g < npage && 0 <= j < 0x1000 ==>
                                   mem[g, j] == if g == f && j < k then ZERO else old(mem[g, j])
      {
        mem[f, k] := ZERO;
        k := k + 1;
      }
    }

    method PageAlloc() returns (r: int, pp: int)
      requires Valid()
      modifies Repr
      ensures Valid()
      ensures old(vm.free) == [] ==> r == -E_NO_MEM && vm == old(vm)
      ensures old(vm.free) != [] ==> r == 0 && pp == old(vm.free[0]) && vm == Alloc(old(vm))
    {
      hide Inv, RefCount, Handed, PdeWord, PteWord, List.Valid;
      pp := freeList.First();
      if pp == NULL {
        r := -E_NO_MEM;
        return;
      }
      HeadIsFree(vm);
      RowsDisjoint(vm);
      WithoutHead(freeList.items);
      AllocKeeps(vm);
      RowsDisjoint(Alloc(vm));
      SameWords(vm, Alloc(vm));
      freeList.Remove(pp);
      Bzero(pp);
      vm := Alloc(vm);
      assert Counts();
      assert DirWords();
      assert TableWords();
      assert DataWords();
      r := 0;
    }

    /** page_free looks only at the counter. */
    method PageFree(pp: nat)
      requires Shape() && freeList.Valid() && pp < npage
      requires pref[pp] == 0 ==> pp !in freeList.items
      modifies freeList, freeList.next, freeList.prev
      ensures freeList.Valid()
      ensures freeList.items == if pref[pp] == 0 then [pp] + old(freeList.items) else old(freeList.items)
    {
      if pref[pp] > 0 {
        return;
      }
      freeList.InsertHead(pp);
    }

    /** The page table entry of va, as vm sees it. */
    ghost function WalkResult(v: VM, d: int, va: nat): PtePtr {
      if SlotOf(v, d, va) in v.tables then Pte(v.tables[SlotOf(v, d, va)], PTX(va)) else NoPte
    }

    /** The store of a new page table into its directory entry; v is the state before page_alloc. */
    method InstallTable(ghost v: VM, d: int, i: nat, pp: int)
      requires Valid() && Inv(v) && v.free != [] && vm == Alloc(v) && pp == v.free[0]
      requires MayAdd(v, Key(d, i)) && Key(d, i) !in v.tables
      modifies Repr
      ensures Valid() && vm == AddTable(v, Key(d, i))
    {
      hide Inv, RefCount, Handed;
      ghost var k := Key(d, i);
      AllocKeeps(v);
      AddTableKeeps(v, k);
      FreshTable(v, k);
      DirInRange(vm, d);
      DataInRange(vm, pp);
      RowsDisjoint(v);
      RowsDisjoint(vm);
      AddedPdes(v, k);
      mem[d, i] := Descriptor(pp, PDE_PAGE_TABLE);
      pref[pp] := Inc16(pref[pp]);
      vm := AddTable(v, k);
      assert Counts();
      assert DirWords();
      assert TableWords();
      assert DataWords();
    }

    method PgdirWalk(d: int, va: nat, create: bool) returns (r: int, pte: PtePtr)
      requires Valid() && IsDir(vm, d) && va < FOURGIG
      requires create && d == vm.boot && va >= UTOP ==> va >= ULIM && (SlotOf(vm, d, va) in vm.tables || OnlyBoot(vm))
      modifies Repr
      ensures Valid()
      ensures SectionMapped(va) ==> r == -E_INVAL && vm == old(vm)
      ensures !SectionMapped(va) && (!create || SlotOf(old(vm), d, va) in old(vm.tables)) ==>
                r == 0 && vm == old(vm) && pte == WalkResult(vm, d, va)
      ensures !SectionMapped(va) && create && SlotOf(old(vm), d, va) !in old(vm.tables) && old(vm.free) == [] ==>
                r == -E_NO_MEM && vm == old(vm) && pte == NoPte
      ensures !SectionMapped(va) && create && SlotOf(old(vm), d, va) !in old(vm.tables) && old(vm.free) != [] ==>
                r == 0 && vm == AddTable(old(vm), SlotOf(old(vm), d, va)) && pte == WalkResult(vm, d, va)
    {
      pte := NoPte;
      if SectionMapped(va) {
        return -E_INVAL, NoPte;
      }
      hide OnlyBoot, Inv, Owner, Counts, DirWords, TableWords, DataWords;
      ghost var v, k := vm, SlotOf(vm, d, va);
      PageNumberSplit(va);
      SlotOutsideSections(va);
      DirInRange(vm, d);
      ReadPde(Key(d, PDX(va)));
      var table := FrameOf(mem[d, PDX(va)]);
      if !IsTable(mem[d, PDX(va)]) {
        if create {
          var e, pp := PageAlloc();
          if e < 0 {
            return -E_NO_MEM, NoPte;
          }
          table := pp;
          SlotMayAdd(v, d, va);
          InstallTable(v, d, PDX(va), pp);
          AddedSlot(v, d, va);
        } else {
          return 0, NoPte;
        }
      }
      return 0, Pte(table, PTX(va));
    }

    lemma ReadPde(k: Key)
      requires Valid() && IsDir(vm, k.dir) && 0 <= k.no < 0x1000 && !(0x800 <= k.no <= 0xC00)
      ensures 0 <= k.dir < npage
      ensures mem[k.dir, k.no].Fits()
      ensures var o := Key(Owner(vm, k.dir, k.no), k.no);
              if o in vm.tables then 0 <= vm.tables[o] < npage && IsTable(mem[k.dir, k.no])
                  && FrameOf(mem[k.dir, k.no]) == vm.tables[o]
              else mem[k.dir, k.no] == ZERO && !IsTable(mem[k.dir, k.no])
    {
      var o := Key(Owner(vm, k.dir, k.no), k.no);
      DirInRange(vm, k.dir);
      assert mem[k.dir, k.no] == PdeWord(vm, k);
      if o in vm.tables {
        TableInRange(vm, o);
        DescriptorRoundTrip(vm.tables[o], PDE_PAGE_TABLE);
        TableIsNoSection(vm.tables[o]);
      }
    }

    lemma ReadPte(t: Key, j: nat)
      requires Valid() && t in vm.tables && 0 <= j < 0x100
      ensures 0 <= vm.tables[t] < npage
      ensures var w, k := mem[vm.tables[t], j], PteKey(t, j);
              && w.Fits()
              && (k in vm.maps ==> w.lo & PTE_V != 0 && w == Descriptor(vm.maps[k].frame, vm.maps[k].perm)
                                   && FrameOf(w) == vm.maps[k].frame && 0 <= vm.maps[k].frame < npage)
              && (k !in vm.maps ==> w == ZERO && w.lo & PTE_V == 0)
    {
      hide Inv;
      TableInRange(vm, t);
      var k := PteKey(t, j);
      assert mem[vm.tables[t], j] == PteWord(vm, k);
      if k in vm.maps {
        MappedHasTable(vm, k);
        DataInRange(vm, vm.maps[k].frame);
        EntryPerm(vm, k);
        DescriptorRoundTrip(vm.maps[k].frame, vm.maps[k].perm);
        assert vm.maps[k].perm & PTE_V != 0 by { ValidFlags(vm.maps[k].perm); }
      }
    }

    /** page_lookup: the frame mapped at va, or NULL. */
    method PageLookup(d: int, va: nat) returns (pp: int, pte: PtePtr)
      requires Valid() && IsDir(vm, d) && va < FOURGIG
      modifies Repr
      ensures Valid() && vm == old(vm)
      ensures pp == Lookup(vm, d, va)
      ensures pp != NULL ==> pte == WalkResult(vm, d, va) && pte.Pte? && !SectionMapped(va)
    {
      hide Inv, RefCount, Handed, Counts, DirWords, TableWords, DataWords, Owner;
      PageKeys(vm, d, va);
      PageNumberSplit(va);
      if PageOf(vm, d, va) in vm.maps { MappedHasTable(vm, PageOf(vm, d, va)); }
      hide VPN, PDX, PTX, TableKey, PteKey;
      if SectionMapped(va) {
        return NULL, NoPte;
      }
      var r;
      r, pte := PgdirWalk(d, va, false);
      if pte == NoPte {
        return NULL, NoPte;
      }
      ReadPte(SlotOf(vm, d, va), PTX(va));
      if mem[pte.frame, pte.idx].lo & PTE_V == 0 {
        return NULL, NoPte;
      }
      pp := FrameOf(mem[pte.frame, pte.idx]);
    }

    method PageRemove(d: int, va: nat)
      requires Valid() && IsDir(vm, d) && va < FOURGIG
      modifies Repr
      ensures Valid() && vm == Remove(old(vm), PageOf(old(vm), d, va))
    {
      hide Owner, RefCount, Counts, DirWords, TableWords, DataWords;
      PageNumberSplit(va);
      PageKeys(vm, d, va);
      ghost var k := PageOf(vm, d, va);
      if k !in vm.maps {
        RemoveAbsent(vm, k);
      } else {
        MappedHasTable(vm, k);
        DataInRange(vm, vm.maps[k].frame);
      }
      if SectionMapped(va) {
        return;
      }
      var pp, pte := PageLookup(d, va);
      if pp == NULL {
        return;
      }
      DropEntry(k, pp, pte);
    }

    /** Steps 2 and 3 of page_remove. */
    method DropEntry(ghost k: Key, pp: int, pte: PtePtr)
      requires Valid() && k in vm.maps && pp == vm.maps[k].frame && 0 <= k.no
      requires TableKey(k) in vm.tables && pte == Pte(vm.tables[TableKey(k)], k.no % 0x100)
      modifies Repr
      ensures Valid() && vm == Remove(old(vm), k)
    {
      hide Inv, RefCount, Handed, PdeWord, PteWord, List.Valid;
      MappedHasTable(vm, k);
      DataInRange(vm, pp);
      TableInRange(vm, TableKey(k));
      RowsDisjoint(vm);
      UnmapKeeps(vm, k);
      RemoveKeeps(vm, k);
      FreeRole(vm, pp);
      RemovedWords(vm, k);
      PteKeys();
      pref[pp] := Dec16(pref[pp]);
      if pref[pp] == 0 {
        PageFree(pp);
      }
      mem[pte.frame, pte.idx] := ZERO;
      vm := Remove(vm, k);
      RowsDisjoint(vm);
      assert Counts();
      assert DirWords();
      assert TableWords();
      assert DataWords();
    }

    /** The store of an entry, and pp_ref++ unless the page already maps pp. */
    method WriteEntry(ghost k: Key, pte: PtePtr, pp: int, flags: bv12, counted: bool)
      requires Valid() && 0 <= k.no && TableKey(k) in vm.tables
      requires pte == Pte(vm.tables[TableKey(k)], k.no % 0x100)
      requires pp in vm.data && flags & PTE_V == PTE_V
      requires if counted then Maps(vm, k, pp) else k !in vm.maps && RefCount(vm, pp) < 0xFFFF
      modifies Repr
      ensures Valid() && vm == SetEntry(old(vm), k, Entry(pp, flags))
    {
      hide Inv, RefCount, Handed;
      DataInRange(vm, pp);
      TableInRange(vm, TableKey(k));
      RowsDisjoint(vm);
      PteKeys();
      SetEntryKeeps(vm, k, Entry(pp, flags));
      mem[pte.frame, pte.idx] := Descriptor(pp, flags);
      if !counted {
        pref[pp] := Inc16(pref[pp]);
      }
      vm := SetEntry(vm, k, Entry(pp, flags));
      assert Counts();
      assert DirWords();
      assert TableWords();
      assert DataWords();
    }

    method PageInsert(d: int, pp: int, va: nat, perm: bv12) returns (r: int)
      requires Valid() && InsertFits(vm, d, pp, va)
      requires RefCount(vm, pp) < 0xFFFF
      modifies Repr
      ensures Valid() && (vm, r) == Insert(old(vm), d, pp, va, perm)
    {
      if SectionMapped(va) {
        return -E_INVAL;
      }
      PageNumberSplit(va);
      ghost var k, t, v0 := PageOf(vm, d, va), SlotOf(vm, d, va), vm;
      PageKeys(vm, d, va);
      InsertCases(vm, d, pp, va, perm);
      ValidFlags(perm);
      hide Inv, RefCount, Handed, Remove, Insert, InsertFits, VPN, PDX, PTX, TableKey, PteKey, SectionMapped, Owner,
           PageOf, SlotOf, OnlyBoot;
      if k in vm.maps { MappedHasTable(vm, k); }
      var e, pte := PgdirWalk(d, va, false);
      if pte != NoPte {
        ReadPte(t, PTX(va));
        if mem[pte.frame, pte.idx].lo & PTE_V != 0 {
          if FrameOf(mem[pte.frame, pte.idx]) != pp {
            PageRemove(d, va);
          } else {
            WriteEntry(k, pte, pp, perm | PTE_V, true);
            return 0;
          }
        }
      }
      AfterRemove(v0, d, pp, va);
      assert vm == Remove(v0, k);
      r := EnterPage(d, pp, va, perm | PTE_V);
    }

    /** Step 3 of page_insert: re-get the entry, now creating its table, and store it. */
    method EnterPage(d: int, pp: int, va: nat, flags: bv12) returns (r: int)
      requires Valid() && InsertFits(vm, d, pp, va) && !SectionMapped(va)
      requires PageOf(vm, d, va) !in vm.maps && RefCount(vm, pp) < 0xFFFF && flags & PTE_V == PTE_V
      modifies Repr
      ensures Valid()
      ensures var v, k, t, e := old(vm), PageOf(old(vm), d, va), SlotOf(old(vm), d, va), Entry(pp, flags);
              if t in v.tables then vm == SetEntry(v, k, e) && r == 0
              else if v.free == [] then vm == v && r == -E_NO_MEM
              else vm == SetEntry(AddTable(v, t), k, e) && r == 0
    {
      hide Inv, RefCount, Handed, Owner, OnlyBoot, Counts, DirWords, TableWords, DataWords;
      PageNumberSplit(va);
      SlotOutsideSections(va);
      PageKeys(vm, d, va);
      ghost var v := vm;
      var e, pte := PgdirWalk(d, va, true);
      if e < 0 {
        return e;
      }
      if SlotOf(v, d, va) !in v.tables { SlotMayAdd(v, d, va); AddedSlot(v, d, va); }
      DataStays(v, SlotOf(v, d, va), pp);
      WriteEntry(PageOf(v, d, va), pte, pp, flags, false);
      return 0;
    }

    /** va2pa: the section windows go to PADDR, mapped pages to their frame, all else to ~0. */
    method Va2Pa(d: int, va: nat) returns (pa: nat)
      requires Valid() && IsDir(vm, d) && va < FOURGIG
      ensures pa == if SectionMapped(va) then Paddr(va)
                    else if Lookup(vm, d, va) != NULL then (Lookup(vm, d, va) + PPN_DRAM) * BY2PG + va % BY2PG
                    else 0xFFFF_FFFF
    {
      hide Inv, RefCount, Counts, DataWords;
      ghost var t, k := SlotOf(vm, d, va), PageOf(vm, d, va);
      PageKeys(vm, d, va);
      DirInRange(vm, d);
      BootMapIsPaddr(va);
      if t in vm.tables { TableIsSlot(vm, t); TableInRange(vm, t); }
      if k in vm.maps { MappedHasTable(vm, k); DataInRange(vm, vm.maps[k].frame); }
      SectionSlot(va);
      assert mem[d, PDX(va)] == PdeWord(vm, Key(d, PDX(va)));
      hide SectionMapped, VPN, PDX, PTX, BootEntry, Paddr, IsSection, SectionPa, TableWords, Owner;
      var pde := mem[d, PDX(va)];
      if t in vm.tables { TableIsNoSection(vm.tables[t]); }
      ZeroIsNothing();
      if IsSection(pde) {
        return SectionPa(pde, va);
      }
      if IsTable(pde) {
        ReadPde(Key(d, PDX(va)));
        ReadPte(t, PTX(va));
        var table := FrameOf(pde);
        if mem[table, PTX(va)].lo & PTE_V == 0 {
          return 0xFFFF_FFFF;
        }
        return mem[table, PTX(va)].hi * BY2PG + va % BY2PG;
      }
      return 0xFFFF_FFFF;
    }

    /** ++pp->pp_ref, as load_icode_mapper and pageout do before they map the page. */
    method PagePin(pp: int)
      requires Valid() && pp in vm.data && RefCount(vm, pp) < 0xFFFF
      modifies Repr
      ensures Valid() && vm == Pin(old(vm), pp)
    {
      hide Inv, RefCount, Handed;
      DataInRange(vm, pp);
      PinKeeps(vm, pp);
      pref[pp] := Inc16(pref[pp]);
      vm := Pin(vm, pp);
      assert Counts();
      assert DirWords();
      assert TableWords();
      assert DataWords();
    }

    /** A store through the kernel address of a user page. */
    method StoreWord(pp: int, k: nat, w: Word)
      requires Valid() && pp in vm.data && k < 0x400
      modifies Repr
      ensures Valid() && pp in old(vm.data) && k < |old(vm.data)[pp]| && vm == Store(old(vm), pp, k, w)
    {
      hide Inv, RefCount, Handed;
      DataInRange(vm, pp);
      RowsDisjoint(vm);
      StoreKeeps(vm, pp, k, w);
      mem[pp, k] := w;
      vm := Store(vm, pp, k, w);
      assert Counts();
      assert DirWords();
      assert TableWords();
      assert DataWords();
    }

    /** env_setup_vm: a fresh chunk becomes a directory, empty below UTOP and a copy of the boot
        directory above. (A failed page_alloc is a kernel panic; it is the result -E_NO_MEM.) */
    method SetupVm() returns (r: int, d: int)
      requires Valid()
      modifies Repr
      ensures Valid()
      ensures old(vm.free) == [] ==> r == -E_NO_MEM && vm == old(vm)
      ensures old(vm.free) != [] ==> r == 0 && d == old(vm.free[0]) && vm == NewDir(old(vm))
    {
      ghost var v := vm;
      r, d := PageAlloc();
      if r < 0 {
        return;
      }
      BecomeDirectory(v, d);
    }

    /** env_setup_vm after its page_alloc; v is the state before. */
    method BecomeDirectory(ghost v: VM, d: int)
      requires Valid() && Inv(v) && v.free != [] && vm == Alloc(v) && d == v.free[0]
      modifies Repr
      ensures Valid() && vm == NewDir(v)
    {
      hide Inv, RefCount, Handed;
      HeadIsFree(v);
      AllocKeeps(v);
      NewDirKeeps(v);
      DataInRange(vm, d);
      RowsDisjoint(v);
      NewDirPdes(v);
      pref[d] := Inc16(pref[d]);
      FillDirectory(d);
      vm := NewDir(v);
      FreshDirectory(v);
      RowsDisjoint(vm);
      assert Counts();
      assert DirWords();
      assert TableWords();
      assert DataWords();
    }

    /** The two loops of env_setup_vm. */
    method FillDirectory(d: int)
      requires Shape() && 0 <= d < npage && d != boot
      modifies mem
      ensures forall g, j :: 0 <= g < npage && g != d && 0 <= j < 0x1000 ==> mem[g, j] == old(mem[g, j])
      ensures forall j :: 0 <= j < 0x1000 ==> mem[d, j] == if j < UTOP_PDX then ZERO else old(mem[boot, j])
    {
      var i := 0;
      while i < UTOP_PDX
        invariant i <= UTOP_PDX
        invariant forall g, j :: 0 <= g < npage && g != d && 0 <= j < 0x1000 ==> mem[g, j] == old(mem[g, j])
        invariant forall j :: 0 <= j < i ==> mem[d, j] == ZERO
      {
        mem[d, i] := ZERO;
        i := i + 1;
      }
      while i < 0x1000
        invariant UTOP_PDX <= i <= 0x1000
        invariant forall g, j :: 0 <= g < npage && g != d && 0 <= j < 0x1000 ==> mem[g, j] == old(mem[g, j])
        invariant forall j :: 0 <= j < i ==> mem[d, j] == if j < UTOP_PDX then ZERO else old(mem[boot, j])
      {
        mem[d, i] := mem[boot, i];
        i := i + 1;
      }
    }

    /** page_decref: one holder less, and the frame is freed with the last one. */
    method PageDecref(pp: nat)
      requires Shape() && freeList.Valid() && pp < npage && pref[pp] > 0 && pp !in freeList.items
      modifies pref, freeList, freeList.next, freeList.prev
      ensures freeList.Valid()
      ensures pref[pp] == old(pref[pp]) - 1
      ensures forall f :: 0 <= f < npage && f != pp ==> pref[f] == old(pref[f])
      ensures freeList.items == if pref[pp] == 0 then [pp] + old(freeList.items) else old(freeList.items)
    {
      pref[pp] := Dec16(pref[pp]);
      if pref[pp] == 0 {
        PageFree(pp);
      }
    }

    /** The end of env_free's outer loop body: clear the directory entry, drop the table. */
    method ReleaseTable(d: int, i: nat, t: nat)
      requires Valid() && IsDir(vm, d) && i < 0x1000 && Key(d, i) in vm.tables && vm.tables[Key(d, i)] == t
      requires i < UTOP_PDX && forall k :: k in vm.maps ==> TableKey(k) != Key(d, i)
      modifies Repr
      ensures Valid() && vm == DropTable(old(vm), Key(d, i))
    {
      hide Inv, RefCount, Handed, PdeWord, PteWord;
      ghost var k := Key(d, i);
      DirInRange(vm, d);
      TableInRange(vm, k);
      RowsDisjoint(vm);
      TableCounts(vm, k);
      DropTableKeeps(vm, k);
      DroppedTable(vm, k);
      mem[d, i] := ZERO;
      PageDecref(t);
      vm := DropTable(vm, k);
      FreeCounts(vm, t);
      RowsDisjoint(vm);
      assert Counts();
      assert DirWords();
      assert TableWords();
      assert DataWords();
    }

    /** The loops of env_free over the user half of a directory. */
    method FreeUserTables(d: int)
      requires Valid() && IsDir(vm, d) && d != vm.boot
      modifies Repr
      ensures Valid() && vm == FreeTables(old(vm), d, UTOP_PDX)
    {
      hide Inv, RefCount, Handed, Counts, DirWords, TableWords, DataWords, List.Valid;
      ghost var v := vm;
      ReprIs();
      var pdeno := 0;
      while pdeno < UTOP_PDX
        invariant pdeno <= UTOP_PDX && Valid()
        invariant vm == FreeTables(v, d, pdeno)
      {
        FreeTablesKeeps(v, d, pdeno);
        FreeOneTable(v, d, pdeno);
        pdeno := pdeno + 1;
      }
    }

    /** env_free's inner loop: unmap every valid entry of one table. */
    method ClearTable(ghost v: VM, d: int, pdeno: nat, pt: nat)
      requires Valid() && IsDir(vm, d) && Inv(v) && pdeno < UTOP_PDX && Cleared(v, vm, d, pdeno * 0x100)
      requires Key(d, pdeno) in vm.tables && vm.tables[Key(d, pdeno)] == pt
      modifies Repr
      ensures Valid() && vm == ClearPtes(old(vm), d, pdeno, 0x100)
      ensures IsDir(vm, d) && Key(d, pdeno) in vm.tables && vm.tables[Key(d, pdeno)] == pt
    {
      hide Inv, Cleared, RefCount, Counts, DirWords, TableWords, DataWords, List.Valid;
      ghost var u, k := vm, Key(d, pdeno);
      var pteno := 0;
      while pteno < 0x100
        invariant pteno <= 0x100 && Valid() && vm == ClearPtes(u, d, pdeno, pteno)
        invariant IsDir(vm, d) && k in vm.tables && vm.tables[k] == pt
      {
        ClearPtesKeeps(v, u, d, pdeno, pteno);
        ReadPte(k, pteno);
        PageNumberJoin(pdeno, pteno);
        ghost var w := vm;
        RemoveRoles(w, Key(d, pdeno * 0x100 + pteno));
        RemoveKeeps(w, Key(d, pdeno * 0x100 + pteno));
        if mem[pt, pteno].lo & PTE_V != 0 {
          PageRemove(d, pdeno * PDMAP + pteno * BY2PG);
        } else {
          RemoveAbsent(w, Key(d, pdeno * 0x100 + pteno));
        }
        pteno := pteno + 1;
      }
    }

    /** One turn of env_free's outer loop. */
    method FreeOneTable(ghost v: VM, d: int, pdeno: nat)
      requires Valid() && IsDir(vm, d) && d != vm.boot && Inv(v) && pdeno < UTOP_PDX
      requires vm == FreeTables(v, d, pdeno) && Cleared(v, vm, d, pdeno * 0x100)
      modifies Repr
      ensures Valid() && vm == FreeTables(v, d, pdeno + 1)
    {
      hide Inv, Cleared, RefCount, Counts, DirWords, TableWords, DataWords;
      ghost var u, k := vm, Key(d, pdeno);
      DirInRange(vm, d);
      ReadPde(k);
      TableTest(mem[d, pdeno], k);
      if mem[d, pdeno].lo & PTE_V == 0 {
        return;
      }
      var pt := FrameOf(mem[d, pdeno]);
      ClearTable(v, d, pdeno, pt);
      ClearPtesKeeps(v, u, d, pdeno, 0x100);
      ClearedTable(v, vm, d, pdeno);
      ReleaseTable(d, pdeno, pt);
    }

    /** env_free's teardown: the loops, and page_decref of the directory itself. */
    method FreeDirectory(d: int)
      requires Valid() && IsDir(vm, d) && d != vm.boot
      modifies Repr
      ensures Valid() && vm == FreeDir(old(vm), d)
    {
      hide Inv, RefCount, Counts, DirWords, TableWords, DataWords, FreeTables, DropDir;
      ghost var v := vm;
      FreeUserTables(d);
      FreeTablesKeeps(v, d, UTOP_PDX);
      ReleaseDirectory(d);
    }

    method ReleaseDirectory(d: int)
      requires Valid() && IsDir(vm, d) && d != vm.boot
      modifies Repr
      ensures Valid() && vm == DropDir(old(vm), d)
    {
      hide Inv, RefCount, Handed, PdeWord, PteWord, List.Valid;
      DirInRange(vm, d);
      RowsDisjoint(vm);
      DirCounts(vm, d);
      DropDirKeeps(vm, d);
      DroppedDir(vm, d);
      PageDecref(d);
      hide DropDir;
      vm := DropDir(vm, d);
      FreeCounts(vm, d);
      RowsDisjoint(vm);
      assert Counts();
      assert DirWords();
      assert TableWords();
      assert DataWords();
    }

    /** The copy loops of sys_env_alloc over the tables below ULIM. The permission compared with
        PTE_V | PTE_R there is computed from the page-aligned va, hence zero: the branch that
        would copy the page is never taken and the frame itself is shared. */
    method CopyTables(src: int, dst: int) returns (r: int)
      requires Valid() && IsDir(vm, src) && IsDir(vm, dst) && src != dst && dst != vm.boot
      requires forall k :: k in vm.maps ==> k.dir != dst
      requires CopyFits(vm, src)
      modifies Repr
      ensures Valid() && (vm, r) == CopyPages(old(vm), src, dst, ULIM_VPN)
    {
      hide Inv, Copied, RefCount, CopyPages, CopyFits, Counts, DirWords, TableWords, DataWords;
      ghost var v := vm;
      CopyStart(v, src, dst);
      var pdx := 0;
      while pdx < 0x800
        invariant pdx <= 0x800 && Valid() && (vm, 0) == CopyPages(v, src, dst, pdx * 0x100)
      {
        CopyPagesKeeps(v, src, dst, pdx * 0x100);
        r := CopyOneTable(v, src, dst, pdx);
        if r < 0 {
          CopyIdle(v, src, dst, (pdx + 1) * 0x100, ULIM_VPN);
          return;
        }
        pdx := pdx + 1;
      }
      r := 0;
    }

    /** One turn of the inner copy loop. */
    method CopyEntry(ghost v: VM, src: int, dst: int, pdx: nat, ptx: nat, table: nat) returns (r: int)
      requires Valid() && Inv(v) && IsDir(v, src) && IsDir(v, dst) && src != dst && dst != v.boot && pdx < 0x800
               && ptx < 0x100
      requires forall k :: k in v.maps ==> k.dir != dst
      requires CopyFits(v, src)
      requires (vm, 0) == CopyPages(v, src, dst, pdx * 0x100 + ptx)
      requires Key(src, pdx) in vm.tables && vm.tables[Key(src, pdx)] == table
      modifies Repr
      ensures Valid() && (vm, r) == CopyPages(v, src, dst, pdx * 0x100 + ptx + 1) && r <= 0
      ensures Key(src, pdx) in vm.tables && vm.tables[Key(src, pdx)] == table
    {
      hide Inv, Copied, RefCount, Handed, CopyFits, Counts, DirWords, TableWords, DataWords, Insert;
      ghost var n, k := pdx * 0x100 + ptx, Key(src, pdx);
      ghost var u, page := vm, Key(src, n);
      CopyPagesKeeps(v, src, dst, n);
      CopiedDirs(v, vm, src, dst, n);
      PageNumberJoin(pdx, ptx);
      ReadPte(k, ptx);
      assert page == PteKey(k, ptx);
      var pte := mem[table, ptx];
      if page in vm.maps { MappedHasTable(vm, page); EntryPerm(vm, page); PermTest(vm.maps[page].perm); }
      r := 0;
      if pte.lo & PTE_V == PTE_V {
        EntryFits(v, vm, src, dst, n);
        CopyPagesStep(v, vm, src, dst, n);
        InsertTables(vm, dst, FrameOf(pte), n * BY2PG, pte.lo);
        r := PageInsert(dst, FrameOf(pte), pdx * PDMAP + ptx * BY2PG, pte.lo);
      }
    }

    /** One turn of the outer copy loop. */
    method CopyOneTable(ghost v: VM, src: int, dst: int, pdx: nat) returns (r: int)
      requires Valid() && Inv(v) && IsDir(v, src) && IsDir(v, dst) && src != dst && dst != v.boot && pdx < 0x800
      requires forall k :: k in v.maps ==> k.dir != dst
      requires CopyFits(v, src)
      requires (vm, 0) == CopyPages(v, src, dst, pdx * 0x100) && Copied(v, vm, src, dst, pdx * 0x100)
      modifies Repr
      ensures Valid() && (vm, r) == CopyPages(v, src, dst, (pdx + 1) * 0x100) && r <= 0
    {
      hide Inv, Copied, RefCount, Handed, CopyPages, CopyFits, Counts, DirWords, TableWords, DataWords;
      ghost var k, n := Key(src, pdx), pdx * 0x100;
      CopiedDirs(v, vm, src, dst, n);
      DirInRange(vm, src);
      ReadPde(k);
      if !IsTable(mem[src, pdx]) {
        NoPagesWithoutTable(vm, k);
        CopyIdle(v, src, dst, n, n + 0x100);
        return 0;
      }
      var table := FrameOf(mem[src, pdx]);
      r := 0;
      var ptx := 0;
      while ptx < 0x100
        invariant ptx <= 0x100 && Valid() && (vm, r) == CopyPages(v, src, dst, n + ptx) && r == 0
        invariant k in vm.tables && vm.tables[k] == table
      {
        r := CopyEntry(v, src, dst, pdx, ptx, table);
        if r < 0 {
          CopyIdle(v, src, dst, n + ptx + 1, n + 0x100);
          return;
        }
        ptx := ptx + 1;
      }
    }
  }

  lemma CopyStart(v: VM, src: int, dst: int)
    ensures CopyPages(v, src, dst, 0) == (v, 0)
  {}

  lemma CopiedDirs(v: VM, u: VM, src: int, dst: int, n: nat)
    requires Copied(v, u, src, dst, n)
    ensures u.boot == v.boot
    ensures forall e :: IsDir(u, e) <==> IsDir(v, e)
  {}

  lemma NoPagesWithoutTable(vm: VM, t: Key)
    requires Inv(vm) && t !in vm.tables
    ensures forall i :: t.no * 0x100 <= i < (t.no + 1) * 0x100 ==> Key(t.dir, i) !in vm.maps
  {
    forall i | t.no * 0x100 <= i < (t.no + 1) * 0x100 ensures Key(t.dir, i) !in vm.maps {
      assert TableKey(Key(t.dir, i)) == t;
    }
  }

  lemma PermTest(perm: bv12)
    requires perm | PTE_V == perm
    ensures perm & PTE_V == PTE_V
  {}

  /** The overflow bound holds at every turn of the copy loop. */
  lemma EntryFits(v: VM, u: VM, src: int, dst: int, n: nat)
    requires Inv(v) && Inv(u) && Copied(v, u, src, dst, n) && src != dst && Key(src, n) in u.maps
    requires forall k :: k in v.maps ==> k.dir != dst
    requires CopyFits(v, src)
    ensures u.maps[Key(src, n)].frame in u.data && RefCount(u, u.maps[Key(src, n)].frame) < 0xFFFF
  {
    var q := u.maps[Key(src, n)].frame;
    MappedHasTable(u, Key(src, n));
    assert u.data == v.data;
    CopyRoom(v, u, src, dst, n, q);
    CopyCounts(v, u, src, dst, n, q);
  }

  /** page_insert keeps every page table that was there. */
  lemma InsertTables(vm: VM, d: int, p: int, va: nat, perm: bv12)
    requires Inv(vm) && InsertFits(vm, d, p, va)
    ensures var w := Insert(vm, d, p, va, perm).0;
            forall t :: t in vm.tables ==> t in w.tables && w.tables[t] == vm.tables[t]
  {
    InsertOutcome(vm, d, p, va, perm);
    if Insert(vm, d, p, va, perm).1 == 0 { InsertKeeps(vm, d, p, va, perm); }
  }

  lemma TableCounts(vm: VM, k: Key)
    requires Inv(vm) && k in vm.tables
    ensures RefCount(vm, vm.tables[k]) == 1 && vm.tables[k] !in vm.free && vm.tables[k] != vm.boot
  {
    StructureCounts(vm, vm.tables[k]);
  }

  lemma DirCounts(vm: VM, d: int)
    requires Inv(vm) && IsDir(vm, d) && d != vm.boot
    ensures d in vm.role && RefCount(vm, d) == 1 && d !in vm.free
  {
    StructureCounts(vm, d);
  }

  lemma FreeCounts(vm: VM, f: int)
    requires Inv(vm) && f in vm.role && vm.role[f] == Free
    ensures RefCount(vm, f) == 0
  {
    StructureCounts(vm, f);
  }

  /** env_free tests a directory entry against PTE_V; below UTOP that tells tables from zero. */
  lemma TableTest(w: Word, k: Key)
    ensures w == ZERO ==> w.lo & PTE_V == 0
    ensures IsTable(w) ==> w.lo & PTE_V != 0
  {}

  lemma ClearedTable(v: VM, w: VM, d: int, i: nat)
    requires Cleared(v, w, d, i * 0x100 + 0x100)
    ensures forall k :: k in w.maps ==> TableKey(k) != Key(d, i)
  {}

  lemma SectionSlot(va: nat)
    requires va < FOURGIG
    ensures SectionMapped(va) <==> 0x800 <= PDX(va) <= 0xC00
  {}

  lemma ZeroIsNothing()
    ensures !IsSection(ZERO) && !IsTable(ZERO)
  {}

  /** What is left of the words once a directory is given back. */
  lemma DroppedDir(vm: VM, d: int)
    requires Inv(vm) && IsDir(vm, d) && d != vm.boot
    ensures var w := DropDir(vm, d);
            && w.free == [d] + vm.free && w.data == vm.data
            && (w.npage, w.first, w.boot) == (vm.npage, vm.first, vm.boot)
            && (forall f :: f in w.role <==> f in vm.role) && d in w.role && w.role[d] == Free
            && (forall e, i | e != d && i >= 0 :: PdeWord(w, Key(e, i)) == PdeWord(vm, Key(e, i)))
            && (forall f :: f in w.role && w.role[f].Table? ==>
                  f in vm.role && vm.role[f] == w.role[f] && w.role[f].key.dir != d)
            && (forall k: Key :: k.dir != d ==> PteWord(w, k) == PteWord(vm, k))
  {
    hide Inv;
    DirIsRole(vm, d);
  }

  lemma DirIsRole(vm: VM, d: int)
    requires Inv(vm) && IsDir(vm, d) && d != vm.boot
    ensures d in vm.role && vm.role[d] == Dir
  {}

  /** The words of directories and tables follow from the tables, the entries and the boot directory. */
  lemma SameWords(v: VM, w: VM)
    requires v.tables == w.tables && v.maps == w.maps && v.boot == w.boot
    ensures forall k: Key | k.no >= 0 :: PdeWord(w, k) == PdeWord(v, k)
    ensures forall k: Key :: PteWord(w, k) == PteWord(v, k)
  {}

  lemma RemovedWords(v: VM, k: Key)
    requires k in v.maps
    ensures forall l: Key | l.no >= 0 :: PdeWord(Remove(v, k), l) == PdeWord(v, l)
    ensures forall l: Key :: PteWord(Remove(v, k), l) == if l == k then ZERO else PteWord(v, l)
  {
    hide RefCount;
  }

  /** A new table shows in its owner's slot only. */
  lemma AddedPdes(v: VM, k: Key)
    requires Inv(v) && v.free != [] && k !in v.tables && MayAdd(v, k)
    ensures v.free[0] >= 0
    ensures forall e, i | IsDir(v, e) && 0 <= i < 0x1000 ::
              PdeWord(AddTable(v, k), Key(e, i)) == if Key(e, i) == k then Descriptor(v.free[0], PDE_PAGE_TABLE)
                  else PdeWord(Alloc(v), Key(e, i))
    ensures forall e :: IsDir(AddTable(v, k), e) <==> IsDir(v, e)
  {
    HeadIsFree(v);
    HeadManaged(v);
    hide Inv;
  }

  lemma HeadManaged(v: VM)
    requires Inv(v) && v.free != []
    ensures v.free[0] >= 0
  {
    HeadIsFree(v);
  }

  /** A fresh directory: zero below UTOP, the boot directory's entries above. */
  lemma NewDirPdes(v: VM)
    requires Inv(v) && v.free != []
    ensures forall i | 0 <= i < 0x1000 ::
              PdeWord(NewDir(v), Key(v.free[0], i)) == if i < UTOP_PDX then ZERO else PdeWord(Alloc(v), Key(v.boot, i))
    ensures forall e, i | 0 <= i < 0x1000 && e != v.free[0] ::
            PdeWord(NewDir(v), Key(e, i)) == PdeWord(Alloc(v), Key(e, i))
  {
    NewDirKeeps(v);
    UserHalfZero();
    forall i | UTOP_PDX <= i < 0x800 ensures Key(v.boot, i) !in v.tables {}
    hide Inv;
  }

  /** Above UTOP every directory agrees with the boot directory, but for page tables that page
      faults gave it between UTOP and the sections. */
  lemma UpperEntriesAgree(vm: VM, d: int, i: nat)
    requires Inv(vm) && IsDir(vm, d) && UTOP_PDX <= i < 0x1000
    ensures PdeWord(vm, Key(d, i)) == PdeWord(vm, Key(vm.boot, i)) || Key(d, i) in vm.tables
    ensures Key(vm.boot, i) in vm.tables ==> PdeWord(vm, Key(d, i)) == PdeWord(vm, Key(vm.boot, i))
  {
    if Key(vm.boot, i) in vm.tables { TableIsSlot(vm, Key(vm.boot, i)); }
  }

  /** The words once the table in slot k, below UTOP, is dropped. */
  lemma DroppedTable(v: VM, k: Key)
    requires Inv(v) && k in v.tables && 0 <= k.no < UTOP_PDX
    ensures forall e, i | i >= 0 :: PdeWord(DropTable(v, k), Key(e, i)) == if Key(e, i) == k then ZERO
            else PdeWord(v, Key(e, i))
    ensures forall l: Key :: PteWord(DropTable(v, k), l) == PteWord(v, l)
  {
    UserHalfZero();
    hide Inv;
  }

  lemma UserHalfZero()
    ensures forall j :: 0 <= j < UTOP_PDX ==> BootEntry(j) == ZERO
  {}

  /** pgdir_walk's new table is the directory's own. */
  lemma AddedSlot(v: VM, d: int, va: nat)
    requires v.free != [] && SlotOf(v, d, va) !in v.tables && Owner(v, d, PDX(va)) == d
    ensures var w := AddTable(v, SlotOf(v, d, va));
            SlotOf(w, d, va) == SlotOf(v, d, va) && PageOf(w, d, va) == PageOf(v, d, va)
  {}

  lemma FreshDirectory(v: VM)
    requires Inv(v) && v.free != []
    ensures Inv(NewDir(v)) ==> RefCount(NewDir(v), v.free[0]) == 1
    ensures forall i :: Key(v.free[0], i) !in v.tables
    ensures forall d :: IsDir(NewDir(v), d) <==> IsDir(v, d) || d == v.free[0]
    ensures IsDir(v, v.boot)
  {
    HeadIsFree(v);
    NewDirKeeps(v);
    StructureCounts(NewDir(v), v.free[0]);
  }

  lemma DataStays(v: VM, t: Key, pp: int)
    requires Inv(v) && pp in v.data && (t in v.tables || (v.free != [] && MayAdd(v, t)))
    ensures t !in v.tables ==> pp in AddTable(v, t).data && RefCount(AddTable(v, t), pp) == RefCount(v, pp)
  {
    if t !in v.tables {
      assert v.free[0] in v.free;
      AddTableKeeps(v, t);
    }
  }

  lemma DirInRange(vm: VM, d: int)
    requires Inv(vm) && IsDir(vm, d) && vm.boot < vm.npage
    ensures 0 <= d < vm.npage
  {}

  lemma TableInRange(vm: VM, k: Key)
    requires Inv(vm) && k in vm.tables
    ensures 0 <= vm.tables[k] < vm.npage && vm.tables[k] in vm.role && vm.role[vm.tables[k]] == Table(k)
  {}

  lemma DataInRange(vm: VM, p: int)
    requires Inv(vm) && p in vm.data
    ensures 0 <= p < vm.npage && p in vm.role && vm.role[p] == Data && |vm.data[p]| == 0x400
    ensures vm.npage <= DRAMSIZE / BY2PG
  {}

  /** A user frame is no directory and no page table. */
  lemma RowsDisjoint(vm: VM)
    requires Inv(vm)
    ensures forall p :: p in vm.data ==> !IsDir(vm, p) && p in vm.role && vm.role[p] == Data
    ensures forall t :: t in vm.role && vm.role[t].Table? ==>
              !IsDir(vm, t) && vm.role[t].key in vm.tables && vm.tables[vm.role[t].key] == t
  {}

  lemma PageKeys(vm: VM, d: int, va: nat)
    requires va < FOURGIG
    ensures TableKey(PageOf(vm, d, va)) == SlotOf(vm, d, va) && PageOf(vm, d, va).no == VPN(va) >= 0
    ensures PteKey(SlotOf(vm, d, va), PTX(va)) == PageOf(vm, d, va)
    ensures 0 <= PTX(va) < 0x100 && 0 <= PDX(va) < 0x1000 && VPN(va) % 0x100 == PTX(va)
  {
    PageNumberSplit(va);
  }

  lemma InsertCases(vm: VM, d: int, p: int, va: nat, perm: bv12)
    requires !SectionMapped(va)
    ensures var k, t, e := PageOf(vm, d, va), SlotOf(vm, d, va), Entry(p, perm | PTE_V);
            var u := Remove(vm, k);
            Insert(vm, d, p, va, perm) ==
            if Maps(vm, k, p) then (SetEntry(vm, k, e), 0)
            else if t in vm.tables then (SetEntry(u, k, e), 0)
            else if u.free == [] then (u, -E_NO_MEM)
            else (SetEntry(AddTable(u, t), k, e), 0)
  {}

  lemma AfterRemove(v: VM, d: int, p: int, va: nat)
    requires Inv(v) && InsertFits(v, d, p, va) && !Maps(v, PageOf(v, d, va), p)
    ensures var u, k := Remove(v, PageOf(v, d, va)), PageOf(v, d, va);
            && InsertFits(u, d, p, va) && k !in u.maps && u.tables == v.tables
            && RefCount(u, p) == RefCount(v, p) && PageOf(u, d, va) == k && SlotOf(u, d, va) == SlotOf(v, d, va)
    ensures PageOf(v, d, va) !in v.maps ==> Remove(v, PageOf(v, d, va)) == v
  {
    hide Inv, RefCount, Handed;
    var k := PageOf(v, d, va);
    RemoveKeeps(v, k);
    RemoveRoles(v, k);
    if k !in v.maps { RemoveAbsent(v, k); }
  }

  /** A page table slot determines its table and its index. */
  lemma PteKeys()
    ensures forall t, j {:trigger PteKey(t, j)} :: 0 <= j < 0x100 ==>
            TableKey(PteKey(t, j)) == t && PteKey(t, j).no % 0x100 == j
  {}

  lemma FreshTable(v: VM, k: Key)
    requires Inv(v) && v.free != [] && k !in v.tables
    ensures v.free[0] !in v.data && RefCount(v, v.free[0]) == 0
    ensures IsDir(v, k.dir) && TableSlot(v, k) && Inv(AddTable(v, k)) ==> RefCount(AddTable(v, k), v.free[0]) == 1
    ensures forall j :: PteKey(k, j) in v.maps ==> !(0 <= j < 0x100)
    ensures v.free[0] in v.role && v.role[v.free[0]] == Free && v.free[0] != v.boot
  {
    assert v.free[0] in v.free;
    StructureCounts(v, v.free[0]);
    forall j | PteKey(k, j) in v.maps ensures !(0 <= j < 0x100) {
      assert TableKey(PteKey(k, j)) in v.tables;
    }
    if IsDir(v, k.dir) && TableSlot(v, k) && Inv(AddTable(v, k)) {
      assert AddTable(v, k).role[v.free[0]] == Table(k);
      StructureCounts(AddTable(v, k), v.free[0]);
    }
  }
}
