/** The abstract virtual memory: what mm/pmap.c's frames, directories and tables mean.

    All directories together are one map from (directory, virtual page number) to (frame,
    permission), and one from (directory, PDX) to the frame that serves as page table. The
    allocator hands out 16 KiB chunks (every fourth frame), so a frame here is the number of a
    chunk's first page. The operations below are what page_alloc, page_insert, page_remove,
    env_free's teardown and the copy loop of sys_env_alloc do to these maps; class Pmap carries
    them out on descriptor words and reference counters. */
module Vm {
  import opened Mmu
  import opened Queue

  const UTOP_PDX := 0x7FD
  const ULIM_VPN := 0x8_0000

  /** A page (or a page table slot) of one directory. */
  datatype Key = Key(dir: int, no: int)

  datatype Entry = Entry(frame: int, perm: bv12)

  /** What a frame is used for; a page table knows the slot of its owner that points at it. A lost
      frame was a page table of a directory that env_free gave back without it. */
  datatype Role = Free | Data | Table(key: Key) | Dir | Lost

  /** pages[0], the exception vectors: in use from boot on, and mapped by trap_init. */
  const VECTORS := 0

  datatype VM = VM(
    npage: nat,                      // frames below npage exist
    first: nat,                      // frames below first were taken at boot
    boot: int,                       // the boot directory, below first
    free: seq<int>,                  // page_free_list, head first
    role: map<int, Role>,
    data: map<int, seq<Word>>,       // contents of the Data frames, in words
    tables: map<Key, int>,           // page tables, under the directory and slot that own them
    maps: map<Key, Entry>,           // their valid entries
    pins: map<int, nat>)             // counts that no live entry accounts for: page_init's one on
                                     // the vectors, explicit ++pp_ref, and entries of lost tables

  /** The frames that page_alloc hands out. */
  ghost predicate Managed(vm: VM, f: int) { vm.first <= f < vm.npage && f % 4 == 0 }

  ghost predicate IsDir(vm: VM, d: int) { d == vm.boot || (d in vm.role && vm.role[d] == Dir) }

  function Pins(vm: VM, f: int): nat { if f in vm.pins then vm.pins[f] else 0 }

  /** The valid page table entries that map a frame, over all live directories. */
  ghost function PteRefs(maps: map<Key, Entry>, p: int): set<Key> {
    set k | k in maps && maps[k].frame == p
  }

  /** The directory entries that use a frame as a page table. */
  ghost function PdeRefs(tables: map<Key, int>, p: int): set<Key> {
    set k | k in tables && tables[k] == p
  }

  /** The directory that owns the page table in slot no of d. env_setup_vm copies the upper
      directory entries of the boot directory, so its tables there belong to every directory. */
  ghost function Owner(vm: VM, d: int, no: int): int {
    if no > 0xC00 && Key(vm.boot, no) in vm.tables then vm.boot else d
  }

  /** The table and the page of va in directory d. */
  ghost function SlotOf(vm: VM, d: int, va: nat): Key { Key(Owner(vm, d, PDX(va)), PDX(va)) }
  ghost function PageOf(vm: VM, d: int, va: nat): Key { Key(Owner(vm, d, PDX(va)), VPN(va)) }

  /** page_lookup: the frame at va, or NULL. */
  ghost function Lookup(vm: VM, d: int, va: nat): int {
    if PageOf(vm, d, va) in vm.maps then vm.maps[PageOf(vm, d, va)].frame else NULL
  }

  /** Who holds a frame: this is what pp_ref must equal. A table in the upper half counts once, for
      the boot directory's entry, although every directory has a copy of that entry. */
  ghost function RefCount(vm: VM, p: int): nat {
    |PteRefs(vm.maps, p)| + |PdeRefs(vm.tables, p)| + Pins(vm, p)
  }

  /** Handed out by page_alloc but not (or not yet) referenced. */
  ghost predicate Handed(vm: VM, f: int) { f in vm.data && RefCount(vm, f) == 0 }

  /** Does this page of this directory map p? */
  ghost predicate Maps(vm: VM, k: Key, p: int) { k in vm.maps && vm.maps[k].frame == p }

  /* ---------- the invariant ---------- */

  /** The free list holds each free frame once. */
  ghost predicate FreeOk(vm: VM) {
    && NoDup(vm.free)
    && (forall f :: f in vm.free <==> f in vm.role && vm.role[f] == Free)
  }

  /** Every allocatable frame has exactly one role; only directories are pinned by structure. */
  ghost predicate Roles(vm: VM) {
    && VECTORS < vm.boot < vm.first <= vm.npage <= DRAMSIZE / BY2PG
    && (forall f :: f in vm.role <==> Managed(vm, f) || f == VECTORS)
    && vm.role[VECTORS] == Data && Pins(vm, VECTORS) > 0
    && (forall f :: f in vm.data <==> f in vm.role && vm.role[f] == Data)
    && (forall f :: f in vm.data ==> |vm.data[f]| == 1024)
    && (forall f :: f in vm.role && vm.role[f] != Data ==>
          Pins(vm, f) == if vm.role[f] == Dir || vm.role[f] == Lost then 1 else 0)
  }

  /** Where a page table may stand: never over a section; above the sections, never in an
      environment's directory over one of the boot directory's; and in the boot directory not
      between UTOP and the sections. */
  ghost predicate TableSlot(vm: VM, k: Key) {
    && IsDir(vm, k.dir) && 0 <= k.no < 0x1000 && !(0x800 <= k.no <= 0xC00)
    && (if k.dir == vm.boot then !(UTOP_PDX <= k.no < 0x800) else k.no > 0xC00 ==> Key(vm.boot, k.no) !in vm.tables)
  }

  /** Every page table has one owner. */
  ghost predicate TablesOk(vm: VM) {
    && (forall k :: k in vm.tables ==>
                      TableSlot(vm, k) && vm.tables[k] in vm.role && vm.role[vm.tables[k]] == Table(k))
    && (forall t {:trigger vm.role[t].Table?} :: t in vm.role && vm.role[t].Table? ==>
                      vm.role[t].key in vm.tables && vm.tables[vm.role[t].key] == t)
  }

  /** Slot j of page table t, and the page table of a page. */
  function PteKey(t: Key, j: int): Key { Key(t.dir, t.no * 0x100 + j) }
  function TableKey(k: Key): Key { Key(k.dir, k.no / 0x100) }

  ghost predicate MapsOk(vm: VM) {
    forall k :: k in vm.maps ==>
                  && TableKey(k) in vm.tables
                  && vm.maps[k].frame in vm.data
                  && vm.maps[k].perm & PTE_V == PTE_V
  }

  ghost predicate Inv(vm: VM) { FreeOk(vm) && Roles(vm) && TablesOk(vm) && MapsOk(vm) }

  lemma PdeRefsAre(vm: VM, f: int)
    requires TablesOk(vm)
    ensures PdeRefs(vm.tables, f) == if f in vm.role && vm.role[f].Table? then {vm.role[f].key} else {}
  {
    if f in vm.role && vm.role[f].Table? {
      assert PdeRefs(vm.tables, f) == {vm.role[f].key};
    }
  }

  /** A directory counts exactly its pin, a page table exactly its owner's directory entry, a lost
      table its lost entry, and a free frame nothing. */
  lemma StructureCounts(vm: VM, f: int)
    requires Inv(vm) && f in vm.role && vm.role[f] != Data
    ensures PteRefs(vm.maps, f) == {}
    ensures RefCount(vm, f) == if vm.role[f] == Free then 0 else 1
  {
    PdeRefsAre(vm, f);
    assert PteRefs(vm.maps, f) == {};
  }

  /** Free, handed-out and referenced frames partition the frames; a free frame is neither mapped
      nor a page table nor a directory. */
  lemma Partition(vm: VM, f: int)
    requires Inv(vm) && f in vm.role
    ensures f in vm.free ==> !Handed(vm, f) && RefCount(vm, f) == 0
    ensures !(f in vm.free) && !Handed(vm, f) ==> RefCount(vm, f) > 0
    ensures f in vm.free ==> PteRefs(vm.maps, f) == {} && PdeRefs(vm.tables, f) == {} && !IsDir(vm, f)
  {
    if vm.role[f] != Data { StructureCounts(vm, f); PdeRefsAre(vm, f); }
  }

  /* ---------- elementary steps ---------- */

  function ZeroPage(): seq<Word> { seq(1024, i => ZERO) }

  ghost function Alloc(vm: VM): VM
    requires vm.free != []
  {
    vm.(free := vm.free[1..], role := vm.role[vm.free[0] := Data], data := vm.data[vm.free[0] := ZeroPage()])
  }

  /** page_free once pp_ref has been lowered: a frame nobody holds goes to the list head. */
  ghost function Release(vm: VM, p: int): VM {
    if RefCount(vm, p) == 0
    then vm.(free := [p] + vm.free, role := vm.role[p := Free], data := vm.data - {p})
    else vm
  }

  ghost function Unmap(vm: VM, k: Key): VM { vm.(maps := vm.maps - {k}) }

  ghost function SetEntry(vm: VM, k: Key, e: Entry): VM { vm.(maps := vm.maps[k := e]) }

  ghost function AddTable(vm: VM, k: Key): VM
    requires vm.free != []
  {
    vm.(free := vm.free[1..], role := vm.role[vm.free[0] := Table(k)], tables := vm.tables[k := vm.free[0]])
  }

  ghost function DropTable(vm: VM, k: Key): VM
    requires k in vm.tables
  {
    vm.(free := [vm.tables[k]] + vm.free, role := vm.role[vm.tables[k] := Free], tables := vm.tables - {k})
  }

  ghost function Pin(vm: VM, p: int): VM { vm.(pins := vm.pins[p := Pins(vm, p) + 1]) }

  /** env_setup_vm: a fresh frame becomes an empty directory, held by its pin. */
  ghost function NewDir(vm: VM): VM
    requires vm.free != []
  {
    vm.(free := vm.free[1..], role := vm.role[vm.free[0] := Dir], pins := vm.pins[vm.free[0] := 1])
  }

  /** page_decref of a directory. Page tables still in it are lost with their entries: nothing
      points at them any more, and what they counted stays counted. */
  ghost function DropDir(vm: VM, d: int): VM {
    vm.(free := [d] + vm.free,
        role := (map f | f in vm.role :: if f == d then Free else if TableOf(vm.role[f], d) then Lost else vm.role[f]),
        tables := (map k | k in vm.tables && k.dir != d :: vm.tables[k]),
        maps := (map k | k in vm.maps && k.dir != d :: vm.maps[k]),
        pins := (map f | f in vm.role ::
                   if f == d then 0 else if TableOf(vm.role[f], d) then 1 else Pins(vm, f) + |PagesOf(vm.maps, d, f)|))
  }

  ghost predicate TableOf(r: Role, d: int) { r.Table? && r.key.dir == d }

  /** The pages of directory d that map p. */
  ghost function PagesOf(maps: map<Key, Entry>, d: int, p: int): set<Key> {
    set k | k in maps && k.dir == d && maps[k].frame == p
  }

  ghost function Store(vm: VM, p: int, k: nat, w: Word): VM
    requires p in vm.data && k < |vm.data[p]|
  {
    vm.(data := vm.data[p := vm.data[p][k := w]])
  }

  /* ---------- counting ---------- */

  lemma CountUnmap(vm: VM, k: Key, q: int)
    requires k in vm.maps
    ensures RefCount(Unmap(vm, k), q) == RefCount(vm, q) - (if vm.maps[k].frame == q then 1 else 0)
  {
    assert PteRefs(vm.maps - {k}, q) == PteRefs(vm.maps, q) - {k};
    assert vm.maps[k].frame == q <==> k in PteRefs(vm.maps, q);
  }

  lemma CountSetEntry(vm: VM, k: Key, e: Entry, q: int)
    requires k in vm.maps ==> vm.maps[k].frame == e.frame
    ensures RefCount(SetEntry(vm, k, e), q)
         == RefCount(vm, q) + (if e.frame == q && k !in vm.maps then 1 else 0)
  {
    if e.frame == q {
      assert PteRefs(vm.maps[k := e], q) == PteRefs(vm.maps, q) + {k};
      assert k in vm.maps <==> k in PteRefs(vm.maps, q);
    } else {
      assert PteRefs(vm.maps[k := e], q) == PteRefs(vm.maps, q);
    }
  }

  lemma SameCounts(vm: VM, w: VM)
    requires vm.maps == w.maps && vm.tables == w.tables && vm.pins == w.pins
    ensures forall q :: RefCount(vm, q) == RefCount(w, q)
  {}

  /* ---------- page_alloc ---------- */

  lemma PopFree(vm: VM, r: Role)
    requires FreeOk(vm) && vm.free != [] && r != Free
    ensures vm.free[0] in vm.role && vm.role[vm.free[0]] == Free
    ensures FreeOk(vm.(free := vm.free[1..], role := vm.role[vm.free[0] := r]))
  {
    var f := vm.free[0];
    assert vm.free == [f] + vm.free[1..] && f in vm.free;
    assert forall x :: x in vm.free[1..] <==> x in vm.free && x != f;
  }

  lemma PushFree(vm: VM, f: int)
    requires FreeOk(vm) && f in vm.role && vm.role[f] != Free
    ensures FreeOk(vm.(free := [f] + vm.free, role := vm.role[f := Free]))
  {
    assert f !in vm.free;
    assert forall x :: x in [f] + vm.free <==> x == f || x in vm.free;
  }

  /** FreeOk looks only at the list and the roles. */
  lemma FreeFrame(vm: VM, w: VM)
    requires FreeOk(vm) && w.free == vm.free && w.role == vm.role
    ensures FreeOk(w)
  {}

  lemma AllocKeeps(vm: VM)
    requires Inv(vm) && vm.free != []
    ensures Inv(Alloc(vm))
    ensures forall q :: RefCount(Alloc(vm), q) == RefCount(vm, q)
    ensures RefCount(vm, vm.free[0]) == 0 && vm.free[0] !in vm.data
    ensures forall q :: Handed(Alloc(vm), q) <==> q == vm.free[0] || Handed(vm, q)
  {
    HeadIsFree(vm);
    StructureCounts(vm, vm.free[0]);
    AllocInv(vm);
    SameCounts(vm, Alloc(vm));
    hide Inv, RefCount;
  }

  lemma AllocInv(vm: VM)
    requires Inv(vm) && vm.free != []
    ensures Inv(Alloc(vm))
  {
    hide FreeOk, RefCount;
    PopFree(vm, Data);
    FreeFrame(vm.(free := vm.free[1..], role := vm.role[vm.free[0] := Data]), Alloc(vm));
  }

  lemma HeadIsFree(vm: VM)
    requires Inv(vm) && vm.free != []
    ensures vm.free[0] in vm.role && vm.role[vm.free[0]] == Free && vm.free[0] != vm.boot && vm.free[0] !in vm.data
    ensures NoDup(vm.free)
  {
    var f := vm.free[0];
    assert f in vm.free;
  }

  /* ---------- page_decref and page_remove ---------- */

  lemma ReleaseKeeps(vm: VM, p: int)
    requires Inv(vm) && p in vm.data
    requires RefCount(vm, p) == 0
    ensures Inv(Release(vm, p))
    ensures forall q :: RefCount(Release(vm, p), q) == RefCount(vm, q)
  {
    var w := Release(vm, p);
    SameCounts(vm, w);
    assert PteRefs(vm.maps, p) == {};
    assert Pins(vm, p) == 0;
    ReleaseInv(vm, p);
    hide RefCount, Inv;
  }

  lemma ReleaseInv(vm: VM, p: int)
    requires Inv(vm) && p in vm.data && PteRefs(vm.maps, p) == {} && Pins(vm, p) == 0
    ensures Inv(vm.(free := [p] + vm.free, role := vm.role[p := Free], data := vm.data - {p}))
  {
    hide FreeOk;
    var w := vm.(free := [p] + vm.free, role := vm.role[p := Free], data := vm.data - {p});
    PushFree(vm, p);
    FreeFrame(vm.(free := [p] + vm.free, role := vm.role[p := Free]), w);
    forall k | k in w.maps ensures w.maps[k].frame in w.data {
      assert k !in PteRefs(vm.maps, p);
    }
  }

  lemma UnmapKeeps(vm: VM, k: Key)
    requires Inv(vm) && k in vm.maps
    ensures Inv(Unmap(vm, k)) && RefCount(vm, vm.maps[k].frame) >= 1
    ensures forall q :: RefCount(Unmap(vm, k), q) == RefCount(vm, q) - (if Maps(vm, k, q) then 1 else 0)
  {
    hide RefCount, Inv;
    forall q ensures RefCount(Unmap(vm, k), q) == RefCount(vm, q) - (if Maps(vm, k, q) then 1 else 0) {
      CountUnmap(vm, k, q);
    }
    CountUnmap(vm, k, vm.maps[k].frame);
    UnmapInv(vm, k);
  }

  lemma UnmapInv(vm: VM, k: Key)
    requires Inv(vm)
    ensures Inv(Unmap(vm, k))
  {}

  /** page_remove (and the removal that page_insert performs before it rewrites an entry). */
  ghost function Remove(vm: VM, k: Key): VM {
    if k in vm.maps then Release(Unmap(vm, k), vm.maps[k].frame) else vm
  }

  /** Is k the only holder of the frame it maps? */
  ghost predicate LastHolder(vm: VM, k: Key) { k in vm.maps && RefCount(vm, vm.maps[k].frame) == 1 }

  /** w is vm after page_remove: exactly one key of one directory is gone, exactly one count is
      lower by one, and the frame is free exactly when that count reached zero. */
  ghost predicate Removed(vm: VM, w: VM, k: Key) {
    && w.maps == vm.maps - {k} && w.tables == vm.tables && w.pins == vm.pins
    && (w.npage, w.first, w.boot) == (vm.npage, vm.first, vm.boot)
    && (if LastHolder(vm, k)
        then && w.free == [vm.maps[k].frame] + vm.free
             && w.data == vm.data - {vm.maps[k].frame}
             && w.role == vm.role[vm.maps[k].frame := Free]
        else (w.free, w.data, w.role) == (vm.free, vm.data, vm.role))
    && (forall q :: RefCount(w, q) == RefCount(vm, q) - (if Maps(vm, k, q) then 1 else 0))
    && (forall q :: Handed(w, q) <==> Handed(vm, q))
  }

  lemma RemoveKeeps(vm: VM, k: Key)
    requires Inv(vm)
    ensures Inv(Remove(vm, k)) && Removed(vm, Remove(vm, k), k)
  {
    hide Inv, RefCount;
    if k in vm.maps {
      MappedHasTable(vm, k);
      UnmapKeeps(vm, k);
      if RefCount(vm, vm.maps[k].frame) == 1 { ReleaseKeeps(Unmap(vm, k), vm.maps[k].frame); }
    } else {
      assert vm.maps - {k} == vm.maps;
    }
  }

  /* ---------- page_insert ---------- */

  ghost function Insert(vm: VM, d: int, p: int, va: nat, perm: bv12): (VM, int) {
    var k, t, e := PageOf(vm, d, va), SlotOf(vm, d, va), Entry(p, perm | PTE_V);
    if SectionMapped(va) then (vm, -E_INVAL)
    else if Maps(vm, k, p) then (SetEntry(vm, k, e), 0)
    else
      var u := Remove(vm, k);
      if t in vm.tables then (SetEntry(u, k, e), 0)
      else if u.free == [] then (u, -E_NO_MEM)
      else (SetEntry(AddTable(u, t), k, e), 0)
  }

  /** A new table in the upper half of the boot directory would have to be copied to the others. */
  ghost predicate MayAdd(vm: VM, k: Key) {
    TableSlot(vm, k) && (k.dir == vm.boot && k.no >= UTOP_PDX ==> OnlyBoot(vm))
  }

  ghost predicate OnlyBoot(vm: VM) { forall e :: IsDir(vm, e) ==> e == vm.boot }

  lemma AddTableKeeps(vm: VM, k: Key)
    requires Inv(vm) && k !in vm.tables && vm.free != [] && MayAdd(vm, k)
    ensures Inv(AddTable(vm, k))
    ensures forall q :: q != vm.free[0] ==> RefCount(AddTable(vm, k), q) == RefCount(vm, q)
    ensures forall q :: Handed(AddTable(vm, k), q) <==> Handed(vm, q)
  {
    var w, t := AddTable(vm, k), vm.free[0];
    HeadIsFree(vm);
    AddTableInv(vm, k);
    hide RefCount, Handed, Inv;
    forall q | q != t ensures RefCount(w, q) == RefCount(vm, q) {
      CountAddTable(vm, k, q);
    }
    AddTableHanded(vm, k);
  }

  lemma AddTableInv(vm: VM, k: Key)
    requires Inv(vm) && k !in vm.tables && vm.free != [] && MayAdd(vm, k)
    ensures Inv(AddTable(vm, k))
  {
    PopFree(vm, Table(k));
    AddTableTables(vm, k);
    hide FreeOk, TablesOk;
    FreeFrame(vm.(free := vm.free[1..], role := vm.role[vm.free[0] := Table(k)]), AddTable(vm, k));
  }

  lemma AddTableTables(vm: VM, k: Key)
    requires Inv(vm) && k !in vm.tables && vm.free != [] && MayAdd(vm, k)
    ensures TablesOk(AddTable(vm, k))
  {
    HeadIsFree(vm);
    hide FreeOk, MapsOk;
  }

  lemma CountAddTable(vm: VM, k: Key, q: int)
    requires k !in vm.tables && vm.free != [] && q != vm.free[0]
    ensures RefCount(AddTable(vm, k), q) == RefCount(vm, q)
  {
    assert PdeRefs(AddTable(vm, k).tables, q) == PdeRefs(vm.tables, q);
  }

  lemma AddTableHanded(vm: VM, k: Key)
    requires vm.free != [] && vm.free[0] !in vm.data
    requires forall q :: q != vm.free[0] ==> RefCount(AddTable(vm, k), q) == RefCount(vm, q)
    ensures forall q :: Handed(AddTable(vm, k), q) <==> Handed(vm, q)
  {
    hide RefCount;
  }

  lemma SetEntryKeeps(vm: VM, k: Key, e: Entry)
    requires Inv(vm) && TableKey(k) in vm.tables
    requires e.frame in vm.data && e.perm & PTE_V == PTE_V
    requires k in vm.maps ==> vm.maps[k].frame == e.frame
    ensures Inv(SetEntry(vm, k, e))
    ensures forall q ::
              RefCount(SetEntry(vm, k, e), q) == RefCount(vm, q) + (if e.frame == q && k !in vm.maps then 1 else 0)
    ensures forall q :: Handed(SetEntry(vm, k, e), q) <==> Handed(vm, q) && q != e.frame
  {
    var w := SetEntry(vm, k, e);
    assert k in PteRefs(w.maps, e.frame);
    assert RefCount(w, e.frame) > 0;
    hide RefCount;
    forall q ensures RefCount(w, q) == RefCount(vm, q) + (if e.frame == q && k !in vm.maps then 1 else 0) {
      CountSetEntry(vm, k, e, q);
    }
  }

  ghost predicate InsertFits(vm: VM, d: int, p: int, va: nat) {
    && IsDir(vm, d) && p in vm.data && va < FOURGIG
    && (d == vm.boot && va >= UTOP ==> va >= ULIM && (SlotOf(vm, d, va) in vm.tables || OnlyBoot(vm)))
  }

  /** The outcome of page_insert, and its failures: nothing at all changes then. */
  lemma InsertOutcome(vm: VM, d: int, p: int, va: nat, perm: bv12)
    requires Inv(vm) && InsertFits(vm, d, p, va)
    ensures var (w, r) := Insert(vm, d, p, va, perm);
            && (r == 0 || r == -E_INVAL || r == -E_NO_MEM)
            && (r == -E_INVAL <==> SectionMapped(va))
            && (r == -E_NO_MEM <==> !SectionMapped(va) && SlotOf(vm, d, va) !in vm.tables && vm.free == [])
            && (r < 0 ==> w == vm)
  {
    PageNumberSplit(va);
    assert TableKey(PageOf(vm, d, va)) == SlotOf(vm, d, va);
  }

  /** w is vm after a successful page_insert: one key of one directory is set, at most the page
      table that key needs is added. The new frame gains one holder (none when it was already
      there), the replaced one loses one and is free exactly when it had no other. */
  ghost predicate Inserted(vm: VM, w: VM, d: int, p: int, va: nat, perm: bv12) {
    var k, t := PageOf(vm, d, va), SlotOf(vm, d, va);
    && w.maps == vm.maps[k := Entry(p, perm | PTE_V)] && w.pins == vm.pins
    && (w.npage, w.first, w.boot) == (vm.npage, vm.first, vm.boot)
    && (t in vm.tables ==> w.tables == vm.tables)
    && (t !in vm.tables ==> vm.free != [] && w.tables == vm.tables[t := vm.free[0]])
    && w.data == (if LastHolder(vm, k) && !Maps(vm, k, p) then vm.data - {vm.maps[k].frame} else vm.data)
    && (forall q :: q in vm.data ==>
          RefCount(w, q) == RefCount(vm, q) + (if q == p then 1 else 0) - (if Maps(vm, k, q) then 1 else 0))
    && (forall q :: Handed(w, q) <==> Handed(vm, q) && q != p)
  }

  lemma InsertKeeps(vm: VM, d: int, p: int, va: nat, perm: bv12)
    requires Inv(vm) && InsertFits(vm, d, p, va)
    requires Insert(vm, d, p, va, perm).1 == 0
    ensures Inv(Insert(vm, d, p, va, perm).0)
    ensures Inserted(vm, Insert(vm, d, p, va, perm).0, d, p, va, perm)
  {
    hide Inv, RefCount, Remove, Handed, Owner, OnlyBoot;
    var k, t, e := PageOf(vm, d, va), SlotOf(vm, d, va), Entry(p, perm | PTE_V);
    PageNumberSplit(va);
    ValidFlags(perm);
    assert TableKey(k) == t;
    if Maps(vm, k, p) {
      MappedHasTable(vm, k);
      SetEntryKeeps(vm, k, e);
    } else if t in vm.tables {
      InsertOver(vm, k, e);
    } else {
      if k in vm.maps { MappedHasTable(vm, k); }
      RemoveAbsent(vm, k);
      SlotMayAdd(vm, d, va);
      InsertWithTable(vm, k, e);
    }
  }

  /** A missing table belongs to the directory itself, and may be added there. */
  lemma SlotMayAdd(vm: VM, d: int, va: nat)
    requires Inv(vm) && IsDir(vm, d) && va < FOURGIG && !SectionMapped(va) && SlotOf(vm, d, va) !in vm.tables
    requires d == vm.boot && va >= UTOP ==> va >= ULIM && OnlyBoot(vm)
    ensures Owner(vm, d, PDX(va)) == d && MayAdd(vm, SlotOf(vm, d, va))
  {
    SlotOutsideSections(va);
    hide Inv;
  }

  /** Below the sections every directory has its own tables. */
  lemma LowPage(vm: VM, d: int, va: nat)
    requires va < ULIM
    ensures PageOf(vm, d, va) == Key(d, VPN(va)) && SlotOf(vm, d, va) == Key(d, PDX(va))
  {}

  lemma SlotOutsideSections(va: nat)
    requires va < FOURGIG && !SectionMapped(va)
    ensures 0 <= PDX(va) < 0x1000 && !(0x800 <= PDX(va) <= 0xC00) && (va < UTOP <==> PDX(va) < UTOP_PDX)
    ensures va < ULIM <==> PDX(va) < 0x800
  {}

  lemma MappedHasTable(vm: VM, k: Key)
    requires Inv(vm) && k in vm.maps
    ensures TableKey(k) in vm.tables && vm.maps[k].frame in vm.data && IsDir(vm, k.dir)
    ensures 0 <= k.no < 0x10_0000 && !(0x8_0000 <= k.no <= 0xC_00FF)
  {}

  lemma RemoveAbsent(vm: VM, k: Key)
    requires k !in vm.maps
    ensures Remove(vm, k) == vm
  {}

  lemma InsertOver(vm: VM, k: Key, e: Entry)
    requires Inv(vm) && TableKey(k) in vm.tables && !Maps(vm, k, e.frame)
    requires e.frame in vm.data && e.perm & PTE_V == PTE_V
    ensures var w := SetEntry(Remove(vm, k), k, e);
            && Inv(w) && w.maps == vm.maps[k := e] && w.tables == vm.tables && w.pins == vm.pins
            && (w.npage, w.first, w.boot) == (vm.npage, vm.first, vm.boot)
            && w.data == (if LastHolder(vm, k) then vm.data - {vm.maps[k].frame} else vm.data)
            && (forall q :: RefCount(w, q) == RefCount(vm, q)
                  + (if q == e.frame then 1 else 0) - (if Maps(vm, k, q) then 1 else 0))
            && (forall q :: Handed(w, q) <==> Handed(vm, q) && q != e.frame)
  {
    hide Inv;
    RemoveKeeps(vm, k);
    SetEntryKeeps(Remove(vm, k), k, e);
  }

  lemma InsertWithTable(vm: VM, k: Key, e: Entry)
    requires Inv(vm) && TableKey(k) !in vm.tables && vm.free != [] && MayAdd(vm, TableKey(k))
    requires e.frame in vm.data && e.perm & PTE_V == PTE_V
    ensures k !in vm.maps && Remove(vm, k) == vm
    ensures var w := SetEntry(AddTable(vm, TableKey(k)), k, e);
            && Inv(w)
            && (forall q :: q in vm.data ==> RefCount(w, q) == RefCount(vm, q) + (if q == e.frame then 1 else 0))
            && (forall q :: Handed(w, q) <==> Handed(vm, q) && q != e.frame)
  {
    AddTableKeeps(vm, TableKey(k));
    SetEntryKeeps(AddTable(vm, TableKey(k)), k, e);
    HeadIsFree(vm);
  }

  /** An explicit ++pp_ref on a user frame. */
  lemma PinKeeps(vm: VM, p: int)
    requires Inv(vm) && p in vm.data
    ensures Inv(Pin(vm, p))
    ensures forall q :: RefCount(Pin(vm, p), q) == RefCount(vm, q) + (if q == p then 1 else 0)
    ensures forall q :: Handed(Pin(vm, p), q) <==> Handed(vm, q) && q != p
  {}

  lemma StoreKeeps(vm: VM, p: int, k: nat, w: Word)
    requires Inv(vm) && p in vm.data && k < |vm.data[p]|
    ensures Inv(Store(vm, p, k, w))
    ensures forall q :: RefCount(Store(vm, p, k, w), q) == RefCount(vm, q)
    ensures forall q :: Handed(Store(vm, p, k, w), q) <==> Handed(vm, q)
  {
    SameCounts(vm, Store(vm, p, k, w));
    hide RefCount;
  }

  /* ---------- env_setup_vm and env_free ---------- */

  lemma NewDirKeeps(vm: VM)
    requires Inv(vm) && vm.free != []
    ensures Inv(NewDir(vm)) && IsDir(NewDir(vm), vm.free[0]) && vm.free[0] != vm.boot && !IsDir(vm, vm.free[0])
    ensures forall k :: k in vm.tables || k in vm.maps ==> k.dir != vm.free[0]
    ensures forall q :: q != vm.free[0] ==> RefCount(NewDir(vm), q) == RefCount(vm, q)
    ensures forall q :: Handed(NewDir(vm), q) <==> Handed(vm, q)
  {
    HeadIsFree(vm);
    NewDirInv(vm);
    assert forall q :: q != vm.free[0] ==> RefCount(NewDir(vm), q) == RefCount(vm, q);
    forall k | k in vm.maps ensures k.dir != vm.free[0] { assert TableKey(k) in vm.tables; }
    hide RefCount, Inv;
  }

  lemma NewDirInv(vm: VM)
    requires Inv(vm) && vm.free != []
    ensures Inv(NewDir(vm))
  {
    hide FreeOk, RefCount;
    PopFree(vm, Dir);
    FreeFrame(vm.(free := vm.free[1..], role := vm.role[vm.free[0] := Dir]), NewDir(vm));
  }

  lemma DropTableKeeps(vm: VM, t: Key)
    requires Inv(vm) && t in vm.tables
    requires forall k :: k in vm.maps ==> TableKey(k) != t
    ensures Inv(DropTable(vm, t)) && vm.tables[t] !in vm.data
    ensures forall q :: q != vm.tables[t] ==> RefCount(DropTable(vm, t), q) == RefCount(vm, q)
    ensures forall q :: Handed(DropTable(vm, t), q) <==> Handed(vm, q)
  {
    var w := DropTable(vm, t);
    DropTableInv(vm, t);
    TableRole(vm, t);
    hide RefCount, Inv;
    forall q | q != vm.tables[t] ensures RefCount(w, q) == RefCount(vm, q) {
      CountDropTable(vm, t, q);
    }
  }

  lemma TableRole(vm: VM, t: Key)
    requires Inv(vm) && t in vm.tables
    ensures vm.tables[t] in vm.role && vm.role[vm.tables[t]] == Table(t) && vm.tables[t] !in vm.data
  {
    var f := vm.tables[t];
    assert f !in vm.data;
  }

  lemma DropTableInv(vm: VM, t: Key)
    requires Inv(vm) && t in vm.tables
    requires forall k :: k in vm.maps ==> TableKey(k) != t
    ensures Inv(DropTable(vm, t))
  {
    TableRole(vm, t);
    PushFree(vm, vm.tables[t]);
    DropTableTables(vm, t);
    hide FreeOk, TablesOk;
    FreeFrame(vm.(free := [vm.tables[t]] + vm.free, role := vm.role[vm.tables[t] := Free]), DropTable(vm, t));
  }

  lemma DropTableTables(vm: VM, t: Key)
    requires Inv(vm) && t in vm.tables
    ensures TablesOk(DropTable(vm, t))
  {
    hide FreeOk, MapsOk;
  }

  lemma CountDropTable(vm: VM, t: Key, q: int)
    requires t in vm.tables && q != vm.tables[t]
    ensures RefCount(DropTable(vm, t), q) == RefCount(vm, q)
  {
    assert PdeRefs(DropTable(vm, t).tables, q) == PdeRefs(vm.tables, q);
  }

  /** Giving a directory back changes no count but its own: what its lost tables held stays held. */
  lemma DropDirKeeps(vm: VM, d: int)
    requires Inv(vm) && IsDir(vm, d) && d != vm.boot
    ensures Inv(DropDir(vm, d)) && d in vm.role && d !in vm.data
    ensures forall q :: q in vm.role && q != d ==> RefCount(DropDir(vm, d), q) == RefCount(vm, q)
    ensures forall q :: Handed(DropDir(vm, d), q) <==> Handed(vm, q)
    ensures forall e :: IsDir(DropDir(vm, d), e) <==> IsDir(vm, e) && e != d
  {
    var w := DropDir(vm, d);
    DropDirInv(vm, d);
    forall q | q in vm.role && q != d ensures RefCount(w, q) == RefCount(vm, q) { CountDropDir(vm, d, q); }
    hide RefCount, DropDir;
    forall q ensures Handed(w, q) <==> Handed(vm, q) { DropDirData(vm, d, q); }
  }

  lemma DropDirData(vm: VM, d: int, q: int)
    requires Inv(vm) && IsDir(vm, d) && d != vm.boot
    ensures DropDir(vm, d).data == vm.data && (q in vm.data ==> q in vm.role && q != d)
  {}

  lemma DropDirInv(vm: VM, d: int)
    requires Inv(vm) && IsDir(vm, d) && d != vm.boot
    ensures Inv(DropDir(vm, d)) && d in vm.role && d !in vm.data
    ensures forall e :: IsDir(DropDir(vm, d), e) <==> IsDir(vm, e) && e != d
  {
    hide RefCount, FreeOk;
    DropDirFreeList(vm, d);
    DropDirRoles(vm, d);
    DropDirTables(vm, d);
    hide TablesOk, Roles;
  }

  lemma DropDirFreeList(vm: VM, d: int)
    requires Inv(vm) && IsDir(vm, d) && d != vm.boot
    ensures FreeOk(DropDir(vm, d))
  {
    hide RefCount, TablesOk, MapsOk, Roles, PagesOf;
    assert d !in vm.free;
    assert forall x :: x in DropDir(vm, d).free <==> x == d || x in vm.free;
  }

  lemma DropDirRoles(vm: VM, d: int)
    requires Inv(vm) && IsDir(vm, d) && d != vm.boot
    ensures Roles(DropDir(vm, d))
  {
    var w := DropDir(vm, d);
    forall f | f in w.role && w.role[f] != Data
      ensures Pins(w, f) == if w.role[f] == Dir || w.role[f] == Lost then 1 else 0
    {
      if f != d && !TableOf(vm.role[f], d) { assert PagesOf(vm.maps, d, f) == {}; }
    }
    assert vm.role[VECTORS] == Data;
  }

  lemma DropDirTables(vm: VM, d: int)
    requires Inv(vm) && IsDir(vm, d) && d != vm.boot
    ensures TablesOk(DropDir(vm, d))
  {
    hide FreeOk, MapsOk, Roles, PagesOf;
    var w := DropDir(vm, d);
    assert forall k :: k in w.tables ==> k in vm.tables && k.dir != d && w.tables[k] == vm.tables[k];
    assert forall t {:trigger w.role[t].Table?} :: t in w.role && w.role[t].Table? ==>
           t in vm.role && vm.role[t] == w.role[t] && vm.role[t].key.dir != d;
    assert forall e :: e != d && IsDir(vm, e) ==> IsDir(w, e);
  }

  lemma CountDropDir(vm: VM, d: int, q: int)
    requires Inv(vm) && Inv(DropDir(vm, d)) && IsDir(vm, d) && q in vm.role && q != d
    ensures RefCount(DropDir(vm, d), q) == RefCount(vm, q)
  {
    hide Inv, DropDir;
    var w := DropDir(vm, d);
    DropDirIs(vm, d, q);
    if vm.role[q] != Data {
      StructureCounts(vm, q);
      if w.role[q] != Data { StructureCounts(w, q); }
    } else {
      var a, b := PteRefs(w.maps, q), PagesOf(vm.maps, d, q);
      assert PteRefs(vm.maps, q) == a + b && a !! b;
      NoTableAt(vm, q);
      NoTableAt(w, q);
    }
  }

  lemma DropDirIs(vm: VM, d: int, q: int)
    requires q in vm.role && q != d
    ensures var w := DropDir(vm, d);
            && w.maps == (map k | k in vm.maps && k.dir != d :: vm.maps[k])
            && Pins(w, q) == (if TableOf(vm.role[q], d) then 1 else Pins(vm, q) + |PagesOf(vm.maps, d, q)|)
            && q in w.role && w.role[q] == (if TableOf(vm.role[q], d) then Lost else vm.role[q])
  {}

  lemma NoTableAt(vm: VM, q: int)
    requires Inv(vm) && q in vm.role && vm.role[q] == Data
    ensures PdeRefs(vm.tables, q) == {}
  {
    PdeRefsAre(vm, q);
  }

  /** The inner loop of env_free: page_remove on the first j entries of table i. */
  ghost function ClearPtes(vm: VM, d: int, i: nat, j: nat): VM
    decreases j, d
  {
    if j == 0 then vm else Remove(ClearPtes(vm, d, i, j - 1), Key(d, i * 0x100 + j - 1))
  }

  /** The outer loop: clear the table, then drop it. */
  ghost function FreeTables(vm: VM, d: int, n: nat): VM
    decreases n, d
  {
    if n == 0 then vm
    else
      var w := FreeTables(vm, d, n - 1);
      if Key(d, n - 1) in w.tables && Key(d, n - 1) in ClearPtes(w, d, n - 1, 0x100).tables
      then DropTable(ClearPtes(w, d, n - 1, 0x100), Key(d, n - 1)) else w
  }

  ghost function FreeDir(vm: VM, d: int): VM { DropDir(FreeTables(vm, d, UTOP_PDX), d) }

  /** What clearing pages [0, hi) of d must leave alone. */
  ghost predicate Cleared(vm: VM, w: VM, d: int, hi: int) {
    && (forall k :: k in w.maps <==> k in vm.maps && !(k.dir == d && k.no < hi))
    && (forall k :: k in w.maps ==> w.maps[k] == vm.maps[k])
    && (w.npage, w.first, w.boot) == (vm.npage, vm.first, vm.boot) && w.pins == vm.pins
    && (forall q :: Handed(w, q) <==> Handed(vm, q))
    && (forall q :: q in w.data ==> q in vm.data && w.data[q] == vm.data[q])
    && (forall q :: q in vm.role && vm.role[q] == Free ==> q in w.role && w.role[q] == Free)
    && (forall q :: (q in w.role && w.role[q] == Lost) <==> (q in vm.role && vm.role[q] == Lost))
    && (forall e :: IsDir(w, e) <==> IsDir(vm, e))
  }

  lemma ClearedStep(vm: VM, u: VM, w: VM, d: int, n: int)
    requires Inv(u) && Cleared(vm, u, d, n) && Removed(u, w, Key(d, n))
    ensures Cleared(vm, w, d, n + 1)
  {
    hide Inv, RefCount;
    if LastHolder(u, Key(d, n)) { MappedHasTable(u, Key(d, n)); DataIsNoDir(u, u.maps[Key(d, n)].frame); }
  }

  lemma DataIsNoDir(vm: VM, f: int)
    requires Inv(vm) && f in vm.data
    ensures f in vm.role && vm.role[f] == Data && !IsDir(vm, f)
  {}

  lemma {:induction false} ClearPtesKeeps(vm: VM, v: VM, d: int, i: nat, j: nat)
    requires Inv(v) && Cleared(vm, v, d, i * 0x100)
    ensures var w := ClearPtes(v, d, i, j);
            Inv(w) && Cleared(vm, w, d, i * 0x100 + j) && w.tables == v.tables
    decreases j
  {
    hide Inv, Cleared, Removed;
    if j > 0 {
      ClearPtesKeeps(vm, v, d, i, j - 1);
      var u := ClearPtes(v, d, i, j - 1);
      RemoveKeeps(u, Key(d, i * 0x100 + j - 1));
      ClearedStep(vm, u, Remove(u, Key(d, i * 0x100 + j - 1)), d, i * 0x100 + j - 1);
      RemovedTables(u, Remove(u, Key(d, i * 0x100 + j - 1)), Key(d, i * 0x100 + j - 1));
    }
  }

  lemma RemovedTables(vm: VM, w: VM, k: Key)
    requires Removed(vm, w, k)
    ensures w.tables == vm.tables
  {}

  lemma {:induction false} FreeTablesKeeps(vm: VM, d: int, n: nat)
    requires Inv(vm)
    ensures var w := FreeTables(vm, d, n);
            && Inv(w) && Cleared(vm, w, d, n * 0x100)
            && (forall k :: k in w.tables <==> k in vm.tables && !(k.dir == d && 0 <= k.no < n))
            && (forall k :: k in w.tables ==> w.tables[k] == vm.tables[k])
    decreases n
  {
    hide Inv, Cleared, DropTable, ClearPtes;
    if n == 0 {
      ClearedNone(vm, d);
    } else {
      FreeTablesKeeps(vm, d, n - 1);
      var u, t := FreeTables(vm, d, n - 1), Key(d, n - 1);
      if t in u.tables {
        ClearPtesKeeps(vm, u, d, n - 1, 0x100);
        FreeTablesStep(vm, u, ClearPtes(u, d, n - 1, 0x100), t);
      } else {
        ClearedSkip(vm, u, t);
      }
    }
  }

  lemma ClearedNone(vm: VM, d: int)
    requires Inv(vm)
    ensures Cleared(vm, vm, d, 0)
  {
    hide Inv;
    forall k | k in vm.maps ensures k.no >= 0 { MappedHasTable(vm, k); }
  }

  lemma ClearedSkip(vm: VM, u: VM, t: Key)
    requires Inv(u) && Cleared(vm, u, t.dir, t.no * 0x100) && t !in u.tables
    ensures Cleared(vm, u, t.dir, (t.no + 1) * 0x100)
  {
    hide Inv;
    forall k | k in u.maps ensures !(k.dir == t.dir && k.no < (t.no + 1) * 0x100) { MappedHasTable(u, k); }
  }

  lemma FreeTablesStep(vm: VM, u: VM, v: VM, t: Key)
    requires Inv(v) && t in u.tables && v.tables == u.tables && Cleared(vm, v, t.dir, (t.no + 1) * 0x100)
    ensures var w := DropTable(v, t);
            Inv(w) && Cleared(vm, w, t.dir, (t.no + 1) * 0x100) && w.tables == u.tables - {t}
  {
    forall k | k in v.maps ensures TableKey(k) != t {
      MappedHasTable(v, k);
    }
    DropTableKeeps(v, t);
    var w := DropTable(v, t);
    assert v.role[v.tables[t]] == Table(t);
    assert forall e :: IsDir(w, e) <==> IsDir(v, e);
  }

  /** The pages of directory d below UTOP that map p. */
  ghost function UserPages(maps: map<Key, Entry>, d: int, p: int): set<Key> {
    set k | k in maps && k.dir == d && k.no < UTOP_PDX * 0x100 && maps[k].frame == p
  }

  /** Does the teardown free this user frame? */
  ghost predicate OnlyUserPagesOf(vm: VM, d: int, f: int) {
    f in vm.data && RefCount(vm, f) > 0 && RefCount(vm, f) == |UserPages(vm.maps, d, f)|
  }

  /** env_free's teardown of a directory. Its mappings and tables are gone and no other directory
      changed. The count of every user frame dropped by exactly the number of its pages below UTOP
      that mapped it; the frames added to the free list are exactly the directory, its tables below
      UTOP, and the user frames held by nothing but its pages below UTOP. */
  lemma FreeDirConserves(vm: VM, d: int)
    requires Inv(vm) && IsDir(vm, d) && d != vm.boot
    ensures var w := FreeDir(vm, d);
            && Inv(w) && !IsDir(w, d)
            && w.maps == (map k | k in vm.maps && k.dir != d :: vm.maps[k])
            && w.tables == (map k | k in vm.tables && k.dir != d :: vm.tables[k])
            && (forall e :: IsDir(w, e) <==> IsDir(vm, e) && e != d)
            && (w.npage, w.first, w.boot) == (vm.npage, vm.first, vm.boot)
    ensures forall q :: q in vm.data ==> RefCount(FreeDir(vm, d), q) == RefCount(vm, q) - |UserPages(vm.maps, d, q)|
    ensures forall q :: Handed(FreeDir(vm, d), q) <==> Handed(vm, q)
    ensures forall q :: q in FreeDir(vm, d).data ==> q in vm.data && FreeDir(vm, d).data[q] == vm.data[q]
    ensures forall f :: f in FreeDir(vm, d).free <==>
                          || f in vm.free || f == d
                          || (exists k :: k in vm.tables && k.dir == d && k.no < UTOP_PDX && vm.tables[k] == f)
                          || OnlyUserPagesOf(vm, d, f)
  {
    hide Inv, RefCount, FreeTables, Handed, DropDir, OnlyUserPagesOf;
    FreeTablesKeeps(vm, d, UTOP_PDX);
    var u, w := FreeTables(vm, d, UTOP_PDX), FreeDir(vm, d);
    DropDirKeeps(u, d);
    FreeDirShape(vm, u, d);
    forall q | q in vm.data ensures RefCount(w, q) == RefCount(vm, q) - |UserPages(vm.maps, d, q)| {
      FreedCount(vm, u, d, q);
    }
    forall f ensures f in w.free <==>
                       || f in vm.free || f == d
                       || (exists k :: k in vm.tables && k.dir == d && k.no < UTOP_PDX && vm.tables[k] == f)
                       || OnlyUserPagesOf(vm, d, f)
    {
      FreedFrames(vm, u, d, f);
    }
  }

  /** env_free looks only below UTOP: it gives back every page table of the directory exactly when
      no page fault put one at or above UTOP. A table there is lost for good, with its frame and
      one count on every frame it maps. */
  lemma FreeDirLosesIff(vm: VM, d: int)
    requires Inv(vm) && IsDir(vm, d) && d != vm.boot
    ensures (forall k :: k in vm.tables && k.dir == d ==> vm.tables[k] in FreeDir(vm, d).free)
        <==> (forall k :: k in vm.tables && k.dir == d ==> k.no < UTOP_PDX)
    ensures forall k :: k in vm.tables && k.dir == d && k.no >= UTOP_PDX ==>
              var w, t := FreeDir(vm, d), vm.tables[k];
              t in w.role && w.role[t] == Lost && RefCount(w, t) == 1 && t !in w.free
  {
    hide Inv, RefCount, FreeDir;
    forall k | k in vm.tables && k.dir == d && k.no >= UTOP_PDX
      ensures var w, t := FreeDir(vm, d), vm.tables[k];
              t in w.role && w.role[t] == Lost && RefCount(w, t) == 1 && t !in w.free
    {
      LostTable(vm, d, k);
    }
    FreeDirConserves(vm, d);
    forall k | k in vm.tables && k.dir == d && k.no < UTOP_PDX ensures vm.tables[k] in FreeDir(vm, d).free {
      var f := vm.tables[k];
      assert exists k :: k in vm.tables && k.dir == d && k.no < UTOP_PDX && vm.tables[k] == f;
    }
  }

  lemma LostTable(vm: VM, d: int, k: Key)
    requires Inv(vm) && IsDir(vm, d) && d != vm.boot && k in vm.tables && k.dir == d && k.no >= UTOP_PDX
    ensures var w, t := FreeDir(vm, d), vm.tables[k];
            t in w.role && w.role[t] == Lost && RefCount(w, t) == 1 && t !in w.free
  {
    hide FreeTables, Cleared, RefCount;
    FreeDirConserves(vm, d);
    FreeTablesKeeps(vm, d, UTOP_PDX);
    TableRole(FreeTables(vm, d, UTOP_PDX), k);
    StructureCounts(FreeDir(vm, d), vm.tables[k]);
    FreeRole(FreeDir(vm, d), vm.tables[k]);
  }

  lemma FreeDirShape(vm: VM, u: VM, d: int)
    requires Inv(vm) && Inv(u) && Cleared(vm, u, d, UTOP_PDX * 0x100)
    requires forall k :: k in u.tables <==> k in vm.tables && !(k.dir == d && 0 <= k.no < UTOP_PDX)
    requires forall k :: k in u.tables ==> u.tables[k] == vm.tables[k]
    ensures var w := DropDir(u, d);
            && w.maps == (map k | k in vm.maps && k.dir != d :: vm.maps[k])
            && w.tables == (map k | k in vm.tables && k.dir != d :: vm.tables[k])
            && (w.npage, w.first, w.boot) == (vm.npage, vm.first, vm.boot) && w.data == u.data
  {
    hide Inv, RefCount, Handed;
  }

  lemma TableIsSlot(vm: VM, k: Key)
    requires Inv(vm) && k in vm.tables
    ensures TableSlot(vm, k)
  {}

  lemma FreeRole(vm: VM, q: int)
    requires Inv(vm)
    ensures q in vm.free <==> q in vm.role && vm.role[q] == Free
  {}

  /** The count of a user frame after the loops of env_free, and after the directory is gone. */
  lemma FreedCount(vm: VM, u: VM, d: int, q: int)
    requires Inv(vm) && Inv(u) && IsDir(vm, d) && d != vm.boot && Cleared(vm, u, d, UTOP_PDX * 0x100) && q in vm.data
    requires forall k :: k in u.tables <==> k in vm.tables && !(k.dir == d && 0 <= k.no < UTOP_PDX)
    requires forall k :: k in u.tables ==> u.tables[k] == vm.tables[k]
    requires forall p :: p in u.role && p != d ==> RefCount(DropDir(u, d), p) == RefCount(u, p)
    ensures RefCount(DropDir(u, d), q) == RefCount(u, q) == RefCount(vm, q) - |UserPages(vm.maps, d, q)|
  {
    hide DropDir, Inv, Handed, IsDir, PteRefs, PdeRefs, UserPages;
    FreedPtes(vm, u, d, q);
    FreedPdes(vm, u, q);
    DataIsNoDir(vm, q);
    DirIsNoData(vm, d);
  }

  lemma DirIsNoData(vm: VM, d: int)
    requires Inv(vm) && IsDir(vm, d)
    ensures d !in vm.data
  {}

  lemma FreedPtes(vm: VM, u: VM, d: int, q: int)
    requires Cleared(vm, u, d, UTOP_PDX * 0x100)
    ensures |PteRefs(u.maps, q)| == |PteRefs(vm.maps, q)| - |UserPages(vm.maps, d, q)| && u.pins == vm.pins
  {
    hide Handed, IsDir;
    var a, b := PteRefs(u.maps, q), UserPages(vm.maps, d, q);
    assert PteRefs(vm.maps, q) == a + b && a !! b;
  }

  lemma FreedPdes(vm: VM, u: VM, q: int)
    requires Inv(vm) && Inv(u) && q in vm.data && vm.npage == u.npage && vm.first == u.first
    requires forall k :: k in u.tables ==> k in vm.tables && u.tables[k] == vm.tables[k]
    ensures PdeRefs(vm.tables, q) == PdeRefs(u.tables, q) == {} && q in u.role
  {
    PdeRefsAre(vm, q);
    assert PdeRefs(u.tables, q) <= PdeRefs(vm.tables, q);
  }

  lemma TableStays(vm: VM, w: VM, f: int)
    requires Inv(vm) && Inv(w) && f in w.role
    requires forall k :: k in w.tables ==> k in vm.tables && vm.tables[k] == w.tables[k]
    ensures w.role[f].Table? ==> f in vm.role && vm.role[f] == w.role[f]
  {}

  lemma FreedFrames(vm: VM, u: VM, d: int, f: int)
    requires Inv(vm) && Inv(u) && Inv(DropDir(u, d)) && IsDir(vm, d) && d != vm.boot
             && Cleared(vm, u, d, UTOP_PDX * 0x100)
    requires forall k :: k in u.tables <==> k in vm.tables && !(k.dir == d && 0 <= k.no < UTOP_PDX)
    requires forall k :: k in u.tables ==> u.tables[k] == vm.tables[k]
    requires forall p :: p in u.role && p != d ==> RefCount(DropDir(u, d), p) == RefCount(u, p)
    ensures f in DropDir(u, d).free <==>
              || f in vm.free || f == d
              || (exists k :: k in vm.tables && k.dir == d && k.no < UTOP_PDX && vm.tables[k] == f)
              || OnlyUserPagesOf(vm, d, f)
  {
    hide DropDir, RefCount, Inv;
    DropDirFree(u, d, f);
    if f in vm.role {
      SameFrames(vm, u, f);
      FreeRole(u, f);
      FreeRole(vm, f);
      TableStays(vm, u, f);
      match vm.role[f]
      case Free =>
      case Lost =>
      case Dir => assert IsDir(vm, f) && IsDir(u, f);
      case Table(k) =>
        assert !IsDir(vm, f);
        TableSlotOf(vm, f);
        if k in u.tables { TableRole(u, k); }
      case Data =>
        assert !IsDir(vm, f);
        DataNotTable(vm, f);
        FreedCount(vm, u, d, f);
        Partition(vm, f);
        Partition(u, f);
    } else {
      NotInRole(vm, u, f);
    }
  }

  lemma DropDirFree(u: VM, d: int, f: int)
    ensures f in DropDir(u, d).free <==> f == d || f in u.free
  {}

  lemma SameFrames(vm: VM, u: VM, f: int)
    requires Inv(vm) && Inv(u) && (u.npage, u.first, u.boot) == (vm.npage, vm.first, vm.boot)
    ensures f in vm.role <==> f in u.role
    ensures f in vm.role ==>
              f != vm.boot && (IsDir(vm, f) <==> vm.role[f] == Dir) && (IsDir(u, f) <==> u.role[f] == Dir)
    ensures f in vm.role && !vm.role[f].Table? ==> forall k :: k in vm.tables ==> vm.tables[k] != f
    ensures (f in u.data <==> f in u.role && u.role[f] == Data)
            && (f in vm.data <==> f in vm.role && vm.role[f] == Data)
    ensures f in u.role && u.role[f].Table? ==> u.role[f].key in u.tables && u.tables[u.role[f].key] == f
  {}

  lemma TableSlotOf(vm: VM, f: int)
    requires Inv(vm) && f in vm.role && vm.role[f].Table?
    ensures vm.role[f].key in vm.tables && vm.tables[vm.role[f].key] == f && 0 <= vm.role[f].key.no && f !in vm.data
    ensures forall k :: k in vm.tables && vm.tables[k] == f ==> k == vm.role[f].key
  {}

  lemma DataNotTable(vm: VM, f: int)
    requires Inv(vm) && f in vm.role && vm.role[f] == Data
    ensures f in vm.data && forall k :: k in vm.tables ==> vm.tables[k] != f
  {}

  lemma NotInRole(vm: VM, u: VM, f: int)
    requires Inv(vm) && Inv(u) && f !in vm.role && (u.npage, u.first, u.boot) == (vm.npage, vm.first, vm.boot)
    ensures f !in u.role && f !in vm.free && f !in u.free && f !in vm.data
    ensures forall k :: k in vm.tables ==> vm.tables[k] != f
    ensures forall e :: IsDir(vm, e) && e != vm.boot ==> e != f
  {}

  /* ---------- the copy loop of sys_env_alloc ---------- */

  /** Pages [0, n) of src are inserted, with their own frames and permissions, into dst; the
      first failure ends the loop. */
  ghost function CopyPages(vm: VM, src: int, dst: int, n: nat): (VM, int)
    decreases n, src
  {
    if n == 0 then (vm, 0)
    else
      var (u, r) := CopyPages(vm, src, dst, n - 1);
      if r < 0 || Key(src, n - 1) !in u.maps then (u, r)
      else Insert(u, dst, u.maps[Key(src, n - 1)].frame, (n - 1) * BY2PG, u.maps[Key(src, n - 1)].perm)
  }

  /** Below page n, dst has exactly src's entries; every other directory is as it was. */
  ghost predicate CopiedMaps(m: map<Key, Entry>, w: map<Key, Entry>, src: int, dst: int, n: int) {
    && (forall k: Key {:trigger k in w} {:trigger k in m} :: k.dir != dst ==>
          (k in w <==> k in m) && (k in w ==> w[k] == m[k]))
    && (forall v {:trigger Key(dst, v) in w} {:trigger Key(src, v) in m} :: Key(dst, v) in w <==>
          Key(src, v) in m && v < n)
    && (forall v {:trigger w[Key(dst, v)]} :: Key(dst, v) in w ==> w[Key(dst, v)] == m[Key(src, v)])
  }

  ghost predicate Copied(vm: VM, w: VM, src: int, dst: int, n: int) {
    && CopiedMaps(vm.maps, w.maps, src, dst, n)
    && (w.npage, w.first, w.boot) == (vm.npage, vm.first, vm.boot) && w.pins == vm.pins
    && w.data == vm.data
    && (forall q :: Handed(w, q) <==> Handed(vm, q))
    && (forall k :: k in w.tables && k !in vm.tables ==> k.dir == dst && Key(src, k.no) in vm.tables)
    && (forall k :: k in vm.tables ==> k in w.tables && w.tables[k] == vm.tables[k])
    && (forall e :: IsDir(w, e) <==> IsDir(vm, e))
  }

  lemma CopiedMapsExtend(m: map<Key, Entry>, u: map<Key, Entry>, src: int, dst: int, n: int)
    requires CopiedMaps(m, u, src, dst, n) && src != dst && Key(src, n) in u
    ensures CopiedMaps(m, u[Key(dst, n) := u[Key(src, n)]], src, dst, n + 1)
  {
    var w := u[Key(dst, n) := u[Key(src, n)]];
    assert Key(src, n) in m && u[Key(src, n)] == m[Key(src, n)];
    forall v ensures Key(dst, v) in w <==> Key(src, v) in m && v < n + 1 {
      assert Key(dst, v) in w <==> Key(dst, v) in u || v == n;
    }
  }

  /** Copying into an empty directory: whatever the outcome, the pages copied so far are those
      below some n, with the parent's frames and permissions; on success n is the bound. */
  lemma {:induction false} CopyPagesKeeps(vm: VM, src: int, dst: int, n: nat)
    requires Inv(vm) && IsDir(vm, dst) && src != dst && dst != vm.boot && n <= ULIM_VPN
    requires forall k :: k in vm.maps ==> k.dir != dst
    ensures var (w, r) := CopyPages(vm, src, dst, n);
            && Inv(w) && IsDir(w, dst) && w.boot == vm.boot && (r == 0 || r == -E_NO_MEM)
            && (r == 0 ==> Copied(vm, w, src, dst, n))
            && (r < 0 ==> w.free == [] && exists m :: m < n && Copied(vm, w, src, dst, m))
    decreases n
  {
    hide Inv, Copied, Insert;
    if n == 0 {
      CopiedNone(vm, src, dst);
    } else {
      CopyPagesKeeps(vm, src, dst, n - 1);
      var (u, r) := CopyPages(vm, src, dst, n - 1);
      if r == 0 && Key(src, n - 1) in u.maps {
        CopyPagesStep(vm, u, src, dst, n - 1);
      } else if r == 0 {
        CopiedSkip(vm, u, src, dst, n - 1);
      }
    }
  }

  lemma CopiedNone(vm: VM, src: int, dst: int)
    requires Inv(vm)
    requires forall k :: k in vm.maps ==> k.dir != dst
    ensures Copied(vm, vm, src, dst, 0)
  {
    hide Inv;
    forall k | k in vm.maps ensures k.no >= 0 { MappedHasTable(vm, k); }
  }

  lemma CopiedSkip(vm: VM, u: VM, src: int, dst: int, n: nat)
    requires Copied(vm, u, src, dst, n) && src != dst && Key(src, n) !in u.maps
    ensures Copied(vm, u, src, dst, n + 1)
  {}

  lemma CopiedExtend(vm: VM, u: VM, w: VM, src: int, dst: int, n: nat)
    requires Copied(vm, u, src, dst, n) && src != dst && Key(src, n) in u.maps
    requires w.maps == u.maps[Key(dst, n) := u.maps[Key(src, n)]]
    requires (w.npage, w.first, w.boot) == (u.npage, u.first, u.boot) && w.pins == u.pins && w.data == u.data
    requires forall q :: Handed(w, q) <==> Handed(u, q)
    requires Key(src, n / 0x100) in u.tables
    requires forall k :: k in u.tables ==> k in w.tables && w.tables[k] == u.tables[k]
    requires forall k :: k in w.tables && k !in u.tables ==> k == Key(dst, n / 0x100)
    requires forall e :: IsDir(w, e) <==> IsDir(u, e)
    ensures Copied(vm, w, src, dst, n + 1)
  {
    hide RefCount, Handed, IsDir, CopiedMaps;
    CopiedMapsExtend(vm.maps, u.maps, src, dst, n);
    CopiedMapsSource(vm.maps, u.maps, src, dst, n);
  }

  lemma CopiedMapsSource(m: map<Key, Entry>, u: map<Key, Entry>, src: int, dst: int, n: int)
    requires CopiedMaps(m, u, src, dst, n) && src != dst && Key(src, n) in u
    ensures Key(src, n) in m && u[Key(src, n)] == m[Key(src, n)]
  {}

  lemma CopiedFacts(vm: VM, u: VM, src: int, dst: int, n: nat)
    requires Copied(vm, u, src, dst, n)
    ensures Key(dst, n) !in u.maps
  {}

  lemma CopyPagesStep(vm: VM, u: VM, src: int, dst: int, n: nat)
    requires Inv(u) && IsDir(u, dst) && src != dst && dst != u.boot && n < ULIM_VPN
    requires Copied(vm, u, src, dst, n) && Key(src, n) in u.maps
    ensures var e := u.maps[Key(src, n)];
            var (w, r) := Insert(u, dst, e.frame, n * BY2PG, e.perm);
            && Inv(w) && IsDir(w, dst) && w.boot == u.boot && (r == 0 || r == -E_NO_MEM)
            && (r == 0 ==> Copied(vm, w, src, dst, n + 1))
            && (r < 0 ==> w == u && u.free == [])
  {
    hide Inv, RefCount, Insert, Copied, Handed;
    CopiedFacts(vm, u, src, dst, n);
    var e := u.maps[Key(src, n)];
    var va := n * BY2PG;
    assert VPN(va) == n && PDX(va) == n / 0x100 && !SectionMapped(va);
    MappedHasTable(u, Key(src, n));
    InsertOutcome(u, dst, e.frame, va, e.perm);
    var (w, r) := Insert(u, dst, e.frame, va, e.perm);
    if r == 0 {
      InsertKeeps(u, dst, e.frame, va, e.perm);
      EntryPerm(u, Key(src, n));
      HandedNotMapped(u, Key(src, n));
      InsertRoles(u, dst, e.frame, va, e.perm);
      assert Key(dst, n) !in u.maps;
      CopiedExtend(vm, u, w, src, dst, n);
    }
  }

  /** One more holder per page of d still fits every 16-bit counter. */
  ghost predicate CopyFits(vm: VM, d: int) {
    forall q :: q in vm.data ==> RefCount(vm, q) + |PagesOf(vm.maps, d, q)| < 0x1_0000
  }

  /** Once the loop has failed, or while there is nothing to copy, its state stands still. */
  lemma {:induction false} CopyIdle(vm: VM, src: int, dst: int, n: nat, m: nat)
    requires n <= m
    requires CopyPages(vm, src, dst, n).1 < 0
             || forall i :: n <= i < m ==> Key(src, i) !in CopyPages(vm, src, dst, n).0.maps
    ensures CopyPages(vm, src, dst, m) == CopyPages(vm, src, dst, n)
    decreases m
  {
    if n < m { CopyIdle(vm, src, dst, n, m - 1); }
  }

  lemma EntryPerm(vm: VM, k: Key)
    requires Inv(vm) && k in vm.maps
    ensures vm.maps[k].perm | PTE_V == vm.maps[k].perm
  {
    assert vm.maps[k].perm & PTE_V == PTE_V;
  }

  lemma HandedNotMapped(vm: VM, k: Key)
    requires k in vm.maps
    ensures RefCount(vm, vm.maps[k].frame) > 0 && !Handed(vm, vm.maps[k].frame)
  {
    assert k in PteRefs(vm.maps, vm.maps[k].frame);
  }

  lemma RemoveRoles(vm: VM, k: Key)
    requires Inv(vm)
    ensures forall e :: IsDir(Remove(vm, k), e) <==> IsDir(vm, e)
  {
    hide Inv, RefCount;
    if k in vm.maps { MappedHasTable(vm, k); DataIsNoDir(vm, vm.maps[k].frame); }
  }

  /** page_insert neither creates nor destroys directories. */
  lemma InsertRoles(vm: VM, d: int, p: int, va: nat, perm: bv12)
    requires Inv(vm) && InsertFits(vm, d, p, va)
    ensures forall e :: IsDir(Insert(vm, d, p, va, perm).0, e) <==> IsDir(vm, e)
  {
    hide Inv, RefCount, VPN, PDX, Remove, Owner;
    var k := PageOf(vm, d, va);
    RemoveRoles(vm, k);
    RemoveKeeps(vm, k);
    var u := Remove(vm, k);
    if u.free != [] { HeadIsFree(u); }
  }

  /** The pages of p in dst mirror those in src. */
  lemma CopyCounts(vm: VM, w: VM, src: int, dst: int, n: nat, q: int)
    requires Inv(vm) && Inv(w) && Copied(vm, w, src, dst, n) && q in vm.data && src != dst
    requires forall k :: k in vm.maps ==> k.dir != dst
    ensures RefCount(w, q) == RefCount(vm, q) + |PagesOf(w.maps, dst, q)|
  {
    assert PteRefs(w.maps, q) == PteRefs(vm.maps, q) + PagesOf(w.maps, dst, q);
    DataIsNoDir(vm, q);
    DataIsNoDir(w, q);
    PdeRefsAre(vm, q);
    PdeRefsAre(w, q);
  }

  /** Distinct pages of one directory have distinct numbers. */
  lemma {:induction false} NumbersOf(s: set<Key>, d: int)
    requires forall k :: k in s ==> k.dir == d
    ensures |set k | k in s :: k.no| == |s|
  {
    if s != {} {
      var x :| x in s;
      NumbersOf(s - {x}, d);
      assert (set k | k in s :: k.no) == (set k | k in s - {x} :: k.no) + {x.no};
    }
  }

  /** While page n of src is still to be copied, dst maps its frame less often than src does. */
  lemma CopyRoom(vm: VM, u: VM, src: int, dst: int, n: int, q: int)
    requires Copied(vm, u, src, dst, n) && src != dst
    requires Key(src, n) in u.maps && u.maps[Key(src, n)].frame == q
    ensures |PagesOf(u.maps, dst, q)| < |PagesOf(vm.maps, src, q)|
  {
    var a, b := PagesOf(u.maps, dst, q), PagesOf(vm.maps, src, q);
    NumbersOf(a, dst);
    NumbersOf(b, src);
    var na, nb := set k | k in a :: k.no, set k | k in b :: k.no;
    CopiedMapsSource(vm.maps, u.maps, src, dst, n);
    assert Key(src, n) in b;
    forall v | v in na ensures v in nb && v != n {
      var k :| k in a && k.no == v;
      assert k == Key(dst, v) && Key(src, v) in b;
    }
    assert n in nb && na <= nb - {n};
    SubsetCard(na, nb - {n});
  }

  /** A complete copy maps every frame as often as the source does below n. */
  lemma CopyExact(vm: VM, u: VM, src: int, dst: int, n: int, q: int)
    requires Copied(vm, u, src, dst, n) && src != dst
    requires forall k :: k in vm.maps && k.dir == src ==> k.no < n
    ensures |PagesOf(u.maps, dst, q)| == |PagesOf(vm.maps, src, q)|
  {
    var a, b := PagesOf(u.maps, dst, q), PagesOf(vm.maps, src, q);
    NumbersOf(a, dst);
    NumbersOf(b, src);
    var na, nb := set k | k in a :: k.no, set k | k in b :: k.no;
    forall v ensures v in na <==> v in nb {
      if v in na { var k :| k in a && k.no == v; assert k == Key(dst, v) && Key(src, v) in b; }
      if v in nb { var k :| k in b && k.no == v; assert k == Key(src, v) && Key(dst, v) in a; }
    }
    assert na == nb;
  }

  lemma {:induction false} SubsetCard<T>(a: set<T>, b: set<T>)
    requires a <= b
    ensures |a| <= |b|
  {
    if a != {} {
      var x :| x in a;
      SubsetCard(a - {x}, b - {x});
    }
  }
}
