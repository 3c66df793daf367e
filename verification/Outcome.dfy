/** What each system call does, case by case: when it gives which result, and what has changed then
    (lib/svc.c, lib/env.c, mm/pmap.c). */
module Outcome {
  import opened Mmu
  import opened Queue
  import opened Vm
  import opened EnvState
  import Ipc

  /* ---------- environment ids ---------- */

  /** An id names an environment by the id it carries; zero names the caller. */
  ghost predicate NamedBy(k: K, envid: nat, e: int) {
    0 <= e < |k.envs| && k.envs[e].status != ENV_FREE && (if envid == 0 then e == k.cur else k.envs[e].id == envid)
  }

  /** The caller itself, or a child of its own. */
  ghost predicate Permitted(k: K, e: int)
    requires 0 <= e < |k.envs| && NULL <= k.cur < |k.envs|
  {
    e == k.cur || (k.cur != NULL && k.envs[e].parent == k.envs[k.cur].id)
  }

  /** envid2env finds exactly the environment that the id names, if the caller may have it. */
  lemma FindIff(k: K, envid: nat, check: bool, e: int)
    requires KInv(k) && 0 <= e < NENV
    ensures Find(k, envid, check) == e <==> NamedBy(k, envid, e) && (check ==> Permitted(k, e))
  {
    hide Inv, ChainOk, DirsOk;
    if NamedBy(k, envid, e) { assert k.envs[e].id / 0x100 == e; }
  }

  lemma FindRange(k: K, envid: nat, check: bool)
    requires KInv(k)
    ensures |k.envs| == NENV && NULL <= Find(k, envid, check) < NENV
  {
    hide Inv, ChainOk, DirsOk;
  }

  /* ---------- pages ---------- */

  /** The word-by-word content of a new page. */
  ghost predicate Zeroed(vm: VM, p: int) {
    p in vm.data && |vm.data[p]| == 1024 && forall j :: 0 <= j < 1024 ==> vm.data[p][j] == ZERO
  }

  lemma AllocZeroed(vm: VM)
    requires Inv(vm) && vm.free != []
    ensures Zeroed(Alloc(vm), vm.free[0]) && Alloc(vm).maps == vm.maps && Alloc(vm).tables == vm.tables
    ensures Alloc(vm).free == vm.free[1..] && Alloc(vm).boot == vm.boot
    ensures forall key :: key in vm.maps ==> vm.maps[key].frame != vm.free[0]
  {
    HeadIsFree(vm);
    forall key | key in vm.maps ensures vm.maps[key].frame != vm.free[0] { MappedHasTable(vm, key); }
  }

  lemma RoundDownPage(va: nat)
    ensures VPN(RoundDown(va)) == VPN(va) && PDX(RoundDown(va)) == PDX(va) && RoundDown(va) <= va
  {
    assert RoundDown(va) == VPN(va) * BY2PG;
    assert va / PDMAP == va / BY2PG / 0x100 && RoundDown(va) / PDMAP == RoundDown(va) / BY2PG / 0x100;
  }

  /** page_insert below ULIM, by its keys. */
  lemma LowInsert(vm: VM, d: int, p: int, va: nat, perm: bv12)
    requires Inv(vm) && IsDir(vm, d) && d != vm.boot && p in vm.data && va < ULIM
    ensures var (w, r) := Insert(vm, d, p, va, perm);
            && (r == 0 || r == -E_NO_MEM)
            && (r == -E_NO_MEM <==> Key(d, PDX(va)) !in vm.tables && vm.free == [])
            && (r < 0 ==> w == vm)
            && (r == 0 ==>
                  && Inv(w) && w.maps == vm.maps[Key(d, VPN(va)) := Entry(p, perm | PTE_V)]
                  && (!Maps(vm, Key(d, VPN(va)), p) ==> RefCount(w, p) == RefCount(vm, p) + 1)
                  && p in w.data && w.data[p] == vm.data[p])
  {
    hide Inv, RefCount, Insert, PageOf, SlotOf;
    LowPage(vm, d, va);
    InsertOutcome(vm, d, p, va, perm);
    if Insert(vm, d, p, va, perm).1 == 0 { InsertKeeps(vm, d, p, va, perm); }
  }

  /* ---------- sys_mem_alloc, sys_mem_unmap, sys_mem_map ---------- */

  /** sys_mem_alloc: each error exactly under its condition, the earlier ones first; a success maps a
      zeroed page that nobody else holds at va of the target, and nothing else. When the frame is there
      but its page table is not, the frame is lost. */
  lemma MemAllocOutcome(k: K, envid: nat, va: nat, perm: bv12)
    requires KInv(k)
    ensures var (w, r) := SysMemAlloc(k, envid, va, perm);
            var e := Find(k, envid, false);
            && |k.envs| == NENV && e < NENV && w == k.(vm := w.vm) && -E_NO_MEM <= r <= 0
            && (r == -E_UNSPECIFIED <==> va >= UTOP)
            && (r == -E_INVAL <==> va < UTOP && perm & PTE_V == 0)
            && (r == -E_BAD_ENV <==> va < UTOP && perm & PTE_V != 0 && e == NULL)
            && (r == -E_NO_MEM <==>
                  && va < UTOP && perm & PTE_V != 0 && e >= 0
                  && (k.vm.free == [] || (|k.vm.free| == 1 && Key(k.envs[e].pgdir, PDX(va)) !in k.vm.tables)))
            && (r < 0 ==> w.vm == if r == -E_NO_MEM && k.vm.free != [] then Alloc(k.vm) else k.vm)
            && (r == 0 ==>
                  && e >= 0 && k.vm.free != [] && Zeroed(w.vm, k.vm.free[0]) && RefCount(w.vm, k.vm.free[0]) == 1
                  && w.vm.maps == k.vm.maps[Key(k.envs[e].pgdir, VPN(va)) := Entry(k.vm.free[0], perm | PTE_V)])
  {
    hide KInv, Inv, Insert, Alloc, Find, IsDir, RefCount;
    KInvParts(k);
    FindRange(k, envid, false);
    var e := Find(k, envid, false);
    if va < UTOP && perm & PTE_V != 0 && e != NULL && k.vm.free != [] {
      FindLive(k, envid, false);
      AllocDirs(k.vm);
      AllocZeroed(k.vm);
      AllocKeeps(k.vm);
      SameDirsUse(k.vm, Alloc(k.vm), k.envs[e].pgdir);
      LowInsert(Alloc(k.vm), k.envs[e].pgdir, k.vm.free[0], va, perm);
    }
  }

  /** sys_mem_unmap: the errors, and otherwise exactly one page of the target is gone, if it was there. */
  lemma MemUnmapOutcome(k: K, envid: nat, va: nat)
    requires KInv(k)
    ensures var (w, r) := SysMemUnmap(k, envid, va);
            var e := Find(k, envid, true);
            && |k.envs| == NENV && e < NENV && w == k.(vm := w.vm)
            && (r == 0 || r == -E_INVAL || r == -E_BAD_ENV)
            && (r == -E_INVAL <==> va >= UTOP)
            && (r == -E_BAD_ENV <==> va < UTOP && e == NULL)
            && (r < 0 ==> w == k)
            && (r == 0 ==>
                  && e >= 0 && Removed(k.vm, w.vm, Key(k.envs[e].pgdir, VPN(va)))
                  && w.vm.maps == k.vm.maps - {Key(k.envs[e].pgdir, VPN(va))})
  {
    hide KInv, Inv, Remove, Find;
    KInvParts(k);
    FindRange(k, envid, true);
    var e := Find(k, envid, true);
    if e != NULL { RemoveKeeps(k.vm, Key(k.envs[e].pgdir, VPN(va))); }
  }

  /** sys_mem_map: each error exactly under its condition, and then nothing has changed; a success sets
      the page of dstva in the target's map to the frame at srcva of the source, and no other. */
  lemma MemMapOutcome(k: K, srcid: nat, srcva: nat, dstid: nat, dstva: nat, perm: bv12)
    requires KInv(k)
    ensures var (w, r) := SysMemMap(k, srcid, srcva, dstid, dstva, perm);
            var s, d := Find(k, srcid, false), Find(k, dstid, false);
            && |k.envs| == NENV && s < NENV && d < NENV && w == k.(vm := w.vm) && -E_NO_MEM <= r <= 0
            && var low := srcva < UTOP && dstva < UTOP;
               var ids := low && perm & PTE_V != 0 && s >= 0 && d >= 0;
               && (r == -E_UNSPECIFIED <==> !low || (ids && Key(k.envs[s].pgdir, VPN(srcva)) !in k.vm.maps))
               && (r == -E_INVAL <==> low && perm & PTE_V == 0)
               && (r == -E_BAD_ENV <==> low && perm & PTE_V != 0 && !ids)
               && (r == -E_NO_MEM <==>
                     && ids && Key(k.envs[s].pgdir, VPN(srcva)) in k.vm.maps
                     && Key(k.envs[d].pgdir, PDX(dstva)) !in k.vm.tables && k.vm.free == [])
               && (r < 0 ==> w == k)
               && (r == 0 ==>
                     && ids && Key(k.envs[s].pgdir, VPN(srcva)) in k.vm.maps
                     && var p := k.vm.maps[Key(k.envs[s].pgdir, VPN(srcva))].frame;
                        w.vm.maps == k.vm.maps[Key(k.envs[d].pgdir, VPN(dstva)) := Entry(p, perm | PTE_V)])
  {
    hide KInv, Inv, Insert, Find, IsDir, RefCount, RoundDown, VPN, PDX;
    KInvParts(k);
    FindRange(k, srcid, false);
    FindRange(k, dstid, false);
    var s, d := Find(k, srcid, false), Find(k, dstid, false);
    if srcva < UTOP && dstva < UTOP && perm & PTE_V != 0 && s != NULL && d != NULL {
      FindLive(k, srcid, false);
      FindLive(k, dstid, false);
      RoundDownPage(srcva);
      RoundDownPage(dstva);
      LowPage(k.vm, k.envs[s].pgdir, RoundDown(srcva));
      LookupIs(k.vm, k.envs[s].pgdir, RoundDown(srcva));
      if Lookup(k.vm, k.envs[s].pgdir, RoundDown(srcva)) != NULL {
        LowInsert(k.vm, k.envs[d].pgdir, Lookup(k.vm, k.envs[s].pgdir, RoundDown(srcva)), RoundDown(dstva), perm);
      }
    }
  }

  lemma LookupIs(vm: VM, d: int, va: nat)
    requires Inv(vm)
    ensures Lookup(vm, d, va) == NULL <==> PageOf(vm, d, va) !in vm.maps
    ensures Lookup(vm, d, va) != NULL ==> Lookup(vm, d, va) in vm.data
  {
    NullIsNoPage(vm);
    if PageOf(vm, d, va) in vm.maps { MappedHasTable(vm, PageOf(vm, d, va)); }
  }

  /* ---------- sys_env_alloc ---------- */

  /** The slot a fork fills: a new id above the slot number, the caller as parent, a directory of its
      own, and everything else as the slot's last owner left it. */
  ghost predicate ChildSlot(k: K, child: Env, c: nat)
    requires 0 <= c < |k.envs| && 0 <= k.cur < |k.envs| && k.vm.free != []
  {
    && child == k.envs[c].(id := child.id, parent := k.envs[k.cur].id, status := ENV_NOT_RUNNABLE,
                           pgdir := k.vm.free[0])
    && child.id / 0x100 == c && child.id % 0x100 == (k.nextId + 1) % 0x100
  }

  /** sys_env_alloc: no slot, no frame for the directory, or a slot taken off the free list and filled.
      Only when the copy runs out of frames is the slot filled and the result still an error. */
  lemma ForkOutcome(k: K)
    requires KInv(k) && k.running
    ensures var (w, r) := SysEnvAlloc(k);
            && (r >= 0 || r == -E_NO_MEM || r == -E_NO_FREE_ENV) && (r == -E_NO_FREE_ENV <==> k.freeq == [])
            && (k.freeq != [] && k.vm.free == [] ==> r == -E_NO_MEM)
            && (k.freeq == [] || k.vm.free == [] ==> w == k)
            && (k.freeq != [] && k.vm.free != [] ==>
                  var c := k.freeq[0];
                  && |k.envs| == |w.envs| == NENV && c < NENV && k.envs[c].status == ENV_FREE && c != k.cur
                  && w == k.(vm := w.vm, envs := k.envs[c := w.envs[c]], freeq := k.freeq[1..], nextId := k.nextId + 1)
                  && 0 <= k.cur < NENV && ChildSlot(k, w.envs[c], c)
                  && (r >= 0 ==> r == w.envs[c].id) && (r < 0 ==> w.vm.free == []))
  {
    hide KInv, Inv, EnvsOk, ChainOk, DirsOk, CopyPages, EnvAlloc, IsDir;
    KInvParts(k);
    CurrentIsDir(k);
    CurrentIsLive(k);
    AllocFails(k, k.envs[k.cur].id);
    if k.freeq != [] && k.vm.free != [] {
      EnvAllocKeeps(k, k.envs[k.cur].id);
      EnvAllocFrame(k, k.envs[k.cur].id);
      EnvAllocSlot(k, k.envs[k.cur].id);
      var (u, e) := EnvAlloc(k, k.envs[k.cur].id);
      KInvParts(u);
      CopyResult(u.vm, k.envs[k.cur].pgdir, u.envs[e].pgdir);
    }
  }

  lemma CurrentIsLive(k: K)
    requires EnvsOk(k) && k.running
    ensures |k.envs| == NENV && 0 <= k.cur < NENV && k.envs[k.cur].status != ENV_FREE
  {}

  lemma CopyResult(vm: VM, src: int, dst: int)
    requires Inv(vm) && IsDir(vm, dst) && src != dst && dst != vm.boot
    requires forall k :: k in vm.maps ==> k.dir != dst
    ensures var (w, r) := CopyPages(vm, src, dst, ULIM_VPN);
            (r == 0 || r == -E_NO_MEM) && (r < 0 ==> w.free == [])
  {
    hide Inv, Copied, CopyPages;
    CopyPagesKeeps(vm, src, dst, ULIM_VPN);
  }

  lemma AllocFails(k: K, parent: nat)
    requires EnvsOk(k)
    ensures EnvAlloc(k, parent).1 >= 0 <==> k.freeq != [] && k.vm.free != []
    ensures EnvAlloc(k, parent).1 < 0 ==>
      EnvAlloc(k, parent) == (k, if k.freeq == [] then -E_NO_FREE_ENV else -E_NO_MEM)
  {}

  /** fork(): the parent can start the child it was given, unless the child's id is zero, which slot 0
      gets every 256th time and which means the caller. The result is 0, the child is at the head of
      the run list, and nothing else has changed since. */
  lemma ForkThenRun(k: K)
    requires KInv(k) && k.running && SysEnvAlloc(k).1 >= 0
    ensures var (w, r) := SysEnvAlloc(k);
            && KInv(w) && k.freeq != []
            && var (u, s) := SysSetEnvStatus(w, r, ENV_RUNNABLE);
               var c := k.freeq[0];
               && s == 0 && c < NENV && |w.envs| == |u.envs| == NENV
               && (u.envs[c].status == ENV_RUNNABLE <==> r != 0)
               && (r != 0 ==>
                     && u.runq == [c] + k.runq && u.envs == w.envs[c := w.envs[c].(status := ENV_RUNNABLE)]
                     && u.vm == w.vm && u.freeq == w.freeq && u.cur == k.cur && u.running)
  {
    hide Inv, ChainOk, DirsOk, SysEnvAlloc, SetStatusOf, ChildSlot, NoDup, Find;
    ForkKeeps(k);
    ForkOutcome(k);
    var (w, r) := SysEnvAlloc(k);
    var c := k.freeq[0];
    ChildIsFound(k, w, c);
    var e := Find(w, r, true);
    SetStatusFrame(w, e, ENV_RUNNABLE);
    StatusLists(w, e, ENV_RUNNABLE);
  }

  lemma ChildIsFound(k: K, w: K, c: nat)
    requires KInv(w) && |k.envs| == NENV && 0 <= k.cur < NENV && c < NENV && c != k.cur && k.vm.free != []
    requires w.envs == k.envs[c := w.envs[c]] && w.cur == k.cur && ChildSlot(k, w.envs[c], c)
    requires k.envs[k.cur].status != ENV_FREE
    ensures Find(w, w.envs[c].id, true) == if w.envs[c].id != 0 then c else k.cur as nat
    ensures w.envs[c].status == ENV_NOT_RUNNABLE
  {
    hide Inv, ChainOk, DirsOk;
    FindIff(w, w.envs[c].id, true, c);
    FindIff(w, w.envs[c].id, true, k.cur);
  }

  /* ---------- sys_set_env_status ---------- */

  /** The run list after a change between the two live statuses. */
  ghost function ListAfter(q: seq<nat>, e: nat, was: nat, status: nat): seq<nat>
    requires was == ENV_RUNNABLE && status == ENV_NOT_RUNNABLE ==> e in q
  {
    if was == status then q else if status == ENV_RUNNABLE then [e] + q
    else if was == ENV_RUNNABLE then Without(q, e) else q
  }

  lemma StatusLists(k: K, e: nat, status: nat)
    requires EnvsOk(k) && ChainOk(k) && e < NENV && k.envs[e].status != ENV_FREE
    requires status == ENV_RUNNABLE || status == ENV_NOT_RUNNABLE
    ensures k.envs[e].status == ENV_RUNNABLE ==> e in k.runq
    ensures SetStatusOf(k, e, status).runq == ListAfter(k.runq, e, k.envs[e].status, status)
  {
    hide Forward, Linked, Backed, NoDup;
  }

  /** sys_set_env_status: each error exactly under its condition, and then nothing has changed; else
      the environment that the id names, and it alone, has the status. With a live status it joins the
      run list at the head, leaves it, or stays where it was. */
  lemma SetStatusOutcome(k: K, envid: nat, status: nat)
    requires KInv(k)
    ensures var (w, r) := SysSetEnvStatus(k, envid, status);
            var e := Find(k, envid, true);
            && |k.envs| == NENV && e < NENV && (r == 0 || r == -E_INVAL || r == -E_BAD_ENV)
            && (r == -E_INVAL <==> status !in {ENV_FREE, ENV_RUNNABLE, ENV_NOT_RUNNABLE})
            && (r == -E_BAD_ENV <==> status in {ENV_FREE, ENV_RUNNABLE, ENV_NOT_RUNNABLE} && e == NULL)
            && (r < 0 ==> w == k)
            && (r == 0 ==>
                  && e >= 0 && w.envs == k.envs[e := k.envs[e].(status := status)] && w.vm == k.vm
                  && (w.freeq, w.cur, w.running) == (k.freeq, k.cur, k.running)
                  && (k.envs[e].status == ENV_RUNNABLE ==> e in k.runq)
                  && w.runq == if status == ENV_FREE then k.runq else ListAfter(k.runq, e, k.envs[e].status, status))
  {
    hide Inv, ChainOk, DirsOk, SetStatusOf, Find;
    FindRange(k, envid, true);
    var e := Find(k, envid, true);
    if e != NULL {
      FindLive(k, envid, true);
      if status == ENV_RUNNABLE || status == ENV_NOT_RUNNABLE {
        SetStatusFrame(k, e, status);
        StatusLists(k, e, status);
      }
    }
  }

  /* ---------- the results of sys_ipc_can_send ---------- */

  /** What ipc_send of the user library loops on: -E_IPC_NOT_RECV exactly while the target exists and
      does not wait. Every other failure is -E_INVAL, but for a source address without a page, which
      is 0; each exactly under its condition, the earlier ones first. */
  lemma SendCodes(k: K, envid: nat, value: Word, srcva: nat, perm: bv12)
    requires KInv(k) && k.running
    ensures var r := SysIpcCanSend(k, envid, value, srcva, perm).1;
            var e := Find(k, envid, false);
            && |k.envs| == NENV && e < NENV && 0 <= k.cur < NENV
            && (r == 0 || r == -E_INVAL || r == -E_IPC_NOT_RECV)
            && (r == -E_IPC_NOT_RECV <==> srcva < UTOP && e >= 0 && !k.envs[e].recving)
            && (r == -E_INVAL <==>
                  || srcva >= UTOP || e == NULL
                  || (k.envs[e].recving && srcva != 0 && Lookup(k.vm, k.envs[k.cur].pgdir, srcva) != NULL
                      && Key(k.envs[e].pgdir, PDX(k.envs[e].dstva)) !in k.vm.tables && k.vm.free == []))
  {
    hide KInv, Inv, Insert, Find, Lookup, Effect, RefCount, PDX, VPN;
    KInvParts(k);
    FindRange(k, envid, false);
    var e := Find(k, envid, false);
    if e != NULL { FindLive(k, envid, false); }
    if srcva < UTOP && e != NULL && k.envs[e].recving && srcva != 0 {
      var p := Lookup(k.vm, k.envs[k.cur].pgdir, srcva);
      if p != NULL {
        LookupData(k.vm, k.envs[k.cur].pgdir, srcva);
        Ipc.DstvaSmall(k, e);
        LowInsert(k.vm, k.envs[e].pgdir, p, k.envs[e].dstva, perm);
      }
    }
  }

  /* ---------- sys_ipc_recv, sys_env_destroy ---------- */

  /** The scheduler has chosen among what is left on the list. */
  ghost predicate Rescheduled(w: K) { (w.running <==> w.runq != []) && (w.running ==> w.cur in w.runq) }

  /** sys_ipc_recv: refused above UTOP; else the caller waits with just these addresses, off the run
      list, its last message still in place, and someone on the list runs. */
  lemma RecvOutcome(k: K, dstva: nat, whom: nat, permVa: nat)
    requires KInv(k) && k.running && whom < FOURGIG && permVa < FOURGIG
    ensures var w := SysIpcRecv(k, dstva, whom, permVa);
            && |k.envs| == NENV && 0 <= k.cur < NENV
            && (k.envs[k.cur].status == ENV_RUNNABLE ==> k.cur in k.runq)
            && (dstva >= UTOP ==> w == k)
            && (dstva < UTOP ==>
                  && w.envs == k.envs[k.cur := k.envs[k.cur].(recving := true, dstva := dstva, whom := whom,
                        permVa := permVa, status := ENV_NOT_RUNNABLE)]
                  && w.vm == k.vm && w.freeq == k.freeq && Rescheduled(w)
                  && w.runq == ListAfter(k.runq, k.cur, k.envs[k.cur].status, ENV_NOT_RUNNABLE))
  {
    hide KInv, ChainOk, DirsOk, SetStatusOf, Yield, NoDup;
    KInvParts(k);
    if dstva < UTOP {
      WaitingKInv(k, dstva, whom, permVa);
      var u := Waiting(k, dstva, whom, permVa);
      KInvParts(u);
      SetStatusKInv(u, k.cur, ENV_NOT_RUNNABLE);
      SetStatusFrame(u, k.cur, ENV_NOT_RUNNABLE);
      StatusLists(u, k.cur, ENV_NOT_RUNNABLE);
      var v := SetStatusOf(u, k.cur, ENV_NOT_RUNNABLE);
      KInvParts(v);
      YieldRuns(v);
    }
  }

  /** sys_env_destroy of a runnable environment: the slot is FREE at the head of the free list, off the
      run list, and every mapping of its directory is gone; the others are as they were. (What becomes
      of the frames is Vm.FreeDirConserves.) The caller goes on, unless it was the one. */
  lemma DestroyOutcome(k: K, envid: nat)
    requires KInv(k) && k.running
    requires Find(k, envid, true) != NULL ==> k.envs[Find(k, envid, true)].status == ENV_RUNNABLE
    ensures var (w, r) := SysEnvDestroy(k, envid);
            var e := Find(k, envid, true);
            && |k.envs| == NENV && e < NENV && r == (if e == NULL then -E_BAD_ENV else 0)
            && (e == NULL ==> w == k)
            && (e >= 0 ==>
                  && e in k.runq && w.runq == Without(k.runq, e as nat) && w.freeq == [e as nat] + k.freeq
                  && w.envs == k.envs[e := k.envs[e].(status := ENV_FREE, pgdir := NULL)]
                  && w.vm == FreeDir(k.vm, k.envs[e].pgdir)
                  && w.vm.maps == (map key | key in k.vm.maps && key.dir != k.envs[e].pgdir :: k.vm.maps[key])
                  && if e == k.cur then Rescheduled(w) else w.cur == k.cur && w.running)
  {
    hide KInv, EnvsOk, ChainOk, DirsOk, EnvFree, FreeDir, Yield, NoDup, Find, RefCount, Inv;
    KInvParts(k);
    FindRange(k, envid, true);
    var e := Find(k, envid, true);
    if e != NULL {
      FindLive(k, envid, true);
      RunnableListed(k, e);
      EnvFreeFrame(k, e);
      EnvFreeLists(k, e);
      DestroySteps(k, e);
      FreeDirConserves(k.vm, k.envs[e].pgdir);
      var u := EnvFree(k, e).(cur := NULL, running := false);
      if e == k.cur {
        KInvParts(u);
        YieldRuns(u);
      }
    }
  }

  lemma RunnableListed(k: K, e: nat)
    requires EnvsOk(k) && e < NENV && k.envs[e].status == ENV_RUNNABLE
    ensures e in k.runq
  {}

  lemma EnvFreeLists(k: K, e: nat)
    requires EnvsOk(k) && ChainOk(k) && e in k.runq
    ensures EnvFree(k, e).runq == Without(k.runq, e) && EnvFree(k, e).freeq == [e] + k.freeq
  {
    hide FreeDir, NoDup;
  }

  /* ---------- pageout ---------- */

  /** A new page, held by a pin besides its mapping: what pageout and load_icode_mapper make. When its
      page table is missing and cannot be had, the frame is lost. */
  lemma PinnedPage(vm: VM, d: int, va: nat)
    requires Inv(vm) && IsDir(vm, d) && d != vm.boot && va < ULIM && vm.free != []
    ensures var p := vm.free[0];
            var (w, r) := Insert(Pin(Alloc(vm), p), d, p, va, PTE_V | PTE_R);
            && Inv(w) && IsDir(w, d) && d != w.boot && Zeroed(w, p)
            && (r == 0 <==> Key(d, PDX(va)) in vm.tables || |vm.free| >= 2)
            && (forall key :: key in vm.maps ==> vm.maps[key].frame != p)
            && (if r == 0 then w.maps == vm.maps[Key(d, VPN(va)) := Entry(p, PTE_V | PTE_R)] && RefCount(w, p) == 2
                else w.maps == vm.maps && RefCount(w, p) == 1 && w.free == [])
  {
    hide Inv, Insert, Alloc, IsDir, RefCount;
    var p, a := vm.free[0], Alloc(vm);
    AllocZeroed(vm);
    AllocKeeps(vm);
    AllocDirs(vm);
    SameDirsUse(vm, a, d);
    PinKeeps(a, p);
    PinDirs(a, p);
    SameDirsUse(a, Pin(a, p), d);
    LowInsert(Pin(a, p), d, p, va, PTE_V | PTE_R);
    InsertDirs(Pin(a, p), d, p, va, PTE_V | PTE_R);
    SameDirsUse(Pin(a, p), Insert(Pin(a, p), d, p, va, PTE_V | PTE_R).0, d);
    assert PTE_V | PTE_R | PTE_V == PTE_V | PTE_R;
  }

  /** pageout, at every address: nothing for kernel addresses, for the first megabyte and without a free
      frame, where the kernel panics; else exactly the faulting page of the running environment is a
      zeroed page with two counts. Without a frame for its page table it is one that nobody can reach. */
  lemma FaultOutcome(k: K, va: nat)
    requires KInv(k) && k.running
    ensures var w := PageFault(k, va);
            && w == k.(vm := w.vm) && 0 <= k.cur < |k.envs|
            && (va >= ULIM || PDX(va) == 0 || k.vm.free == [] ==> w == k)
            && (va < ULIM && PDX(va) != 0 && k.vm.free != [] ==>
                  var d, p := k.envs[k.cur].pgdir, k.vm.free[0];
                  && Zeroed(w.vm, p)
                  && if Key(d, PDX(va)) in k.vm.tables || |k.vm.free| >= 2
                     then && w.vm.maps == k.vm.maps[Key(d, VPN(va)) := Entry(p, PTE_V | PTE_R)]
                          && RefCount(w.vm, p) == 2
                     else w.vm.maps == k.vm.maps && RefCount(w.vm, p) == 1)
  {
    hide KInv, Inv, Insert, Alloc, Pin, IsDir, RefCount, Zeroed, VPN, PDX;
    KInvParts(k);
    CurrentIsDir(k);
    if va < ULIM && k.vm.free != [] { PinnedPage(k.vm, k.envs[k.cur].pgdir, va); }
  }

  /* ---------- the first environments ---------- */

  ghost function PageKeys(d: int, vas: seq<nat>): set<Key> { set i | 0 <= i < |vas| :: Key(d, VPN(vas[i])) }

  /** Each of these pages is mapped with PTE_V | PTE_R to a frame that no other page of any directory
      maps, and every other page is as before. */
  ghost predicate Loaded(m: map<Key, Entry>, w: map<Key, Entry>, pages: set<Key>) {
    && (forall key :: key in pages ==>
          && key in w && w[key].perm == PTE_V | PTE_R
          && forall o :: o in w && w[o].frame == w[key].frame ==> o == key)
    && (forall o {:trigger o in w} {:trigger o in m} :: o !in pages ==>
          (o in w <==> o in m) && (o in w ==> w[o] == m[o]))
  }

  lemma LoadedNone(m: map<Key, Entry>)
    ensures Loaded(m, m, {})
  {}

  lemma LoadedCons(m: map<Key, Entry>, w: map<Key, Entry>, key: Key, p: int, pages: set<Key>)
    requires forall o :: o in m ==> m[o].frame != p
    requires Loaded(m[key := Entry(p, PTE_V | PTE_R)], w, pages)
    ensures Loaded(m, w, {key} + pages)
  {
    var u := m[key := Entry(p, PTE_V | PTE_R)];
    if key !in pages {
      assert w[key] == u[key];
      forall o | o in w && w[o].frame == p ensures o == key {
        if o !in pages { assert u[o] == w[o]; } else { assert key in w && w[key].frame == w[o].frame; }
      }
    }
  }

  lemma PageKeysCons(d: int, va: nat, vas: seq<nat>)
    ensures PageKeys(d, [va] + vas) == {Key(d, VPN(va))} + PageKeys(d, vas)
  {
    hide VPN;
    var all := [va] + vas;
    assert all[0] == va && forall i :: 0 <= i < |vas| ==> all[i + 1] == vas[i];
    forall key | key in PageKeys(d, vas) ensures key in PageKeys(d, all) {
      var i :| 0 <= i < |vas| && key == Key(d, VPN(vas[i]));
      assert key == Key(d, VPN(all[i + 1]));
    }
    forall key | key in PageKeys(d, all) && key != Key(d, VPN(va)) ensures key in PageKeys(d, vas) {
      var i :| 0 <= i < |all| && key == Key(d, VPN(all[i]));
      assert key == Key(d, VPN(vas[i - 1]));
    }
  }

  /** load_icode_mapper: the pages of the segments, in order, until the frames run out. */
  lemma {:induction false} LoadOutcome(vm: VM, d: int, vas: seq<nat>) returns (n: nat)
    requires Inv(vm) && IsDir(vm, d) && d != vm.boot && forall i :: 0 <= i < |vas| ==> vas[i] < UTOP
    ensures FirstPages(vm, LoadPages(vm, d, vas), d, vas, n)
    decreases |vas|
  {
    hide Inv, Insert, Alloc, Pin, IsDir, RefCount, Zeroed, VPN, PDX, Loaded, PageKeys;
    n := 0;
    NoPages(vm.maps, d);
    if vas != [] && vm.free != [] {
      PinnedPage(vm, d, vas[0]);
      var p := vm.free[0];
      var (w, r) := Insert(Pin(Alloc(vm), p), d, p, vas[0], PTE_V | PTE_R);
      if r == 0 {
        n := LoadOutcome(w, d, vas[1..]);
        LoadedCons(vm.maps, LoadPages(w, d, vas[1..]).maps, Key(d, VPN(vas[0])), p, PageKeys(d, vas[1..][..n]));
        PageKeysCons(d, vas[0], vas[1..][..n]);
        assert vas[..n + 1] == [vas[0]] + vas[1..][..n];
        n := n + 1;
      }
    }
  }

  lemma NoPages(m: map<Key, Entry>, d: int)
    ensures Loaded(m, m, PageKeys(d, []))
  {
    LoadedNone(m);
    assert PageKeys(d, []) == {};
  }

  /** The slot of a new environment of the kernel: no parent, runnable, with its priority, at the head
      of the run list. */
  ghost predicate Started(k: K, w: K, pri: nat)
    requires |k.envs| == NENV && k.freeq != [] && k.vm.free != []
  {
    && |w.envs| == NENV && 0 <= k.freeq[0] < NENV
    && var (e, env) := (k.freeq[0], w.envs[k.freeq[0]]);
       && env == k.envs[e].(id := env.id, parent := 0, status := ENV_RUNNABLE, pgdir := k.vm.free[0], pri := pri)
       && env.id / 0x100 == e && env.id % 0x100 == (k.nextId + 1) % 0x100
       && w.envs == k.envs[e := env] && w.runq == [e] + k.runq && w.freeq == k.freeq[1..]
       && (w.nextId, w.cur, w.running) == (k.nextId + 1, k.cur, k.running)
  }

  /** Exactly the first n pages are mapped in directory d; the others find no free frame. */
  ghost predicate FirstPages(vm: VM, w: VM, d: int, vas: seq<nat>, n: nat) {
    n <= |vas| && Loaded(vm.maps, w.maps, PageKeys(d, vas[..n])) && (n < |vas| ==> w.free == [])
  }

  /** load_icode's pages: the stack page, then those of the segments. */
  lemma StackAndSegments(vm: VM, d: int, vas: seq<nat>) returns (n: nat)
    requires Inv(vm) && IsDir(vm, d) && d != vm.boot && vm.free != []
    requires forall i :: 0 <= i < |vas| ==> vas[i] < UTOP
    ensures var s := Insert(Alloc(vm), d, vm.free[0], USTACKTOP - BY2PG, PTE_V | PTE_R).0;
            FirstPages(vm, LoadPages(s, d, vas), d, [USTACKTOP - BY2PG] + vas, n)
    ensures |vm.free| >= 2 ==> n >= 1
  {
    hide Inv, Insert, Alloc, LoadPages, IsDir, Loaded, PageKeys;
    var p, va := vm.free[0], USTACKTOP - BY2PG;
    var (s, r) := Insert(Alloc(vm), d, p, va, PTE_V | PTE_R);
    StackPage(vm, d, va);
    NoPages(vm.maps, d);
    if r == 0 {
      n := LoadOutcome(s, d, vas);
      LoadedCons(vm.maps, LoadPages(s, d, vas).maps, Key(d, VPN(va)), p, PageKeys(d, vas[..n]));
      PageKeysCons(d, va, vas[..n]);
      assert ([va] + vas)[..n + 1] == [va] + vas[..n];
      n := n + 1;
    } else {
      n := 0;
      LoadNothing(s, d, vas);
      assert ([va] + vas)[..0] == [];
    }
  }

  /** env_create_priority: the slot, at the head of the run list, and in its directory the stack page
      below USTACKTOP and the pages of the segments in order, each private, readable and writable, as
      far as the frames go. */
  lemma CreateOutcome(k: K, pri: nat, vas: seq<nat>) returns (n: nat)
    requires KInv(k) && k.freeq != [] && |k.vm.free| >= 2
    requires forall i :: 0 <= i < |vas| ==> vas[i] < UTOP
    ensures |k.envs| == NENV && Started(k, Create(k, pri, vas), pri)
    ensures FirstPages(k.vm, Create(k, pri, vas).vm, k.vm.free[0], [USTACKTOP - BY2PG] + vas, n)
    ensures |k.vm.free| >= 3 ==> n >= 1
  {
    hide KInv, Inv, EnvAlloc, Insert, Alloc, LoadPages, IsDir, Loaded, PageKeys, EnvsOk, ChainOk, DirsOk;
    KInvParts(k);
    CreateSlot(k, pri, vas);
    EnvAllocKeeps(k, 0);
    EnvAllocHas(k, 0);
    EnvAllocSlot(k, 0);
    EnvAllocFrees(k, 0);
    var (u, e) := EnvAlloc(k, 0);
    KInvParts(u);
    n := StackAndSegments(u.vm, u.envs[e].pgdir, vas);
  }

  lemma CreateSlot(k: K, pri: nat, vas: seq<nat>)
    requires KInv(k) && k.freeq != [] && |k.vm.free| >= 2
    ensures |k.envs| == NENV && Started(k, Create(k, pri, vas), pri)
  {
    hide KInv, Inv, EnvAlloc, Insert, Alloc, LoadPages, ChainOk, DirsOk;
    KInvParts(k);
    EnvAllocHas(k, 0);
    EnvAllocSlot(k, 0);
    EnvAllocKeeps(k, 0);
  }

  lemma LoadNothing(vm: VM, d: int, vas: seq<nat>)
    requires vm.free == []
    ensures LoadPages(vm, d, vas) == vm
  {}

  lemma EnvAllocFrees(k: K, parent: nat)
    requires EnvsOk(k) && EnvAlloc(k, parent).1 >= 0
    ensures k.vm.free != [] && EnvAlloc(k, parent).0.vm.free == k.vm.free[1..]
  {}

  /** The stack page is not pinned. */
  lemma StackPage(vm: VM, d: int, va: nat)
    requires Inv(vm) && IsDir(vm, d) && d != vm.boot && va < ULIM && vm.free != []
    ensures var p := vm.free[0];
            var (w, r) := Insert(Alloc(vm), d, p, va, PTE_V | PTE_R);
            && Inv(w) && IsDir(w, d) && d != w.boot && (|vm.free| >= 2 ==> r == 0)
            && (forall key :: key in vm.maps ==> vm.maps[key].frame != p)
            && (if r == 0 then w.maps == vm.maps[Key(d, VPN(va)) := Entry(p, PTE_V | PTE_R)]
                else w.maps == vm.maps && w.free == [])
  {
    hide Inv, Insert, Alloc, IsDir, RefCount, Zeroed;
    var p, a := vm.free[0], Alloc(vm);
    AllocZeroed(vm);
    AllocDirs(vm);
    SameDirsUse(vm, a, d);
    LowInsert(a, d, p, va, PTE_V | PTE_R);
    InsertDirs(a, d, p, va, PTE_V | PTE_R);
    SameDirsUse(a, Insert(a, d, p, va, PTE_V | PTE_R).0, d);
    assert PTE_V | PTE_R | PTE_V == PTE_V | PTE_R;
  }
}
