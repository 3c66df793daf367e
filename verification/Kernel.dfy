/** lib/env.c, lib/sched.c and lib/svc.c over the environment array, the two intrusive lists and
    the page tables. Every method is a transition of EnvState. */
module Kernel {
  import opened Mmu
  import opened Queue
  import opened Vm
  import opened Pmap
  import opened EnvState

  class Kernel {
    const pm: Pmap
    const envs: array<Env>
    const freeList: List             // env_free_list, through env_link
    const schedList: List            // env_sched_list, through env_sched_link
    var nextId: nat
    var cur: int
    var running: bool
    var iter: int
    var ts: int
    ghost var stamp: seq<nat>
    ghost var clock: nat

    /** The objects the kernel state lives in. */
    ghost function Repr(): set<object> {
      {this, envs, freeList, freeList.next, freeList.prev, schedList, schedList.next, schedList.prev} + pm.Repr
    }

    ghost function Abs(): K
      reads this, pm, envs, freeList, schedList, schedList.next, schedList.prev
    {
      K(pm.vm, envs[..], freeList.items, schedList.items, schedList.next[..], schedList.prev[..], stamp, clock, nextId,
          cur, running, iter, ts)
    }

    ghost predicate Shape()
      reads this, pm
    {
      && envs.Length == NENV && freeList.next.Length == NENV && schedList.next.Length == schedList.prev.Length == NENV
      && pm.Repr == {pm, pm.pref, pm.mem, pm.freeList, pm.freeList.next, pm.freeList.prev}
      && freeList != schedList && freeList != pm.freeList && schedList != pm.freeList
      && freeList.next != schedList.next && freeList.next != pm.freeList.next && schedList.next != pm.freeList.next
      && freeList.prev != schedList.prev && freeList.prev != pm.freeList.prev && schedList.prev != pm.freeList.prev
      && (pm.pref as object) != freeList.next && (pm.pref as object) != schedList.next
    }

    ghost predicate Valid()
      reads this, pm, pm.pref, pm.mem, pm.freeList, pm.freeList.next, pm.freeList.prev
      reads pm.Repr, envs, freeList, freeList.next, freeList.prev, schedList, schedList.next, schedList.prev
    {
      Ready() && KInv(Abs())
    }

    /** The parts are well formed. */
    ghost predicate Ready()
      reads this, pm, pm.pref, pm.mem, pm.freeList, pm.freeList.next, pm.freeList.prev
      reads pm.Repr, envs, freeList, freeList.next, freeList.prev, schedList, schedList.next, schedList.prev
    {
      Shape() && pm.Valid() && freeList.Valid() && schedList.Valid()
    }

    /** env_init and trap_init, after page_init. Slots are pushed from the last to the first; the
        page of the exception vectors is mapped in the boot directory. */
    constructor (pm: Pmap)
      requires pm.Valid() && Pristine(pm.vm)
      modifies pm.Repr
      ensures Valid() && this.pm == pm && Abs() == Initial(old(pm.vm))
      ensures fresh(envs) && fresh(freeList) && fresh(freeList.next) && fresh(freeList.prev)
      ensures fresh(schedList) && fresh(schedList.next) && fresh(schedList.prev)
    {
      hide FreeEnvs, AllSlots, NoStamps, KInv, Initial, Inv, Pmap.Valid, List.Valid, TrapInit, Pristine;
      ghost var vm := pm.vm;
      var es, fl, sl := Tables();
      MapVectors(pm);
      pm.ReprIs();
      this.pm, envs, freeList, schedList := pm, es, fl, sl;
      nextId, cur, running, iter, ts := 0, NULL, false, NULL, 0;
      stamp, clock := NoStamps(), 0;
      new;
      assert Shape();
      InitialState(vm);
    }

    /** trap_init. */
    static method MapVectors(pm: Pmap)
      requires pm.Valid() && Pristine(pm.vm)
      modifies pm.Repr
      ensures pm.Valid() && pm.vm == TrapInit(old(pm.vm))
    {
      hide Inv, Pmap.Valid, Pristine, Insert, RefCount, InsertFits;
      TrapInitFits(pm.vm);
      pm.ReprIs();
      var r := pm.PageInsert(pm.boot, VECTORS, VECTOR_VA, 0);
    }

    lemma InitialState(vm: VM)
      requires envs.Length == NENV && Pristine(vm) && pm.vm == TrapInit(vm)
      requires envs[..] == FreeEnvs() && freeList.items == AllSlots()
      requires schedList.items == [] && schedList.next.Length == NENV && schedList.prev.Length == NENV
      requires forall x :: 0 <= x < NENV ==> schedList.next[x] == NULL && schedList.prev[x] == Nil
      requires (nextId, cur, running, iter, ts, clock) == (0, NULL, false, NULL, 0, 0) && stamp == NoStamps()
      ensures Abs() == Initial(vm) && KInv(Abs())
    {
      InitialKInv(vm);
      hide KInv, Inv, TrapInit;
      assert schedList.next[..] == NoLinks();
      assert schedList.prev[..] == NoBacks();
    }

    static method Tables() returns (es: array<Env>, fl: List, sl: List)
      ensures fresh(es) && fresh(fl) && fresh(fl.next) && fresh(fl.prev) && fresh(sl) && fresh(sl.next)
              && fresh(sl.prev)
      ensures fl != sl && fl.next != sl.next && fl.prev != sl.prev && es.Length == fl.next.Length == sl.next.Length
              == NENV
      ensures fl.Valid() && fl.items == AllSlots() && es[..] == FreeEnvs()
      ensures sl.Valid() && sl.items == [] && sl.prev.Length == NENV
              && forall x :: 0 <= x < NENV ==> sl.next[x] == NULL && sl.prev[x] == Nil
    {
      hide FreeEnvs, AllSlots, List.Valid;
      es := new Env[NENV](i => FreeEnv());
      fl := new List(NENV);
      EnvInit(es, fl);
      sl := new List(NENV);
    }

    static method EnvInit(es: array<Env>, fl: List)
      requires es.Length == NENV && fl.next.Length == NENV && fl.Valid() && fl.items == []
      requires forall i :: 0 <= i < NENV ==> es[i] == FreeEnv()
      modifies es, fl, fl.next, fl.prev
      ensures fl.Valid() && fl.items == AllSlots() && es[..] == FreeEnvs()
    {
      var i := NENV;
      while i > 0
        invariant 0 <= i <= NENV && fl.Valid()
        invariant |fl.items| == NENV - i && forall j :: 0 <= j < NENV - i ==> fl.items[j] == i + j
        invariant forall j :: 0 <= j < NENV ==> es[j] == FreeEnv()
      {
        i := i - 1;
        es[i] := es[i].(id := 0, status := ENV_FREE);
        fl.InsertHead(i);
      }
    }

    method EnvId2Env(envid: nat, checkperm: bool) returns (e: int)
      requires Valid()
      ensures e == Find(Abs(), envid, checkperm)
    {
      e := if envid != 0 then envid / 0x100 % NENV else cur;
      if e == NULL || envs[e].status == ENV_FREE || (envid != 0 && envs[e].id != envid) {
        return NULL;
      }
      if checkperm && e != cur && (cur == NULL || envs[e].parent != envs[cur].id) {
        return NULL;
      }
    }

    /** sched_yield; env_run of the selected environment is the assignment to cur. */
    method SchedYield()
      requires Valid()
      modifies this`cur, this`running, this`iter, this`ts
      ensures Valid() && Abs() == Yield(old(Abs()))
    {
      hide KInv, Inv, EnvsOk, ChainOk, DirsOk, Yield, Pmap.Valid, List.Valid;
      ghost var k := Abs();
      KInvParts(k);
      YieldKInv(k);
      YieldUnfold(k);
      var first := schedList.First();
      if first == NULL {
        running := false;
      } else {
        SchedLoop();
      }
    }

    /** The loop of sched_yield. */
    method SchedLoop()
      requires Shape() && schedList.Valid() && EnvsOk(Abs()) && ChainOk(Abs()) && schedList.items != []
      modifies this`cur, this`running, this`iter, this`ts
      ensures Abs() == Yield(old(Abs()))
    {
      hide Inv, EnvsOk, ChainOk, DirsOk, Yield, List.Valid;
      ghost var k := Abs();
      var done := false;
      while !done
        invariant Shape() && schedList.Valid() && EnvsOk(Abs()) && ChainOk(Abs()) && schedList.items != []
        invariant if done then Abs() == Yield(k) else Yield(Abs()) == Yield(k)
        decreases !done, IterRank(Abs()), if ts > 0 then ts else 0
      {
        done := SchedTurn();
      }
    }

    /** One turn of the loop: advance, take a tick, and run the iterator if it is runnable. */
    method SchedTurn() returns (done: bool)
      requires Shape() && schedList.Valid() && EnvsOk(Abs()) && ChainOk(Abs()) && schedList.items != []
      modifies this`cur, this`running, this`iter, this`ts
      ensures EnvsOk(Abs()) && ChainOk(Abs())
      ensures if done then Abs() == Yield(old(Abs())) else Yield(Abs()) == Yield(old(Abs()))
      ensures !done ==>
                || IterRank(Abs()) < IterRank(old(Abs()))
                || (IterRank(Abs()) == IterRank(old(Abs())) && ts < old(ts) && old(ts) > 0)
    {
      hide EnvsOk, ChainOk, Yield, List.Valid;
      ghost var b := Abs();
      AdvanceProgress(b);
      YieldUnfold(b);
      SchedAdvance();
      done := iter != NULL && envs[iter].status == ENV_RUNNABLE;
      if done {
        cur, running := iter, true;
        YieldRuns(b);
      }
    }

    /** One turn up to the test of the status. */
    method SchedAdvance()
      requires Shape() && schedList.Valid() && EnvsOk(Abs()) && ChainOk(Abs()) && schedList.items != []
      modifies this`iter, this`ts
      ensures Abs() == Advance(old(Abs()))
      ensures iter == NULL || 0 <= iter < NENV
    {
      hide EnvsOk, ChainOk, List.Valid;
      AdvanceInRange(Abs());
      if ts <= 0 {
        if iter != NULL {
          iter := schedList.next[iter];
        }
        if iter == NULL {
          iter := schedList.First();
        }
        ts := AsInt(envs[iter].pri);
      }
      ts := ts - 1;
    }

    /* ---------- the page-table routines leave the rest of the kernel alone ---------- */

    method AllocPage() returns (r: int, pp: int)
      requires Ready()
      modifies pm.Repr
      ensures Ready() && Abs() == old(Abs()).(vm := pm.vm)
      ensures old(pm.vm.free) == [] ==> r == -E_NO_MEM && pm.vm == old(pm.vm)
      ensures old(pm.vm.free) != [] ==> r == 0 && pp == old(pm.vm.free[0]) && pm.vm == Alloc(old(pm.vm))
    {
      hide Alloc, Pmap.Valid, List.Valid;
      r, pp := pm.PageAlloc();
    }

    method InsertPage(d: int, pp: int, va: nat, perm: bv12) returns (r: int)
      requires Ready() && InsertFits(pm.vm, d, pp, va) && RefCount(pm.vm, pp) < 0xFFFF
      modifies pm.Repr
      ensures Ready() && Abs() == old(Abs()).(vm := pm.vm) && (pm.vm, r) == Insert(old(pm.vm), d, pp, va, perm)
    {
      hide Insert, InsertFits, RefCount, Pmap.Valid, List.Valid;
      r := pm.PageInsert(d, pp, va, perm);
    }

    method RemovePage(d: int, va: nat)
      requires Ready() && IsDir(pm.vm, d) && va < ULIM
      modifies pm.Repr
      ensures Ready() && Abs() == old(Abs()).(vm := Remove(old(pm.vm), Key(d, VPN(va))))
              && pm.vm == Remove(old(pm.vm), Key(d, VPN(va)))
    {
      hide Remove, IsDir, Pmap.Valid, List.Valid;
      LowPage(pm.vm, d, va);
      pm.PageRemove(d, va);
    }

    method LookupPage(d: int, va: nat) returns (pp: int)
      requires Ready() && IsDir(pm.vm, d) && va < FOURGIG
      modifies pm.Repr
      ensures Ready() && Abs() == old(Abs()) && pp == Lookup(pm.vm, d, va)
    {
      hide IsDir, Pmap.Valid, List.Valid;
      var pte;
      pp, pte := pm.PageLookup(d, va);
    }

    method NewDirectory() returns (r: int, d: int)
      requires Ready()
      modifies pm.Repr
      ensures Ready() && Abs() == old(Abs()).(vm := pm.vm)
      ensures old(pm.vm.free) == [] ==> r == -E_NO_MEM && pm.vm == old(pm.vm)
      ensures old(pm.vm.free) != [] ==> r == 0 && d == old(pm.vm.free[0]) && pm.vm == NewDir(old(pm.vm))
    {
      hide NewDir, Pmap.Valid, List.Valid;
      r, d := pm.SetupVm();
    }

    method FreeMemory(d: int)
      requires Ready() && IsDir(pm.vm, d) && d != pm.vm.boot
      modifies pm.Repr
      ensures Ready() && Abs() == old(Abs()).(vm := FreeDir(old(pm.vm), d))
    {
      hide FreeDir, IsDir, Pmap.Valid, List.Valid;
      pm.FreeDirectory(d);
    }

    method CopyMemory(src: int, dst: int) returns (r: int)
      requires Ready() && IsDir(pm.vm, src) && IsDir(pm.vm, dst) && src != dst && dst != pm.vm.boot
      requires (forall k :: k in pm.vm.maps ==> k.dir != dst) && CopyFits(pm.vm, src)
      modifies pm.Repr
      ensures Ready() && (Abs(), r)
              == (old(Abs()).(vm := CopyPages(old(pm.vm), src, dst, ULIM_VPN).0),
              CopyPages(old(pm.vm), src, dst, ULIM_VPN).1)
    {
      hide CopyPages, CopyFits, IsDir, Pmap.Valid, List.Valid;
      r := pm.CopyTables(src, dst);
    }

    /** env_alloc. */
    method EnvAlloc(parent: nat) returns (e: int)
      requires Valid()
      modifies Repr()
      ensures Valid() && (Abs(), e) == EnvState.EnvAlloc(old(Abs()), parent)
    {
      hide KInv, Inv, NewDir, Ready;
      ghost var k := Abs();
      KInvParts(k);
      EnvAllocKeeps(k, parent);
      e := FirstFree();
      if e == NULL {
        return -E_NO_FREE_ENV;
      }
      FirstSlot(k);
      var r, d := NewDirectory();
      if r < 0 {
        return r;
      }
      TakeSlot(e, parent, d);
      assert Abs() == EnvState.EnvAlloc(k, parent).0;
    }

    method FirstFree() returns (e: int)
      requires Ready()
      ensures e == if Abs().freeq == [] then NULL else Abs().freeq[0] as int
    {
      e := freeList.First();
    }

    /** The fields set by env_alloc and the removal from env_free_list. */
    method TakeSlot(e: nat, parent: nat, d: int)
      requires Ready() && NoDup(Abs().freeq) && Abs().freeq != [] && e == Abs().freeq[0] && e < NENV
      modifies this`nextId, envs, freeList, freeList.next, freeList.prev
      ensures Ready()
      ensures var k := old(Abs());
              |k.envs| == NENV && Abs() == k.(nextId := k.nextId + 1, freeq := k.freeq[1..],
                          envs := k.envs[e := k.envs[e].(id := MkEnvId(e, k.nextId + 1), parent := parent,
                              status := ENV_NOT_RUNNABLE, pgdir := d)])
    {
      hide Pmap.Valid, List.Valid, MkEnvId;
      nextId := nextId + 1;
      envs[e] := envs[e].(id := MkEnvId(e, nextId), parent := parent, status := ENV_NOT_RUNNABLE, pgdir := d);
      WithoutHead(freeList.items);
      freeList.Remove(e);
    }

    /** my_set_env_status for the two live statuses. */
    method MySetEnvStatus(e: nat, status: nat)
      requires Valid() && e < NENV && envs[e].status != ENV_FREE
      requires status == ENV_RUNNABLE || status == ENV_NOT_RUNNABLE
      modifies this, envs, schedList, schedList.next, schedList.prev
      ensures Valid() && Abs() == SetStatusOf(old(Abs()), e, status)
    {
      hide KInv, Inv, Ready, Linked;
      ghost var k := Abs();
      KInvParts(k);
      SetStatusKInv(k, e, status);
      if envs[e].status == status {
        return;
      }
      RunListIs(k, e);
      if status == ENV_RUNNABLE {
        StartEnv(e);
      } else {
        StopEnv(e);
      }
      assert Abs() == SetStatusOf(k, e, status);
    }

    lemma RunListIs(k: K, e: nat)
      requires EnvsOk(k) && ChainOk(k) && e < NENV
      ensures e in k.runq <==> k.envs[e].status == ENV_RUNNABLE
      ensures |k.stamp| == NENV && Linked(k.runq, k.link)
    {
      hide NoDup, Linked, Forward;
    }

    /** The environment blocks: off the run list; its own link is left as it is. */
    method StopEnv(e: nat)
      requires Ready() && e < NENV && |stamp| == NENV && e in Abs().runq && Linked(Abs().runq, Abs().link)
      modifies envs, schedList, schedList.next, schedList.prev, this`stamp, this`clock
      ensures Ready() && |old(Abs()).envs| == |old(Abs()).link| == NENV
      ensures var k := old(Abs()); Abs() == Dequeue(k.(envs := k.envs[e := k.envs[e].(status := ENV_NOT_RUNNABLE)]), e)
    {
      hide Pmap.Valid, List.Valid, Linked, Dequeue;
      envs[e] := envs[e].(status := ENV_NOT_RUNNABLE);
      Unschedule(e);
    }

    method SysMemAlloc(envid: nat, va: nat, perm: bv12) returns (r: int)
      requires Valid()
      modifies Repr()
      ensures Valid() && (Abs(), r) == EnvState.SysMemAlloc(old(Abs()), envid, va, perm)
    {
      hide KInv, Inv, Find, Insert, Alloc, RefCount, Ready;
      ghost var k := Abs();
      KInvParts(k);
      MemAllocKeeps(k, envid, va, perm);
      if va >= UTOP {
        return -E_UNSPECIFIED;
      }
      if perm & PTE_V == 0 {
        return -E_INVAL;
      }
      var e := EnvId2Env(envid, false);
      if e == NULL {
        return -E_BAD_ENV;
      }
      FindLive(k, envid, false);
      var d := envs[e].pgdir;
      var pp;
      r, pp := AllocPage();
      if r < 0 {
        return r;
      }
      FreshFits(k.vm, d);
      r := InsertPage(d, pp, va, perm);
    }

    method SysMemMap(srcid: nat, srcva: nat, dstid: nat, dstva: nat, perm: bv12) returns (r: int)
      requires Valid() && CountsFit(pm.vm)
      modifies Repr()
      ensures Valid() && (Abs(), r) == EnvState.SysMemMap(old(Abs()), srcid, srcva, dstid, dstva, perm)
    {
      hide KInv, Inv, Find, Insert, RefCount, Ready, Lookup;
      ghost var k := Abs();
      KInvParts(k);
      MemMapKeeps(k, srcid, srcva, dstid, dstva, perm);
      if srcva >= UTOP || dstva >= UTOP {
        return -E_UNSPECIFIED;
      }
      if perm & PTE_V == 0 {
        return -E_INVAL;
      }
      var s := EnvId2Env(srcid, false);
      if s == NULL {
        return -E_BAD_ENV;
      }
      var t := EnvId2Env(dstid, false);
      if t == NULL {
        return -E_BAD_ENV;
      }
      FindLive(k, srcid, false);
      FindLive(k, dstid, false);
      var src, dst := envs[s].pgdir, envs[t].pgdir;
      var pp := LookupPage(src, RoundDown(srcva));
      if pp == NULL {
        return -E_UNSPECIFIED;
      }
      LookupData(k.vm, src, RoundDown(srcva));
      r := InsertPage(dst, pp, RoundDown(dstva), perm);
    }

    method SysMemUnmap(envid: nat, va: nat) returns (r: int)
      requires Valid()
      modifies Repr()
      ensures Valid() && (Abs(), r) == EnvState.SysMemUnmap(old(Abs()), envid, va)
    {
      hide KInv, Inv, Find, Remove, RefCount, Ready;
      ghost var k := Abs();
      KInvParts(k);
      MemUnmapKeeps(k, envid, va);
      if va >= UTOP {
        return -E_INVAL;
      }
      var e := EnvId2Env(envid, true);
      if e == NULL {
        return -E_BAD_ENV;
      }
      FindLive(k, envid, true);
      RemovePage(envs[e].pgdir, va);
      r := 0;
    }

    /** sys_env_alloc. The saved registers are outside the model. */
    method SysEnvAlloc() returns (r: int)
      requires Valid() && running && CopyFits(pm.vm, envs[cur].pgdir)
      modifies Repr()
      ensures Valid() && (Abs(), r) == EnvState.SysEnvAlloc(old(Abs()))
    {
      hide KInv, Inv, CopyPages, EnvState.EnvAlloc, CopyFits, RefCount, Ready;
      ghost var k := Abs();
      KInvParts(k);
      ForkKeeps(k);
      EnvAllocKeeps(k, k.envs[k.cur].id);
      var e := EnvAlloc(envs[cur].id);
      if e < 0 {
        return e;
      }
      KInvParts(Abs());
      EnvAllocFrame(k, k.envs[k.cur].id);
      CopyFitsStill(k, k.envs[k.cur].id);
      CurrentDir(k);
      CurrentDir(Abs());
      r := CopyMemory(envs[cur].pgdir, envs[e].pgdir);
      if r >= 0 {
        r := envs[e].id;
      }
    }

    method SysSetEnvStatus(envid: nat, status: nat) returns (r: int)
      requires Valid() && running && status != ENV_FREE
      modifies this, envs, schedList, schedList.next, schedList.prev
      ensures Valid() && (Abs(), r) == EnvState.SysSetEnvStatus(old(Abs()), envid, status)
    {
      hide KInv, Inv, Find, SetStatusOf, Ready;
      ghost var k := Abs();
      KInvParts(k);
      if status != ENV_RUNNABLE && status != ENV_NOT_RUNNABLE {
        return -E_INVAL;
      }
      var e := EnvId2Env(envid, true);
      if e == NULL {
        return -E_BAD_ENV;
      }
      FindLive(k, envid, true);
      hide DirsOk, EnvsOk, ChainOk;
      MySetEnvStatus(e, status);
      r := 0;
    }

    method SysIpcRecv(dstva: nat, whom: nat, permVa: nat)
      requires Valid() && running && whom < FOURGIG && permVa < FOURGIG
      modifies this, envs, schedList, schedList.next, schedList.prev
      ensures Valid() && Abs() == EnvState.SysIpcRecv(old(Abs()), dstva, whom, permVa)
    {
      hide KInv, Inv, SetStatusOf, Yield, Pmap.Valid, List.Valid;
      ghost var k := Abs();
      KInvParts(k);
      if dstva >= UTOP {
        return;
      }
      WaitingKInv(k, dstva, whom, permVa);
      envs[cur] := envs[cur].(recving := true, dstva := dstva, whom := whom, permVa := permVa);
      ghost var u := Waiting(k, dstva, whom, permVa);
      assert Abs() == u;
      RecvSteps(k, dstva, whom, permVa);
      hide DirsOk, EnvsOk, ChainOk, Waiting, EnvState.SysIpcRecv;
      MySetEnvStatus(cur, ENV_NOT_RUNNABLE);
      SchedYield();
    }

    /** The write of one result word through the receiver's page table. */
    method DeliverWord(d: int, va: nat, w: Word)
      requires Ready() && IsDir(pm.vm, d) && va < FOURGIG
      modifies pm.Repr
      ensures Ready() && Abs() == old(Abs()).(vm := Deliver(old(pm.vm), d, va, w))
    {
      hide Inv, IsDir, Pmap.Valid, List.Valid;
      pm.ReprIs();
      if va != 0 {
        var p, pte := pm.PageLookup(d, va);
        if p != NULL {
          LookupData(pm.vm, d, va);
          DataInRange(pm.vm, p);
          pm.StoreWord(p, va % BY2PG / 4, w);
        } else {
          NullIsNoPage(pm.vm);
        }
      }
    }

    method SysIpcCanSend(envid: nat, value: Word, srcva: nat, perm: bv12) returns (r: int)
      requires Valid() && running && CountsFit(pm.vm)
      modifies Repr()
      ensures Valid() && (Abs(), r) == EnvState.SysIpcCanSend(old(Abs()), envid, value, srcva, perm)
    {
      hide KInv, Inv, Find, Insert, Lookup, Effect, Deliver, RefCount, Ready;
      ghost var k := Abs();
      KInvParts(k);
      SendKeeps(k, envid, value, srcva, perm);
      CurrentDir(k);
      if srcva >= UTOP {
        return -E_INVAL;
      }
      var e := EnvId2Env(envid, false);
      if e == NULL {
        return -E_INVAL;
      }
      FindLive(k, envid, false);
      EnvFields(k, e);
      hide DirsOk, EnvsOk, ChainOk;
      if !envs[e].recving {
        return -E_IPC_NOT_RECV;
      }
      if srcva != 0 {
        ghost var d := envs[cur].pgdir;
        var p := LookupPage(envs[cur].pgdir, srcva);
        if p == NULL {
          return 0;
        }
        LookupData(k.vm, d, srcva);
        InsertDirs(k.vm, k.envs[e].pgdir, p, k.envs[e].dstva, perm);
        r := InsertPage(envs[e].pgdir, p, envs[e].dstva, perm);
        if r < 0 {
          return -E_INVAL;
        }
      } else {
        SameDirsRefl(k.vm);
      }
      Complete(k, e, value, perm);
      r := 0;
    }

    /** The tail of sys_ipc_can_send; k is the state before the page was mapped. */
    method Complete(ghost k: K, e: nat, value: Word, perm: bv12)
      requires Ready() && KInv(k) && k.running
      requires SameDirs(k.vm, pm.vm) && Abs() == k.(vm := pm.vm)
      requires EnvsOk(k) && e < NENV && k.envs[e].status != ENV_FREE
      modifies Repr()
      ensures Valid() && EnvsOk(k) && ChainOk(k) && Abs() == Effect(k, old(pm.vm), e, value, perm)
    {
      hide KInv, Inv, Deliver, RefCount, Ready;
      KInvParts(k);
      EnvFields(k, e);
      ghost var w := pm.vm;
      EffectSteps(k, w, e, value, perm);
      hide DirsOk, EnvsOk, ChainOk, Effect;
      var from := envs[cur].id;
      var d, whom, permVa := envs[e].pgdir, envs[e].whom, envs[e].permVa;
      SetMessage(e, Msg(value, from, perm | PTE_V | PTE_R));
      DeliverWord(d, whom, U32(from));
      DeliverWord(d, permVa, Word(0, perm | PTE_V | PTE_R));
      assert Abs() == Sent(k, w, e, value, perm);
      MySetEnvStatus(e, ENV_RUNNABLE);
    }

    method SetMessage(e: nat, m: Msg)
      requires Ready() && e < NENV
      modifies envs
      ensures Ready() && |old(Abs()).envs| == NENV
              && Abs() == old(Abs()).(envs := old(Abs()).envs[e := old(envs[e]).(recving := false, msg := m)])
    {
      hide Pmap.Valid, List.Valid;
      envs[e] := envs[e].(recving := false, msg := m);
    }

    /** env_free of an environment on the run list. */
    method EnvFree(e: nat)
      requires Valid() && e in schedList.items
      modifies Repr()
      ensures Ready()
      ensures EnvsOk(old(Abs())) && ChainOk(old(Abs())) && Abs() == EnvState.EnvFree(old(Abs()), e)
    {
      hide KInv, Inv, FreeDir, RefCount, IsDir, DirsOk, EnvsOk, ChainOk, Ready;
      ghost var k := Abs();
      KInvParts(k);
      OnRunList(k, e);
      FreeMemory(envs[e].pgdir);
      ReleaseSlot(e);
    }

    /** The status change and the list moves at the end of env_free. */
    method ReleaseSlot(e: nat)
      requires Ready() && e < NENV && |stamp| == NENV && e !in Abs().freeq && e in Abs().runq
      requires Linked(Abs().runq, Abs().link)
      modifies envs, freeList, freeList.next, freeList.prev, schedList, schedList.next, schedList.prev, this`stamp,
               this`clock
      ensures Ready() && |old(Abs()).envs| == |old(Abs()).link| == NENV
      ensures var k := old(Abs());
              Abs() == Dequeue(k.(envs := k.envs[e := k.envs[e].(status := ENV_FREE, pgdir := NULL)],
                  freeq := [e] + k.freeq), e)
    {
      hide Pmap.Valid, List.Valid, Linked, Dequeue;
      FreeSlot(e);
      Unschedule(e);
    }

    method FreeSlot(e: nat)
      requires Ready() && e < NENV && e !in Abs().freeq
      modifies envs, freeList, freeList.next, freeList.prev
      ensures Ready() && |old(Abs()).envs| == |old(Abs()).link| == NENV
      ensures var k := old(Abs());
              Abs() == k.(envs := k.envs[e := k.envs[e].(status := ENV_FREE, pgdir := NULL)], freeq := [e] + k.freeq)
    {
      hide Pmap.Valid, List.Valid;
      envs[e] := envs[e].(status := ENV_FREE, pgdir := NULL);
      freeList.InsertHead(e);
    }

    /** LIST_REMOVE from env_sched_list. */
    method Unschedule(e: nat)
      requires Ready() && e < NENV && |stamp| == NENV && e in Abs().runq && Linked(Abs().runq, Abs().link)
      modifies schedList, schedList.next, schedList.prev, this`stamp, this`clock
      ensures Ready() && |old(Abs()).link| == NENV && Abs() == Dequeue(old(Abs()), e)
    {
      hide Pmap.Valid, List.Valid, Linked;
      schedList.Remove(e);
      stamp, clock := stamp[e := clock + 1], clock + 1;
    }

    method Detach()
      requires Ready()
      modifies this`cur, this`running
      ensures Ready() && Abs() == old(Abs()).(cur := NULL, running := false)
    {
      hide Pmap.Valid, List.Valid;
      cur, running := NULL, false;
    }

    method SysEnvDestroy(envid: nat) returns (r: int)
      requires Valid()
      requires Find(Abs(), envid, true) != NULL ==> Abs().envs[Find(Abs(), envid, true)].status == ENV_RUNNABLE
      modifies Repr()
      ensures Valid() && (Abs(), r) == EnvState.SysEnvDestroy(old(Abs()), envid)
    {
      hide KInv, Inv, Find, Yield, EnvState.EnvFree, Ready;
      ghost var k := Abs();
      KInvParts(k);
      DestroyKeeps(k, envid);
      var e := EnvId2Env(envid, true);
      if e == NULL {
        return -E_BAD_ENV;
      }
      FindLive(k, envid, true);
      assert e in k.runq;
      EnvFreeKeepsLists(k, e);
      DestroySteps(k, e);
      hide DirsOk, EnvsOk, ChainOk;
      EnvFree(e);
      if cur == e {
        Detach();
        SchedYield();
      }
      r := 0;
    }

    /** pageout, for a fault of the running environment. */
    method PageOut(va: nat)
      requires Valid() && running
      modifies Repr()
      ensures Valid() && Abs() == PageFault(old(Abs()), va)
    {
      hide KInv, Inv, Insert, Alloc, Pin, RefCount, Ready, IsDir;
      ghost var k := Abs();
      KInvParts(k);
      FaultKeeps(k, va);
      CurrentIsDir(k);
      if va >= ULIM || PDX(va) <= 0 {
        return;
      }
      FaultFits(k.vm, k.envs[k.cur].pgdir, va);
      var r, p := AllocPage();
      if r < 0 {
        return;
      }
      PinPage(p);
      r := InsertPage(envs[cur].pgdir, p, va, PTE_V | PTE_R);
    }

    method PinPage(pp: int)
      requires Ready() && pp in pm.vm.data && RefCount(pm.vm, pp) < 0xFFFF
      modifies pm.Repr
      ensures Ready() && Abs() == old(Abs()).(vm := pm.vm) && pm.vm == Pin(old(pm.vm), pp)
    {
      hide Pin, RefCount, Pmap.Valid, List.Valid;
      pm.PagePin(pp);
    }

    /** The loops of load_icode_mapper, over the page addresses of all segments. */
    method LoadPages(d: int, vas: seq<nat>)
      requires pm.Valid() && IsDir(pm.vm, d) && d != pm.vm.boot
      requires forall i :: 0 <= i < |vas| ==> vas[i] < UTOP
      modifies pm.Repr
      ensures pm.Valid() && pm.vm == EnvState.LoadPages(old(pm.vm), d, vas)
    {
      hide Inv, RefCount, Insert, Alloc, Pin, Pmap.Valid, IsDir;
      var i := 0;
      assert vas[0..] == vas;
      while i < |vas|
        invariant 0 <= i <= |vas| && pm.Valid() && IsDir(pm.vm, d) && d != pm.vm.boot
        invariant EnvState.LoadPages(pm.vm, d, vas[i..]) == EnvState.LoadPages(old(pm.vm), d, vas)
      {
        ghost var v := pm.vm;
        pm.ReprIs();
        LoadStep(v, d, vas[i]);
        assert vas[i..][1..] == vas[i + 1..];
        var r, p := pm.PageAlloc();
        if r < 0 {
          return;
        }
        pm.PagePin(p);
        r := pm.PageInsert(d, p, vas[i], PTE_V | PTE_R);
        if r < 0 {
          return;
        }
        i := i + 1;
      }
    }

    /** load_icode: the stack page, then the segments; it does not look at the results. */
    method LoadIcode(d: int, vas: seq<nat>)
      requires pm.Valid() && IsDir(pm.vm, d) && d != pm.vm.boot && pm.vm.free != []
      requires forall i :: 0 <= i < |vas| ==> vas[i] < UTOP
      modifies pm.Repr
      ensures pm.Valid()
      ensures pm.vm == EnvState.LoadPages(Insert(Alloc(old(pm.vm)), d, old(pm.vm.free[0]), USTACKTOP - BY2PG,
              PTE_V | PTE_R).0, d, vas)
    {
      hide Inv, RefCount, Insert, Alloc, EnvState.LoadPages, Pmap.Valid, IsDir;
      pm.ReprIs();
      ghost var v := pm.vm;
      LoadStep(v, d, USTACKTOP - BY2PG);
      FreshFits(v, d);
      var r, p := pm.PageAlloc();
      InsertDirs(Alloc(v), d, p, USTACKTOP - BY2PG, PTE_V | PTE_R);
      r := pm.PageInsert(d, p, USTACKTOP - BY2PG, PTE_V | PTE_R);
      SameDirsUse(Alloc(v), pm.vm, d);
      LoadPages(d, vas);
    }

    /** env_create_priority. */
    method EnvCreatePriority(pri: nat, vas: seq<nat>)
      requires Valid() && freeList.items != [] && |pm.vm.free| >= 2
      requires forall i :: 0 <= i < |vas| ==> vas[i] < UTOP
      modifies Repr()
      ensures Valid() && Abs() == Create(old(Abs()), pri, vas)
    {
      hide KInv, Inv, RefCount, Insert, Alloc, EnvState.EnvAlloc, EnvState.LoadPages, Ready, IsDir;
      ghost var k := Abs();
      KInvParts(k);
      CreateKeeps(k, pri, vas);
      EnvAllocKeeps(k, 0);
      EnvAllocHas(k, 0);
      var e := EnvAlloc(0);
      StartList(k, 0);
      LoadEnv(e, pri, vas);
      StartEnv(e);
      assert Abs() == Create(k, pri, vas);
    }

    method LoadProgram(d: int, vas: seq<nat>)
      requires Ready() && IsDir(pm.vm, d) && d != pm.vm.boot && pm.vm.free != []
      requires forall i :: 0 <= i < |vas| ==> vas[i] < UTOP
      modifies pm.Repr
      ensures Ready()
      ensures var k := old(Abs());
              Abs() == k.(vm := EnvState.LoadPages(Insert(Alloc(k.vm), d, k.vm.free[0], USTACKTOP - BY2PG,
                  PTE_V | PTE_R).0, d, vas))
    {
      hide Inv, RefCount, Insert, Alloc, EnvState.LoadPages, Pmap.Valid, List.Valid, IsDir;
      pm.ReprIs();
      LoadIcode(d, vas);
    }

    /** Priority and program. */
    method LoadEnv(e: nat, pri: nat, vas: seq<nat>)
      requires Ready() && e < NENV && IsDir(pm.vm, envs[e].pgdir) && envs[e].pgdir != pm.vm.boot && pm.vm.free != []
      requires forall i :: 0 <= i < |vas| ==> vas[i] < UTOP
      modifies envs, pm.Repr
      ensures Ready() && |old(Abs()).envs| == NENV
      ensures var k := old(Abs());
              Abs() == k.(envs := k.envs[e := k.envs[e].(pri := pri)],
                          vm := EnvState.LoadPages(Insert(Alloc(k.vm), k.envs[e].pgdir, k.vm.free[0],
                              USTACKTOP - BY2PG, PTE_V | PTE_R).0, k.envs[e].pgdir, vas))
    {
      hide Inv, RefCount, Insert, Alloc, EnvState.LoadPages, Pmap.Valid, List.Valid, IsDir;
      LoadProgram(envs[e].pgdir, vas);
      envs[e] := envs[e].(pri := pri);
    }

    /** The environment becomes runnable and goes to the front of the run list. */
    method StartEnv(e: nat)
      requires Ready() && e < NENV && e !in Abs().runq
      modifies envs, schedList, schedList.next, schedList.prev
      ensures Ready() && |old(Abs()).envs| == |old(Abs()).link| == NENV
      ensures |old(Abs()).back| == NENV
      ensures var k := old(Abs()); Abs() == Enqueue(k.(envs := k.envs[e := k.envs[e].(status := ENV_RUNNABLE)]), e)
    {
      hide Pmap.Valid, List.Valid;
      envs[e] := envs[e].(status := ENV_RUNNABLE);
      schedList.InsertHead(e);
    }
  }

  /** The fresh page of one loading step satisfies what page_insert asks for. */
  lemma LoadStep(v: VM, d: int, va: nat)
    requires Inv(v) && IsDir(v, d) && d != v.boot && va < UTOP
    ensures v.free != [] ==>
              var (a, p) := (Alloc(v), v.free[0]);
              && p in a.data && RefCount(a, p) == 0 && IsDir(a, d) && a.boot == v.boot && Inv(a)
              && p in Pin(a, p).data && RefCount(Pin(a, p), p) == 1 && IsDir(Pin(a, p), d) && Pin(a, p).boot == v.boot
              && IsDir(Insert(Pin(a, p), d, p, va, PTE_V | PTE_R).0, d)
              && Insert(Pin(a, p), d, p, va, PTE_V | PTE_R).0.boot == v.boot
  {
    if v.free != [] {
      var a, p := Alloc(v), v.free[0];
      AllocKeeps(v);
      AllocDirs(v);
      SameDirsUse(v, a, d);
      PinKeeps(a, p);
      PinDirs(a, p);
      SameDirsUse(a, Pin(a, p), d);
      InsertDirs(Pin(a, p), d, p, va, PTE_V | PTE_R);
      SameDirsUse(Pin(a, p), Insert(Pin(a, p), d, p, va, PTE_V | PTE_R).0, d);
      hide Inv, RefCount, Insert, Pin, Alloc, IsDir;
    }
  }

  lemma TrapInitFits(vm: VM)
    requires Pristine(vm)
    ensures InsertFits(vm, vm.boot, VECTORS, VECTOR_VA) && RefCount(vm, VECTORS) == 1
    ensures TrapInit(vm) == Insert(vm, vm.boot, VECTORS, VECTOR_VA, 0).0
  {
    VectorsFit(vm);
    assert PteRefs(vm.maps, VECTORS) == {} && PdeRefs(vm.tables, VECTORS) == {};
  }

  /** The state page_init leaves is the one the runs start from. */
  lemma BootIsPristine(npage: nat, l: nat, boot: nat)
    requires 0 < boot < l <= npage <= DRAMSIZE / BY2PG && BootVm(npage, l, boot).free != []
    ensures Pristine(BootVm(npage, l, boot))
  {
    BootVmInv(npage, l, boot);
    hide Inv;
  }

  /** The fresh page of a fault satisfies what page_insert asks for. */
  lemma FaultFits(vm: VM, d: int, va: nat)
    requires Inv(vm) && IsDir(vm, d) && d != vm.boot && va < ULIM
    ensures vm.free != [] ==>
              var a, p := Alloc(vm), vm.free[0];
              && p in a.data && RefCount(a, p) == 0 && RefCount(Pin(a, p), p) == 1 && InsertFits(Pin(a, p), d, p, va)
  {
    if vm.free != [] {
      var a, p := Alloc(vm), vm.free[0];
      AllocKeeps(vm);
      AllocDirs(vm);
      SameDirsUse(vm, a, d);
      PinKeeps(a, p);
      PinDirs(a, p);
      SameDirsUse(a, Pin(a, p), d);
      hide Inv, RefCount, Pin, Alloc, IsDir;
    }
  }

  /** What the scheduler reads next lies in the table. */
  lemma AdvanceInRange(k: K)
    requires EnvsOk(k) && ChainOk(k) && k.runq != []
    ensures |k.envs| == |k.link| == NENV && 0 <= k.runq[0] < NENV && NULL <= k.iter < NENV
    ensures k.iter != NULL ==> NULL <= k.link[k.iter] < NENV
  {
    assert k.runq[0] in k.runq;
    if k.iter in k.runq {
      var p := Index(k.runq, k.iter);
      assert k.link[k.runq[p]] == At(k.runq, p + 1);
    }
  }

  lemma FirstSlot(k: K)
    requires EnvsOk(k) && k.freeq != []
    ensures 0 <= k.freeq[0] < NENV && NoDup(k.freeq)
  {
    assert k.freeq[0] in k.freeq;
    hide NoDup;
  }

  lemma OnRunList(k: K, e: nat)
    requires EnvsOk(k) && ChainOk(k) && DirsOk(k) && e in k.runq
    ensures e < NENV && k.envs[e].status == ENV_RUNNABLE && e !in k.freeq && |k.stamp| == NENV && Linked(k.runq, k.link)
    ensures IsDir(k.vm, k.envs[e].pgdir) && k.envs[e].pgdir != k.vm.boot
  {
    LiveDir(k, e);
    hide DirsOk, IsDir;
  }

  /** A new environment is on neither list. */
  lemma StartList(k: K, parent: nat)
    requires EnvsOk(k) && EnvState.EnvAlloc(k, parent).1 >= 0
    ensures var (u, e) := EnvState.EnvAlloc(k, parent); 0 <= e < NENV && e !in u.runq && u.runq == k.runq
  {
    assert k.freeq[0] in k.freeq;
  }

  lemma EnvFields(k: K, e: nat)
    requires EnvsOk(k) && e < NENV
    ensures k.envs[e].dstva < UTOP && k.envs[e].whom < FOURGIG && k.envs[e].permVa < FOURGIG
    ensures k.running ==> 0 <= k.cur < NENV && |k.envs| == NENV && k.envs[k.cur].status != ENV_FREE
  {}

  /** The state of Effect before the receiver is made runnable. */
  ghost function Sent(k: K, w: VM, e: nat, value: Word, perm: bv12): K
    requires |k.envs| == NENV && 0 <= k.cur < NENV && e < NENV
  {
    var d := k.envs[e].pgdir;
    var w1 := Deliver(w, d, k.envs[e].whom, U32(k.envs[k.cur].id));
    k.(vm := Deliver(w1, d, k.envs[e].permVa, Word(0, perm | PTE_V | PTE_R)),
       envs := k.envs[e := k.envs[e].(recving := false, msg := Msg(value, k.envs[k.cur].id, perm | PTE_V | PTE_R))])
  }

  lemma EffectSteps(k: K, w: VM, e: nat, value: Word, perm: bv12)
    requires KInv(k) && SameDirs(k.vm, w) && k.running && e < NENV && k.envs[e].status != ENV_FREE
    ensures |k.envs| == NENV && 0 <= k.cur < NENV
    ensures var u := Sent(k, w, e, value, perm);
            && KInv(u) && u.envs[e].status != ENV_FREE && EnvsOk(u) && ChainOk(u)
            && Effect(k, w, e, value, perm) == SetStatusOf(u, e, ENV_RUNNABLE)
            && IsDir(w, k.envs[e].pgdir)
            && IsDir(Deliver(w, k.envs[e].pgdir, k.envs[e].whom, U32(k.envs[k.cur].id)), k.envs[e].pgdir)
  {
    var d := k.envs[e].pgdir;
    var w1 := Deliver(w, d, k.envs[e].whom, U32(k.envs[k.cur].id));
    var w2 := Deliver(w1, d, k.envs[e].permVa, Word(0, perm | PTE_V | PTE_R));
    KInvParts(k);
    LiveDir(k, e);
    SameDirsUse(k.vm, w, d);
    DeliverDirs(w, d, k.envs[e].whom, U32(k.envs[k.cur].id));
    SameDirsUse(w, w1, d);
    DeliverDirs(w1, d, k.envs[e].permVa, Word(0, perm | PTE_V | PTE_R));
    SameDirsTrans(k.vm, w, w1);
    SameDirsTrans(k.vm, w1, w2);
    EffectState(k, w, w2, e, Msg(value, k.envs[k.cur].id, perm | PTE_V | PTE_R));
    KInvParts(Sent(k, w, e, value, perm));
    hide KInv, Inv, Deliver, SetStatusOf, IsDir;
  }

  /** The running environment is live. */
  lemma CurrentDir(k: K)
    requires EnvsOk(k) && DirsOk(k) && k.cur >= 0 && k.envs[k.cur].status != ENV_FREE
    ensures IsDir(k.vm, k.envs[k.cur].pgdir) && k.envs[k.cur].pgdir != k.vm.boot
  {}

  lemma CopyFitsStill(k: K, parent: nat)
    requires KInv(k) && k.running && CopyFits(k.vm, k.envs[k.cur].pgdir) && EnvState.EnvAlloc(k, parent).1 >= 0
    ensures CopyFits(EnvState.EnvAlloc(k, parent).0.vm, k.envs[k.cur].pgdir)
  {
    EnvAllocCounts(k, parent);
    EnvAllocKeeps(k, parent);
    hide KInv, RefCount, EnvState.EnvAlloc;
  }

  lemma RecvSteps(k: K, dstva: nat, whom: nat, permVa: nat)
    requires KInv(k) && k.running && dstva < UTOP && whom < FOURGIG && permVa < FOURGIG
    ensures var u := Waiting(k, dstva, whom, permVa);
            && u.envs[k.cur].status != ENV_FREE && 0 <= k.cur < NENV
            && EnvsOk(SetStatusOf(u, k.cur, ENV_NOT_RUNNABLE)) && ChainOk(SetStatusOf(u, k.cur, ENV_NOT_RUNNABLE))
            && EnvState.SysIpcRecv(k, dstva, whom, permVa) == Yield(SetStatusOf(u, k.cur, ENV_NOT_RUNNABLE))
  {
    SetStatusKeeps(Waiting(k, dstva, whom, permVa), k.cur, ENV_NOT_RUNNABLE);
    hide Yield, SetStatusOf;
  }

  lemma FreshFits(vm: VM, d: int)
    requires Inv(vm) && vm.free != [] && IsDir(vm, d)
    ensures RefCount(Alloc(vm), vm.free[0]) == 0 && vm.free[0] in Alloc(vm).data && IsDir(Alloc(vm), d)
            && Alloc(vm).boot == vm.boot
  {
    AllocKeeps(vm);
    HeadIsFree(vm);
  }

  lemma YieldUnfold(k: K)
    requires EnvsOk(k) && ChainOk(k)
    ensures k.runq == [] ==> Yield(k) == k.(running := false)
    ensures k.runq != [] ==>
              (AdvanceProgress(k);
               var a := Advance(k);
               && EnvsOk(a) && ChainOk(a)
               && Yield(k) == if a.iter != NULL
                     && a.envs[a.iter].status == ENV_RUNNABLE then a.(cur := a.iter, running := true) else Yield(a))
  {}
}
