/** The kernel as a state machine: the environment table, the run list with the scheduler's
    static iterator, and the address spaces of Vm. One transition per system call of lib/svc.c,
    written from lib/env.c, lib/sched.c and lib/svc.c. */
module EnvState {
  import opened Mmu
  import opened Queue
  import opened Vm

  const NENV := 1024
  const ENV_FREE := 0
  const ENV_RUNNABLE := 1
  const ENV_NOT_RUNNABLE := 2

  datatype Env = Env(
    id: nat,
    parent: nat,
    status: nat,
    pgdir: int,          // frame of the directory, NULL when free
    pri: nat,
    recving: bool,       // env_ipc_recving
    dstva: nat,
    whom: nat,           // user addresses that receive sender and permission, 0 for none
    permVa: nat,
    msg: Msg)            // what the last effective send left here

  /** env_ipc_value, env_ipc_from and env_ipc_perm. */
  datatype Msg = Msg(value: Word, from: nat, perm: bv12)

  datatype K = K(
    vm: VM,
    envs: seq<Env>,
    freeq: seq<nat>,     // env_free_list
    runq: seq<nat>,      // env_sched_list
    link: seq<int>,      // env_sched_link.le_next of every slot, stale or not
    back: seq<Slot>,     // env_sched_link.le_prev of every slot, stale or not
    stamp: seq<nat>,     // when a slot last left the run list (bookkeeping for the proof)
    clock: nat,
    nextId: nat,         // next_env_id
    cur: int,            // curenv
    running: bool,       // false once the run list was found empty
    iter: int,           // the scheduler's statics
    ts: int)

  function U32(n: nat): Word { Word(n / 0x1000 % 0x10_0000, (n % 0x1000) as bv12) }

  /* ---------- the invariant ---------- */

  /** Every slot is FREE and on the free list, RUNNABLE and on the run list, or NOT_RUNNABLE
      and on neither; ids carry their slot. */
  ghost predicate EnvsOk(k: K) {
    && |k.envs| == NENV
    && NoDup(k.freeq) && NoDup(k.runq)
    && (forall i :: i in k.freeq <==> 0 <= i < NENV && k.envs[i].status == ENV_FREE)
    && (forall i :: i in k.runq <==> 0 <= i < NENV && k.envs[i].status == ENV_RUNNABLE)
    && (forall i :: 0 <= i < NENV ==>
          && k.envs[i].status <= ENV_NOT_RUNNABLE && k.envs[i].dstva < UTOP
          && k.envs[i].whom < FOURGIG && k.envs[i].permVa < FOURGIG)
    && (forall i :: 0 <= i < NENV && k.envs[i].status != ENV_FREE ==> k.envs[i].id / 0x100 == i)
    && NULL <= k.cur < NENV
    && (k.running ==> k.cur >= 0 && k.envs[k.cur].status != ENV_FREE)
  }

  /** q is linked through link, front to back. */
  ghost predicate Linked(q: seq<nat>, link: seq<int>) {
    && (forall i :: 0 <= i < |q| ==> q[i] < |link|)
    && (forall i {:trigger link[q[i]]} :: 0 <= i < |q| ==> link[q[i]] == At(q, i + 1))
  }

  /** The back links of q's members name the pointers that point at them. */
  ghost predicate Backed(q: seq<nat>, back: seq<Slot>) {
    && (forall i :: 0 <= i < |q| ==> q[i] < |back|)
    && (forall i {:trigger back[q[i]]} :: 0 <= i < |q| ==> back[q[i]] == Back(q, i))
    && (forall x :: 0 <= x < |back| && back[x].NextOf? ==> back[x].elm < |back|)
  }

  /** The run list is linked both ways, and stale forward links lead forward. */
  ghost predicate ChainOk(k: K) {
    && |k.link| == |k.back| == |k.stamp| == NENV && NULL <= k.iter < NENV
    && Linked(k.runq, k.link) && Backed(k.runq, k.back)
    && Forward(k.link, k.runq, k.stamp, k.clock)
  }

  /** Live environments have their own directories, with page tables below the sections only; the
      boot directory maps the exception vectors, and every directory shares that. */
  ghost predicate DirsOk(k: K) {
    && |k.envs| == NENV
    && (forall i :: 0 <= i < NENV && k.envs[i].status != ENV_FREE ==>
          IsDir(k.vm, k.envs[i].pgdir) && k.envs[i].pgdir != k.vm.boot)
    && (forall i, j :: 0 <= i < j < NENV && k.envs[i].status != ENV_FREE && k.envs[j].status != ENV_FREE ==>
                         k.envs[i].pgdir != k.envs[j].pgdir)
    && (forall t :: t in k.vm.tables ==> t.dir == k.vm.boot || t.no < 0x800)
    && VectorsMapped(k.vm)
  }

  ghost predicate VectorsMapped(vm: VM) {
    && Key(vm.boot, 0xFFF) in vm.tables && Key(vm.boot, 0xF_FFF0) in vm.maps
    && vm.maps[Key(vm.boot, 0xF_FFF0)] == Entry(VECTORS, PTE_V)
  }

  ghost predicate KInv(k: K) { Inv(k.vm) && EnvsOk(k) && ChainOk(k) && DirsOk(k) }

  /* ---------- lib/env.c ---------- */

  /** envid2env: a slot, or NULL for -E_BAD_ENV. */
  function Find(k: K, envid: nat, checkperm: bool): int
    requires |k.envs| == NENV && NULL <= k.cur < NENV
  {
    var e := if envid != 0 then envid / 0x100 % NENV else k.cur;
    if e == NULL || k.envs[e].status == ENV_FREE || (envid != 0 && k.envs[e].id != envid) then NULL
    else if checkperm && e != k.cur && (k.cur == NULL || k.envs[e].parent != k.envs[k.cur].id) then NULL
    else e
  }

  /** mkenvid: the slot above a running counter modulo 256. */
  function MkEnvId(slot: nat, counter: nat): nat { slot * 0x100 + counter % 0x100 }

  ghost function Enqueue(k: K, i: nat): K
    requires i < |k.link| && i < |k.back|
  {
    k.(runq := [i] + k.runq, link := k.link[i := At(k.runq, 0)], back := PrevInserted(k.back, k.runq, i))
  }

  ghost function Dequeue(k: K, i: nat): K
    requires i < |k.link| && i < |k.stamp| && i in k.runq
    requires Linked(k.runq, k.link)
  {
    var p := Index(k.runq, i);
    k.(runq := Without(k.runq, i), link := if p == 0 then k.link else k.link[k.runq[p - 1] := k.link[i]],
       back := PrevRemoved(k.back, k.runq, p), stamp := k.stamp[i := k.clock + 1], clock := k.clock + 1)
  }

  /** env_alloc. A failed page_alloc panics inside env_setup_vm; it is -E_NO_MEM here. */
  ghost function EnvAlloc(k: K, parent: nat): (K, int)
    requires EnvsOk(k)
  {
    if k.freeq == [] then (k, -E_NO_FREE_ENV)
    else if k.vm.free == [] then (k, -E_NO_MEM)
    else
      assert k.freeq[0] in k.freeq;
      var e := k.freeq[0];
      var env := k.envs[e].(id := MkEnvId(e, k.nextId + 1), parent := parent, status := ENV_NOT_RUNNABLE,
          pgdir := k.vm.free[0]);
      (k.(vm := NewDir(k.vm), envs := k.envs[e := env], freeq := k.freeq[1..], nextId := k.nextId + 1), e)
  }

  /** env_free of an environment that is on the run list. */
  ghost function EnvFree(k: K, e: nat): K
    requires EnvsOk(k) && ChainOk(k) && e in k.runq
  {
    Dequeue(k.(vm := FreeDir(k.vm, k.envs[e].pgdir), envs := k.envs[e := k.envs[e].(status := ENV_FREE, pgdir := NULL)],
               freeq := [e] + k.freeq), e)
  }

  /** my_set_env_status for RUNNABLE and NOT_RUNNABLE. */
  ghost function SetStatusOf(k: K, e: nat, status: nat): K
    requires EnvsOk(k) && ChainOk(k) && e < NENV && k.envs[e].status != ENV_FREE
    requires status == ENV_RUNNABLE || status == ENV_NOT_RUNNABLE
  {
    var u := k.(envs := k.envs[e := k.envs[e].(status := status)]);
    if k.envs[e].status == status then k
    else if status == ENV_RUNNABLE then Enqueue(u, e)
    else Dequeue(u, e)
  }

  /* ---------- lib/sched.c ---------- */

  function AsInt(u: nat): int { if u < 0x8000_0000 then u else u - 0x1_0000_0000 }

  /** One turn of the loop in sched_yield up to the test of the status. */
  ghost function Advance(k: K): K
    requires EnvsOk(k) && ChainOk(k) && k.runq != []
  {
    var next := if k.iter != NULL then k.link[k.iter] else NULL;
    var it := if k.ts > 0 then k.iter else if next != NULL then next else k.runq[0];
    k.(iter := it, ts := (if k.ts > 0 then k.ts else AsInt(k.envs[it].pri)) - 1)
  }

  ghost function IterRank(k: K): nat
    requires ChainOk(k)
  {
    if k.iter == NULL then |k.runq| + k.clock + 2 else Rank(k.runq, k.stamp, k.clock, k.iter)
  }

  /** One turn either selects, or comes closer to a selection. */
  lemma AdvanceProgress(k: K)
    requires EnvsOk(k) && ChainOk(k) && k.runq != []
    ensures var a := Advance(k);
            && EnvsOk(a) && ChainOk(a)
            && (a.iter == NULL || k.envs[a.iter].status != ENV_RUNNABLE ==>
                  || (k.ts > 0 && a.iter == k.iter && a.ts == k.ts - 1)
                  || (k.ts <= 0 && k.iter != NULL && IterRank(a) < IterRank(k)))
  {
    var a := Advance(k);
    assert k.runq[0] in k.runq;
    if k.ts <= 0 && k.iter != NULL && k.link[k.iter] != NULL {
      ChainDrops(k, k.iter);
    }
  }

  lemma ChainDrops(k: K, x: nat)
    requires EnvsOk(k) && ChainOk(k) && x < NENV && k.link[x] != NULL
    ensures 0 <= k.link[x] < NENV && Rank(k.runq, k.stamp, k.clock, k.link[x]) < Rank(k.runq, k.stamp, k.clock, x)
  {
    if x in k.runq {
      var p := Index(k.runq, x);
      assert k.link[k.runq[p]] == At(k.runq, p + 1);
      assert k.runq[Index(k.runq, k.runq[p + 1])] == k.runq[p + 1];
    }
  }

  /** sched_yield. Its loop terminates on every non-empty run list: the chain rank of the
      iterator drops, or its remaining time does. */
  ghost function Yield(k: K): K
    requires EnvsOk(k) && ChainOk(k)
    decreases IterRank(k), if k.ts > 0 then k.ts else 0
  {
    if k.runq == [] then k.(running := false)
    else
      AdvanceProgress(k);
      var a := Advance(k);
      if a.iter != NULL && a.envs[a.iter].status == ENV_RUNNABLE then a.(cur := a.iter, running := true)
      else Yield(a)
  }

  /** sched_yield changes only what is running and its own statics, and it runs a member of
      the run list whenever there is one. */
  lemma {:induction false} YieldRuns(k: K)
    requires EnvsOk(k) && ChainOk(k)
    ensures var y := Yield(k);
            && y == k.(cur := y.cur, running := y.running, iter := y.iter, ts := y.ts)
            && EnvsOk(y) && ChainOk(y)
            && (y.running <==> k.runq != [])
            && (k.runq != [] ==> y.cur in k.runq && y.iter == y.cur && k.envs[y.cur].status == ENV_RUNNABLE)
            && (k.runq == [] ==> y.cur == k.cur)
    decreases IterRank(k), if k.ts > 0 then k.ts else 0
  {
    if k.runq != [] {
      AdvanceProgress(k);
      var a := Advance(k);
      if a.iter == NULL || a.envs[a.iter].status != ENV_RUNNABLE { YieldRuns(a); }
    }
  }

  /* ---------- lib/svc.c ---------- */

  ghost function SysMemAlloc(k: K, envid: nat, va: nat, perm: bv12): (K, int)
    requires KInv(k)
  {
    if va >= UTOP then (k, -E_UNSPECIFIED)
    else if perm & PTE_V == 0 then (k, -E_INVAL)
    else
      var e := Find(k, envid, false);
      if e == NULL then (k, -E_BAD_ENV)
      else if k.vm.free == [] then (k, -E_NO_MEM)
      else
        var (w, r) := Insert(Alloc(k.vm), k.envs[e].pgdir, k.vm.free[0], va, perm);
        (k.(vm := w), r)
  }

  ghost function SysMemMap(k: K, srcid: nat, srcva: nat, dstid: nat, dstva: nat, perm: bv12): (K, int)
    requires KInv(k)
  {
    if srcva >= UTOP || dstva >= UTOP then (k, -E_UNSPECIFIED)
    else if perm & PTE_V == 0 then (k, -E_INVAL)
    else
      var s, d := Find(k, srcid, false), Find(k, dstid, false);
      if s == NULL || d == NULL then (k, -E_BAD_ENV)
      else
        var p := Lookup(k.vm, k.envs[s].pgdir, RoundDown(srcva));
        if p == NULL then (k, -E_UNSPECIFIED)
        else
          var (w, r) := Insert(k.vm, k.envs[d].pgdir, p, RoundDown(dstva), perm);
          (k.(vm := w), r)
  }

  ghost function SysMemUnmap(k: K, envid: nat, va: nat): (K, int)
    requires KInv(k)
  {
    if va >= UTOP then (k, -E_INVAL)
    else
      var e := Find(k, envid, true);
      if e == NULL then (k, -E_BAD_ENV)
      else (k.(vm := Remove(k.vm, Key(k.envs[e].pgdir, VPN(va)))), 0)
  }

  /** sys_env_alloc: the child keeps what was copied even when the copy fails. */
  ghost function SysEnvAlloc(k: K): (K, int)
    requires KInv(k) && k.cur != NULL
  {
    var (u, e) := EnvAlloc(k, k.envs[k.cur].id);
    if e < 0 then (u, e)
    else
      var (w, r) := CopyPages(u.vm, k.envs[k.cur].pgdir, u.envs[e].pgdir, ULIM_VPN);
      (u.(vm := w), if r < 0 then r else u.envs[e].id)
  }

  ghost function SysSetEnvStatus(k: K, envid: nat, status: nat): (K, int)
    requires KInv(k)
  {
    if status > ENV_NOT_RUNNABLE then (k, -E_INVAL)
    else
      var e := Find(k, envid, true);
      if e == NULL then (k, -E_BAD_ENV)
      else if status != ENV_FREE then (SetStatusOf(k, e, status), 0)
      else (MarkFree(k, e), 0)
  }

  /** my_set_env_status(e, ENV_FREE): the status is stored first, so the lookup by id inside
      sys_env_destroy rejects the environment and nothing is torn down. */
  ghost function MarkFree(k: K, e: nat): K
    requires e < |k.envs|
  {
    k.(envs := k.envs[e := k.envs[e].(status := ENV_FREE)])
  }

  ghost function SysIpcRecv(k: K, dstva: nat, whom: nat, permVa: nat): K
    requires KInv(k) && k.running && whom < FOURGIG && permVa < FOURGIG
  {
    if dstva >= UTOP then k
    else
      SetStatusKeeps(Waiting(k, dstva, whom, permVa), k.cur, ENV_NOT_RUNNABLE);
      Yield(SetStatusOf(Waiting(k, dstva, whom, permVa), k.cur, ENV_NOT_RUNNABLE))
  }

  ghost function Waiting(k: K, dstva: nat, whom: nat, permVa: nat): (u: K)
    requires KInv(k) && k.running && dstva < UTOP && whom < FOURGIG && permVa < FOURGIG
    ensures EnvsOk(u) && ChainOk(u)
  {
    k.(envs := k.envs[k.cur := k.envs[k.cur].(recving := true, dstva := dstva, whom := whom, permVa := permVa)])
  }

  /** A word written to a user address of directory d, if there is a page. */
  ghost function Deliver(vm: VM, d: int, va: nat, w: Word): VM {
    var p := Lookup(vm, d, va);
    var j := va % BY2PG / 4;
    if va != 0 && p in vm.data && j < |vm.data[p]| then Store(vm, p, j, w) else vm
  }

  /** Does the send get past every test? */
  ghost predicate SendTakesEffect(k: K, envid: nat, srcva: nat, perm: bv12)
    requires KInv(k) && k.running
  {
    var e := Find(k, envid, false);
    && srcva < UTOP && e != NULL && k.envs[e].recving
    && (srcva != 0 ==>
          && Lookup(k.vm, k.envs[k.cur].pgdir, srcva) != NULL
          && Insert(k.vm, k.envs[e].pgdir, Lookup(k.vm, k.envs[k.cur].pgdir, srcva), k.envs[e].dstva, perm).1 == 0)
  }

  /** The address spaces once the sent page, if any, is mapped for the receiver e. */
  ghost function SentPage(k: K, e: nat, srcva: nat, perm: bv12): VM
    requires KInv(k) && k.running && e < NENV && k.envs[e].status != ENV_FREE
    requires srcva != 0 ==> Lookup(k.vm, k.envs[k.cur].pgdir, srcva) != NULL
  {
    if srcva == 0 then k.vm
    else Insert(k.vm, k.envs[e].pgdir, Lookup(k.vm, k.envs[k.cur].pgdir, srcva), k.envs[e].dstva, perm).0
  }

  /** The alignment check is on, so a store to an unaligned mapped address would fault inside the
      kernel, where pageout panics. */
  ghost predicate SendAligned(k: K, envid: nat, srcva: nat, perm: bv12)
    requires KInv(k) && k.running
  {
    SendTakesEffect(k, envid, srcva, perm) ==>
      var e := Find(k, envid, false);
      var (w, d) := (SentPage(k, e, srcva, perm), k.envs[e].pgdir);
      && (k.envs[e].whom % 4 == 0 || Lookup(w, d, k.envs[e].whom) == NULL)
      && (k.envs[e].permVa % 4 == 0 || Lookup(w, d, k.envs[e].permVa) == NULL)
  }

  ghost function SysIpcCanSend(k: K, envid: nat, value: Word, srcva: nat, perm: bv12): (K, int)
    requires KInv(k) && k.running
  {
    if srcva >= UTOP then (k, -E_INVAL)
    else
      var e := Find(k, envid, false);
      if e == NULL then (k, -E_INVAL)
      else if !k.envs[e].recving then (k, -E_IPC_NOT_RECV)
      else if srcva == 0 then (Effect(k, k.vm, e, value, perm), 0)
      else
        var p := Lookup(k.vm, k.envs[k.cur].pgdir, srcva);
        if p == NULL then (k, 0)
        else
          var (w, r) := Insert(k.vm, k.envs[e].pgdir, p, k.envs[e].dstva, perm);
          if r < 0 then (k.(vm := w), -E_INVAL) else (Effect(k, w, e, value, perm), 0)
  }

  /** The tail of sys_ipc_can_send, once the page (if any) is mapped in w. */
  ghost function Effect(k: K, w: VM, e: nat, value: Word, perm: bv12): K
    requires EnvsOk(k) && ChainOk(k) && k.running && e < NENV && k.envs[e].status != ENV_FREE
  {
    var m := Msg(value, k.envs[k.cur].id, perm | PTE_V | PTE_R);
    var d := k.envs[e].pgdir;
    var w1 := Deliver(w, d, k.envs[e].whom, U32(m.from));
    var w2 := Deliver(w1, d, k.envs[e].permVa, Word(0, m.perm));
    SetStatusOf(k.(vm := w2, envs := k.envs[e := k.envs[e].(recving := false, msg := m)]), e, ENV_RUNNABLE)
  }

  ghost function SysEnvDestroy(k: K, envid: nat): (K, int)
    requires KInv(k)
    requires Find(k, envid, true) != NULL ==> k.envs[Find(k, envid, true)].status == ENV_RUNNABLE
  {
    var e := Find(k, envid, true);
    if e == NULL then (k, -E_BAD_ENV)
    else
      assert e in k.runq;
      EnvFreeKeepsLists(k, e);
      var u := EnvFree(k, e);
      if k.cur == e then (Yield(u.(cur := NULL, running := false)), 0) else (u, 0)
  }

  /* ---------- every step keeps the invariant ---------- */

  lemma UnlinkLive(q: seq<nat>, link: seq<int>, p: nat)
    requires NoDup(q) && Linked(q, link) && p < |q|
    ensures Linked(q[..p] + q[p + 1..], if p == 0 then link else link[q[p - 1] := link[q[p]]])
  {
    var w, l := q[..p] + q[p + 1..], if p == 0 then link else link[q[p - 1] := link[q[p]]];
    assert link[q[p]] == At(q, p + 1);
    forall j | 0 <= j < |w| ensures w[j] < |l| && l[w[j]] == At(w, j + 1) {
      var o := if j < p then j else j + 1;
      assert w[j] == q[o] && link[q[o]] == At(q, o + 1);
      assert p > 0 && o != p - 1 ==> q[o] != q[p - 1];
    }
  }

  lemma UnlinkStale(q: seq<nat>, link: seq<int>, stamp: seq<nat>, clock: nat, p: nat)
    requires NoDup(q) && Linked(q, link) && p < |q| && Forward(link, q, stamp, clock)
    requires forall x :: x in q[..p] + q[p + 1..] <==> x in q && x != q[p]
    ensures Forward(if p == 0 then link else link[q[p - 1] := link[q[p]]], q[..p] + q[p + 1..],
            stamp[q[p] := clock + 1], clock + 1)
  {
    var w, l, st := q[..p] + q[p + 1..], if p == 0 then link else link[q[p - 1] := link[q[p]]],
        stamp[q[p] := clock + 1];
    assert link[q[p]] == At(q, p + 1);
    assert p > 0 ==> q[p - 1] in q && q[p - 1] != q[p];
    forall x | 0 <= x < |l| && x !in w && l[x] != NULL ensures 0 <= l[x] < |l| && (l[x] in w || st[x] < st[l[x]]) {
      if x == q[p] {
        assert q[p + 1] in q && q[p + 1] != q[p];
      } else {
        assert x !in q && l[x] == link[x];
      }
    }
  }

  lemma DequeueKeeps(k: K, i: nat)
    requires ChainOk(k) && NoDup(k.runq) && i in k.runq
    ensures ChainOk(Dequeue(k, i)) && NoDup(Dequeue(k, i).runq)
    ensures forall x :: x in Dequeue(k, i).runq <==> x in k.runq && x != i
  {
    hide Linked, Forward, ChainOk, Backed;
    ChainParts(k);
    var p, w := Index(k.runq, i), Dequeue(k, i);
    WithoutMembers(k.runq, i);
    UnlinkLive(k.runq, k.link, p);
    UnlinkStale(k.runq, k.link, k.stamp, k.clock, p);
    UnlinkBack(k.runq, k.back, p);
    DequeueIs(k, i);
    DequeueChain(k, w, p);
  }

  lemma ChainParts(k: K)
    requires ChainOk(k)
    ensures |k.link| == |k.back| == |k.stamp| == NENV && Linked(k.runq, k.link)
            && Forward(k.link, k.runq, k.stamp, k.clock)
    ensures Backed(k.runq, k.back)
    ensures forall j :: 0 <= j < |k.runq| ==> k.runq[j] < NENV
  {
    hide Forward;
  }

  lemma DequeueIs(k: K, i: nat)
    requires i < |k.link| && i < |k.stamp| && i in k.runq && Linked(k.runq, k.link)
    ensures var p, w := Index(k.runq, i), Dequeue(k, i);
            && w.runq == k.runq[..p] + k.runq[p + 1..] && w.stamp == k.stamp[k.runq[p] := k.clock + 1]
            && w.clock == k.clock + 1
            && w.link == (if p == 0 then k.link else k.link[k.runq[p - 1] := k.link[k.runq[p]]])
            && w.iter == k.iter && |w.link| == |k.link| && w.back == PrevRemoved(k.back, k.runq, p)
  {
    hide Forward;
  }

  lemma DequeueChain(k: K, w: K, p: nat)
    requires ChainOk(k) && p < |k.runq| && (forall j :: 0 <= j < |k.runq| ==> 0 <= k.runq[j] < |k.link|)
             && k.runq[p] < |k.stamp|
    requires w.runq == k.runq[..p] + k.runq[p + 1..] && w.stamp == k.stamp[k.runq[p] := k.clock + 1]
             && w.clock == k.clock + 1
    requires w.link == if p == 0 then k.link else k.link[k.runq[p - 1] := k.link[k.runq[p]]]
    requires Linked(w.runq, w.link) && Forward(w.link, w.runq, w.stamp, w.clock)
    requires w.iter == k.iter && |w.link| == NENV && |w.back| == NENV && Backed(w.runq, w.back)
    ensures ChainOk(w)
  {
    hide Linked, Forward, Backed;
  }

  lemma UnlinkBack(q: seq<nat>, back: seq<Slot>, p: nat)
    requires NoDup(q) && Backed(q, back) && p < |q|
    ensures Backed(q[..p] + q[p + 1..], PrevRemoved(back, q, p))
  {
    var w, b := q[..p] + q[p + 1..], PrevRemoved(back, q, p);
    forall j | 0 <= j < |w| ensures w[j] < |b| && b[w[j]] == Back(w, j) {
      var o := if j < p then j else j + 1;
      assert w[j] == q[o] && back[q[o]] == Back(q, o);
      assert o != p + 1 && p + 1 < |q| ==> q[o] != q[p + 1];
    }
  }

  lemma EnqueueKeeps(k: K, i: nat)
    requires ChainOk(k) && NoDup(k.runq) && i < NENV && i !in k.runq
    ensures ChainOk(Enqueue(k, i)) && NoDup(Enqueue(k, i).runq)
    ensures forall x :: x in Enqueue(k, i).runq <==> x in k.runq || x == i
  {
    hide Linked, Forward, Backed;
    var w := Enqueue(k, i);
    LinkHead(k.runq, k.link, i);
    BackHead(k.runq, k.back, i);
    StaleHead(k.runq, k.link, k.stamp, k.clock, i);
    assert forall x :: x in w.runq <==> x in k.runq || x == i;
    assert w.runq[0] == i;
  }

  lemma LinkHead(q: seq<nat>, link: seq<int>, i: nat)
    requires Linked(q, link) && i < |link| && i !in q
    ensures Linked([i] + q, link[i := At(q, 0)])
  {
    var w, l := [i] + q, link[i := At(q, 0)];
    forall j | 0 <= j < |w| ensures w[j] < |l| && l[w[j]] == At(w, j + 1) {
      if j > 0 { assert w[j] == q[j - 1] && link[q[j - 1]] == At(q, j); }
    }
  }

  lemma BackHead(q: seq<nat>, back: seq<Slot>, i: nat)
    requires Backed(q, back) && NoDup(q) && i < |back| && i !in q
    ensures Backed([i] + q, PrevInserted(back, q, i))
  {
    var w, b := [i] + q, PrevInserted(back, q, i);
    forall j | 0 <= j < |w| ensures w[j] < |b| && b[w[j]] == Back(w, j) {
      if j > 0 { assert w[j] == q[j - 1] && back[q[j - 1]] == Back(q, j - 1); }
    }
  }

  lemma StaleHead(q: seq<nat>, link: seq<int>, stamp: seq<nat>, clock: nat, i: nat)
    requires Linked(q, link) && Forward(link, q, stamp, clock) && i < |link| && i !in q
    ensures Forward(link[i := At(q, 0)], [i] + q, stamp, clock)
  {
    assert ([i] + q)[0] == i;
    assert forall x :: x in q ==> x in [i] + q;
  }

  lemma SetStatusKeeps(k: K, e: nat, status: nat)
    requires EnvsOk(k) && ChainOk(k) && e < NENV && k.envs[e].status != ENV_FREE
    requires status == ENV_RUNNABLE || status == ENV_NOT_RUNNABLE
    ensures EnvsOk(SetStatusOf(k, e, status)) && ChainOk(SetStatusOf(k, e, status))
  {
    var u := k.(envs := k.envs[e := k.envs[e].(status := status)]);
    if k.envs[e].status != status {
      if status == ENV_RUNNABLE { EnqueueKeeps(u, e); } else { DequeueKeeps(u, e); }
    }
  }

  lemma EnvFreeKeepsLists(k: K, e: nat)
    requires EnvsOk(k) && ChainOk(k) && e in k.runq
    ensures ChainOk(EnvFree(k, e))
    ensures k.cur == e ==> EnvsOk(EnvFree(k, e).(cur := NULL, running := false))
    ensures k.cur != e ==> EnvsOk(EnvFree(k, e))
  {
    hide FreeDir, Linked, Forward, Dequeue, NoDup;
    var u := k.(vm := FreeDir(k.vm, k.envs[e].pgdir),
        envs := k.envs[e := k.envs[e].(status := ENV_FREE, pgdir := NULL)],
                freeq := [e] + k.freeq);
    assert ChainOk(u);
    DequeueKeeps(u, e);
    DequeueFrame(u, e);
    FreedEnvs(k, Dequeue(u, e), e);
  }

  /** The lists match the statuses after the move from one list to the other. */
  lemma FreedEnvs(k: K, w: K, e: nat)
    requires EnvsOk(k) && e in k.runq
    requires w.envs == k.envs[e := k.envs[e].(status := ENV_FREE, pgdir := NULL)] && w.freeq == [e] + k.freeq
    requires w.cur == k.cur && w.running == k.running && NoDup(w.runq)
             && forall x :: x in w.runq <==> x in k.runq && x != e
    ensures k.cur == e ==> EnvsOk(w.(cur := NULL, running := false))
    ensures k.cur != e ==> EnvsOk(w)
  {
    assert NoDup(w.freeq);
    hide NoDup;
    assert forall x :: x in w.freeq <==> x in k.freeq || x == e;
  }

  lemma DequeueFrame(k: K, i: nat)
    requires ChainOk(k) && i in k.runq
    ensures var w := Dequeue(k, i);
            && w.envs == k.envs && w.freeq == k.freeq && w.cur == k.cur && w.running == k.running && w.vm == k.vm
            && w.iter == k.iter && w.ts == k.ts && w.nextId == k.nextId
  {}

  /** What a change of the address spaces alone must keep. */
  ghost predicate SameDirs(vm: VM, w: VM) {
    && Inv(w) && w.boot == vm.boot
    && (forall e :: IsDir(w, e) <==> IsDir(vm, e))
    && (forall t :: t in w.tables && t !in vm.tables ==> t.dir != vm.boot && t.no < 0x800)
    && (VectorsMapped(vm) ==> VectorsMapped(w))
  }

  lemma MemoryStep(k: K, w: VM)
    requires KInv(k) && SameDirs(k.vm, w)
    ensures KInv(k.(vm := w))
  {
    hide Inv, IsDir;
    assert ChainOk(k.(vm := w));
  }

  lemma InsertDirs(vm: VM, d: int, p: int, va: nat, perm: bv12)
    requires Inv(vm) && IsDir(vm, d) && d != vm.boot && p in vm.data && va < ULIM
    ensures SameDirs(vm, Insert(vm, d, p, va, perm).0)
  {
    hide Inv, RefCount, Insert, PageOf, SlotOf;
    LowPage(vm, d, va);
    InsertOutcome(vm, d, p, va, perm);
    InsertRoles(vm, d, p, va, perm);
    SlotOutsideSections(va);
    if Insert(vm, d, p, va, perm).1 == 0 { InsertKeeps(vm, d, p, va, perm); }
  }

  lemma AllocDirs(vm: VM)
    requires Inv(vm) && vm.free != []
    ensures SameDirs(vm, Alloc(vm)) && vm.free[0] in Alloc(vm).data
  {
    AllocKeeps(vm);
    HeadIsFree(vm);
    hide Inv, RefCount;
  }

  lemma SameDirsTrans(a: VM, b: VM, c: VM)
    requires SameDirs(a, b) && SameDirs(b, c)
    ensures SameDirs(a, c)
  {
    hide Inv, IsDir;
  }

  lemma StoreDirs(vm: VM, p: int, j: nat, w: Word)
    requires Inv(vm) && p in vm.data && j < |vm.data[p]|
    ensures SameDirs(vm, Store(vm, p, j, w))
  {
    StoreKeeps(vm, p, j, w);
    hide Inv, RefCount;
  }

  lemma RemoveDirs(vm: VM, key: Key)
    requires Inv(vm) && key.dir != vm.boot
    ensures SameDirs(vm, Remove(vm, key))
  {
    hide Inv, RefCount, Remove;
    RemoveKeeps(vm, key);
    RemoveRoles(vm, key);
  }

  lemma LookupData(vm: VM, d: int, va: nat)
    requires Inv(vm) && Lookup(vm, d, va) != NULL
    ensures Lookup(vm, d, va) in vm.data && PageOf(vm, d, va) in vm.maps
  {
    MappedHasTable(vm, PageOf(vm, d, va));
  }

  lemma NullIsNoPage(vm: VM)
    requires Inv(vm)
    ensures NULL !in vm.data
  {}

  /** envid2env returns a live environment, whose directory is its own. */
  lemma FindLive(k: K, envid: nat, check: bool)
    requires KInv(k) && Find(k, envid, check) != NULL
    ensures var e := Find(k, envid, check);
            0 <= e < NENV && k.envs[e].status != ENV_FREE && IsDir(k.vm, k.envs[e].pgdir)
                && k.envs[e].pgdir != k.vm.boot
  {
    hide Inv, ChainOk;
  }

  lemma MemAllocKeeps(k: K, envid: nat, va: nat, perm: bv12)
    requires KInv(k)
    ensures KInv(SysMemAlloc(k, envid, va, perm).0)
  {
    hide KInv, Inv, Insert, Alloc, Find;
    KInvParts(k);
    var e := Find(k, envid, false);
    if va < UTOP && e != NULL && k.vm.free != [] {
      FindLive(k, envid, false);
      AllocDirs(k.vm);
      SameDirsUse(k.vm, Alloc(k.vm), k.envs[e].pgdir);
      InsertDirs(Alloc(k.vm), k.envs[e].pgdir, k.vm.free[0], va, perm);
      SameDirsTrans(k.vm, Alloc(k.vm), Insert(Alloc(k.vm), k.envs[e].pgdir, k.vm.free[0], va, perm).0);
      MemoryStep(k, Insert(Alloc(k.vm), k.envs[e].pgdir, k.vm.free[0], va, perm).0);
    }
  }

  lemma KInvParts(k: K)
    requires KInv(k)
    ensures Inv(k.vm) && EnvsOk(k) && ChainOk(k) && DirsOk(k)
  {}

  lemma SameDirsUse(vm: VM, w: VM, d: int)
    requires SameDirs(vm, w)
    ensures Inv(w) && w.boot == vm.boot && (IsDir(w, d) <==> IsDir(vm, d))
  {}

  lemma MemMapKeeps(k: K, srcid: nat, srcva: nat, dstid: nat, dstva: nat, perm: bv12)
    requires KInv(k)
    ensures KInv(SysMemMap(k, srcid, srcva, dstid, dstva, perm).0)
  {
    hide KInv, Inv, Insert, Find, Lookup;
    KInvParts(k);
    var s, d := Find(k, srcid, false), Find(k, dstid, false);
    if srcva < UTOP && dstva < UTOP && s != NULL && d != NULL {
      FindLive(k, srcid, false);
      FindLive(k, dstid, false);
      var p := Lookup(k.vm, k.envs[s].pgdir, RoundDown(srcva));
      if p != NULL {
        LookupData(k.vm, k.envs[s].pgdir, RoundDown(srcva));
        InsertDirs(k.vm, k.envs[d].pgdir, p, RoundDown(dstva), perm);
        MemoryStep(k, Insert(k.vm, k.envs[d].pgdir, p, RoundDown(dstva), perm).0);
      }
    }
  }

  lemma MemUnmapKeeps(k: K, envid: nat, va: nat)
    requires KInv(k)
    ensures KInv(SysMemUnmap(k, envid, va).0)
  {
    hide KInv, Inv, Remove, Find;
    KInvParts(k);
    var e := Find(k, envid, true);
    if va < UTOP && e != NULL {
      FindLive(k, envid, true);
      RemoveDirs(k.vm, Key(k.envs[e].pgdir, VPN(va)));
      MemoryStep(k, Remove(k.vm, Key(k.envs[e].pgdir, VPN(va))));
    }
  }

  lemma EnvAllocKeeps(k: K, parent: nat)
    requires KInv(k)
    ensures var (u, e) := EnvAlloc(k, parent);
            && KInv(u)
            && (e < 0 ==> u == k)
            && (e >= 0 ==> e < NENV && k.envs[e].status == ENV_FREE && u.envs[e].status == ENV_NOT_RUNNABLE
                           && IsDir(u.vm, u.envs[e].pgdir) && u.envs[e].pgdir != u.vm.boot
                           && (forall key :: key in u.vm.maps ==> key.dir != u.envs[e].pgdir)
                           && u.vm.maps == k.vm.maps && u.vm.tables == k.vm.tables)
  {
    if k.freeq != [] && k.vm.free != [] {
      NewDirKeeps(k.vm);
      EnvAllocLists(k, parent);
      EnvAllocDirs(k, parent);
      assert k.freeq[0] in k.freeq;
      hide Inv, RefCount, EnvsOk, DirsOk, ChainOk;
    }
  }

  lemma EnvAllocLists(k: K, parent: nat)
    requires EnvsOk(k) && ChainOk(k) && k.freeq != [] && k.vm.free != []
    ensures EnvsOk(EnvAlloc(k, parent).0) && ChainOk(EnvAlloc(k, parent).0)
  {
    var e := k.freeq[0];
    assert e in k.freeq;
    var u := EnvAlloc(k, parent).0;
    assert k.freeq == [e] + k.freeq[1..];
    assert forall x :: x in u.freeq <==> x in k.freeq && x != e;
    assert ChainOk(u);
  }

  lemma EnvAllocDirs(k: K, parent: nat)
    requires EnvsOk(k) && DirsOk(k) && Inv(k.vm) && k.freeq != [] && k.vm.free != []
    ensures DirsOk(EnvAlloc(k, parent).0)
  {
    assert k.freeq[0] in k.freeq;
    FreshDirs(k.vm);
    hide Inv, IsDir;
  }

  lemma FreshDirs(vm: VM)
    requires Inv(vm) && vm.free != []
    ensures forall e :: IsDir(NewDir(vm), e) <==> IsDir(vm, e) || e == vm.free[0]
    ensures !IsDir(vm, vm.free[0]) && NewDir(vm).boot == vm.boot && vm.free[0] != vm.boot
  {
    HeadIsFree(vm);
  }

  lemma ForkKeeps(k: K)
    requires KInv(k) && k.running
    ensures KInv(SysEnvAlloc(k).0)
  {
    hide KInv, EnvAlloc, CopyPages, Inv;
    KInvParts(k);
    var (u, e) := EnvAlloc(k, k.envs[k.cur].id);
    EnvAllocKeeps(k, k.envs[k.cur].id);
    if e >= 0 {
      KInvParts(u);
      EnvAllocFrame(k, k.envs[k.cur].id);
      CopyPagesKeeps(u.vm, k.envs[k.cur].pgdir, u.envs[e].pgdir, ULIM_VPN);
      var (w, r) := CopyPages(u.vm, k.envs[k.cur].pgdir, u.envs[e].pgdir, ULIM_VPN);
      if r == 0 {
        CopiedTables(u.vm, w, k.envs[k.cur].pgdir, u.envs[e].pgdir, ULIM_VPN);
      } else {
        var m :| m < ULIM_VPN && Copied(u.vm, w, k.envs[k.cur].pgdir, u.envs[e].pgdir, m);
        CopiedTables(u.vm, w, k.envs[k.cur].pgdir, u.envs[e].pgdir, m);
      }
      MemoryStep(u, w);
    }
  }

  lemma EnvAllocFrame(k: K, parent: nat)
    requires EnvsOk(k) && DirsOk(k) && Inv(k.vm) && EnvAlloc(k, parent).1 >= 0 && k.cur >= 0
             && k.envs[k.cur].status != ENV_FREE
    ensures var (u, e) := EnvAlloc(k, parent);
            && u.cur == k.cur && u.running == k.running && u.envs[k.cur] == k.envs[k.cur] && k.cur != e
            && u.envs[e].pgdir != k.envs[k.cur].pgdir
  {
    var e := k.freeq[0];
    assert e in k.freeq;
    HeadIsFree(k.vm);
  }

  lemma CopiedTables(vm: VM, w: VM, src: int, dst: int, n: int)
    requires Inv(w) && Copied(vm, w, src, dst, n) && src != vm.boot && dst != vm.boot
    requires forall t :: t in vm.tables ==> t.dir == vm.boot || t.no < 0x800
    ensures SameDirs(vm, w)
  {
    hide Inv, IsDir;
  }

  lemma SetStatusKInv(k: K, e: nat, status: nat)
    requires KInv(k) && e < NENV && k.envs[e].status != ENV_FREE
    requires status == ENV_RUNNABLE || status == ENV_NOT_RUNNABLE
    ensures KInv(SetStatusOf(k, e, status))
    ensures SetStatusOf(k, e, status).vm == k.vm && SetStatusOf(k, e, status).cur == k.cur
            && SetStatusOf(k, e, status).running == k.running
    ensures SetStatusOf(k, e, status).envs == k.envs[e := k.envs[e].(status := status)]
  {
    hide Inv, IsDir;
    SetStatusKeeps(k, e, status);
    SetStatusFrame(k, e, status);
    var w := SetStatusOf(k, e, status);
    hide SetStatusOf;
    assert DirsOk(w);
  }

  lemma SetStatusFrame(k: K, e: nat, status: nat)
    requires EnvsOk(k) && ChainOk(k) && e < NENV && k.envs[e].status != ENV_FREE
    requires status == ENV_RUNNABLE || status == ENV_NOT_RUNNABLE
    ensures var w := SetStatusOf(k, e, status);
            && w.vm == k.vm && w.cur == k.cur && w.running == k.running && w.freeq == k.freeq
            && w.envs == k.envs[e := k.envs[e].(status := status)]
  {
    assert k.envs[e].status == status ==> k.envs[e := k.envs[e].(status := status)] == k.envs;
  }

  lemma YieldKInv(k: K)
    requires KInv(k)
    ensures KInv(Yield(k))
  {
    hide Inv, IsDir, Yield, EnvsOk, ChainOk;
    YieldRuns(k);
    SameDirectories(k, Yield(k));
  }

  lemma SameDirectories(k: K, w: K)
    requires DirsOk(k) && w.envs == k.envs && w.vm == k.vm
    ensures DirsOk(w)
  {}

  lemma RecvKeeps(k: K, dstva: nat, whom: nat, permVa: nat)
    requires KInv(k) && k.running && whom < FOURGIG && permVa < FOURGIG
    ensures KInv(SysIpcRecv(k, dstva, whom, permVa))
  {
    if dstva < UTOP {
      WaitingKInv(k, dstva, whom, permVa);
      hide KInv, Yield, SetStatusOf, Waiting;
      var w := Waiting(k, dstva, whom, permVa);
      SetStatusKInv(w, k.cur, ENV_NOT_RUNNABLE);
      YieldKInv(SetStatusOf(w, k.cur, ENV_NOT_RUNNABLE));
    }
  }

  lemma WaitingKInv(k: K, dstva: nat, whom: nat, permVa: nat)
    requires KInv(k) && k.running && dstva < UTOP && whom < FOURGIG && permVa < FOURGIG
    ensures var w := Waiting(k, dstva, whom, permVa);
            KInv(w) && w.cur == k.cur && w.envs[k.cur].status == k.envs[k.cur].status != ENV_FREE
  {
    hide Inv, IsDir;
    var w := Waiting(k, dstva, whom, permVa);
    assert ChainOk(w);
  }

  lemma DeliverDirs(vm: VM, d: int, va: nat, w: Word)
    requires Inv(vm)
    ensures SameDirs(vm, Deliver(vm, d, va, w))
  {
    var p, j := Lookup(vm, d, va), va % BY2PG / 4;
    if va != 0 && p in vm.data && j < |vm.data[p]| { StoreDirs(vm, p, j, w); }
  }

  lemma EffectKeeps(k: K, w: VM, e: nat, value: Word, perm: bv12)
    requires KInv(k) && SameDirs(k.vm, w) && k.running && e < NENV && k.envs[e].status != ENV_FREE
    ensures KInv(Effect(k, w, e, value, perm))
  {
    var m := Msg(value, k.envs[k.cur].id, perm | PTE_V | PTE_R);
    var d := k.envs[e].pgdir;
    var w1 := Deliver(w, d, k.envs[e].whom, U32(m.from));
    var w2 := Deliver(w1, d, k.envs[e].permVa, Word(0, m.perm));
    EffectState(k, w, w2, e, m) by {
      DeliverDirs(w, d, k.envs[e].whom, U32(m.from));
      DeliverDirs(w1, d, k.envs[e].permVa, Word(0, m.perm));
      SameDirsTrans(k.vm, w, w1);
      SameDirsTrans(k.vm, w1, w2);
    }
    SetStatusKInv(k.(vm := w2, envs := k.envs[e := k.envs[e].(recving := false, msg := m)]), e, ENV_RUNNABLE);
  }

  lemma EffectState(k: K, w: VM, w2: VM, e: nat, m: Msg)
    requires KInv(k) && SameDirs(k.vm, w2) && e < NENV && k.envs[e].status != ENV_FREE
    ensures var u := k.(vm := w2, envs := k.envs[e := k.envs[e].(recving := false, msg := m)]);
            KInv(u) && u.envs[e].status == k.envs[e].status
  {
    hide Inv, IsDir, VectorsMapped;
    MemoryStep(k, w2);
    var u := k.(vm := w2, envs := k.envs[e := k.envs[e].(recving := false, msg := m)]);
    assert ChainOk(u);
    assert EnvsOk(u);
  }

  lemma SendKeeps(k: K, envid: nat, value: Word, srcva: nat, perm: bv12)
    requires KInv(k) && k.running
    ensures KInv(SysIpcCanSend(k, envid, value, srcva, perm).0)
  {
    hide KInv, Inv, Insert, Find, Lookup, Effect;
    KInvParts(k);
    var e := Find(k, envid, false);
    if e != NULL { FindLive(k, envid, false); }
    if srcva < UTOP && e != NULL && k.envs[e].recving {
      if srcva == 0 {
        SameDirsRefl(k.vm);
        EffectKeeps(k, k.vm, e, value, perm);
      } else {
        var p := Lookup(k.vm, k.envs[k.cur].pgdir, srcva);
        if p != NULL {
          LookupData(k.vm, k.envs[k.cur].pgdir, srcva);
          var w := Insert(k.vm, k.envs[e].pgdir, p, k.envs[e].dstva, perm).0;
          InsertDirs(k.vm, k.envs[e].pgdir, p, k.envs[e].dstva, perm);
          MemoryStep(k, w);
          EffectKeeps(k, w, e, value, perm);
        }
      }
    }
  }

  lemma SameDirsRefl(vm: VM)
    requires Inv(vm)
    ensures SameDirs(vm, vm)
  {}

  /** The other environments keep their directories when e's is given back. */
  lemma FreedDirs(k: K, u: K, e: nat)
    requires KInv(k) && e < NENV && k.envs[e].status != ENV_FREE
    requires u.vm == FreeDir(k.vm, k.envs[e].pgdir)
             && u.envs == k.envs[e := k.envs[e].(status := ENV_FREE, pgdir := NULL)]
    ensures DirsOk(u) && Inv(u.vm)
  {
    hide FreeDir, Inv, IsDir, EnvsOk, ChainOk;
    LiveDir(k, e);
    FreeDirConserves(k.vm, k.envs[e].pgdir);
  }

  /** A live environment has a directory of its own. */
  lemma LiveDir(k: K, e: nat)
    requires DirsOk(k) && e < NENV && k.envs[e].status != ENV_FREE
    ensures IsDir(k.vm, k.envs[e].pgdir) && k.envs[e].pgdir != k.vm.boot
  {}

  lemma DestroySteps(k: K, e: nat)
    requires KInv(k) && e in k.runq
    ensures var u := EnvFree(k, e);
            && u.cur == k.cur
            && (k.cur == e ==> KInv(u.(cur := NULL, running := false)))
            && (k.cur != e ==> KInv(u))
  {
    hide EnvFree, Inv, EnvsOk;
    KInvParts(k);
    EnvFreeKeepsLists(k, e);
    EnvFreeFrame(k, e);
    FreedDirs(k, EnvFree(k, e), e);
    DetachedDirs(EnvFree(k, e));
  }

  lemma EnvFreeFrame(k: K, e: nat)
    requires EnvsOk(k) && ChainOk(k) && e in k.runq
    ensures var u := EnvFree(k, e);
            u.cur == k.cur && u.running == k.running && u.vm == FreeDir(k.vm, k.envs[e].pgdir)
                && u.envs == k.envs[e := k.envs[e].(status := ENV_FREE, pgdir := NULL)]
  {
    hide FreeDir, Dequeue, ChainOk;
    var u := k.(vm := FreeDir(k.vm, k.envs[e].pgdir),
        envs := k.envs[e := k.envs[e].(status := ENV_FREE, pgdir := NULL)],
                freeq := [e] + k.freeq);
    SameChain(k, u);
    DequeueFrame(u, e);
  }

  lemma SameChain(k: K, u: K)
    requires ChainOk(k) && u.runq == k.runq && u.link == k.link && u.back == k.back && u.stamp == k.stamp
    requires u.clock == k.clock && u.iter == k.iter
    ensures ChainOk(u)
  {}

  lemma DetachedDirs(u: K)
    requires DirsOk(u) && ChainOk(u)
    ensures DirsOk(u.(cur := NULL, running := false)) && ChainOk(u.(cur := NULL, running := false))
  {}

  lemma DestroyKeeps(k: K, envid: nat)
    requires KInv(k)
    requires Find(k, envid, true) != NULL ==> k.envs[Find(k, envid, true)].status == ENV_RUNNABLE
    ensures KInv(SysEnvDestroy(k, envid).0)
  {
    hide Yield, Inv, EnvFree, ChainOk, DirsOk;
    var e := Find(k, envid, true);
    if e != NULL {
      assert e in k.runq;
      EnvFreeKeepsLists(k, e);
      DestroySteps(k, e);
      if k.cur == e {
        YieldKInv(EnvFree(k, e).(cur := NULL, running := false));
      }
    }
  }

  /* ---------- page faults ---------- */

  /** pageout: the faulting page of the running environment gets a fresh frame, pinned once more
      than it is mapped. It panics, and nothing happens here, for kernel addresses, for the first
      megabyte and without a free frame. */
  ghost function PageFault(k: K, va: nat): K
    requires KInv(k) && k.running
  {
    if va >= ULIM || PDX(va) == 0 || k.vm.free == [] then k
    else k.(vm := Insert(Pin(Alloc(k.vm), k.vm.free[0]), k.envs[k.cur].pgdir, k.vm.free[0], va, PTE_V | PTE_R).0)
  }

  lemma FaultKeeps(k: K, va: nat)
    requires KInv(k) && k.running
    ensures KInv(PageFault(k, va))
  {
    hide KInv, Inv, Insert, Alloc, Pin, IsDir;
    KInvParts(k);
    if va < ULIM && PDX(va) != 0 && k.vm.free != [] {
      var d, a, p := k.envs[k.cur].pgdir, Alloc(k.vm), k.vm.free[0];
      CurrentIsDir(k);
      AllocDirs(k.vm);
      SameDirsUse(k.vm, a, d);
      PinDirs(a, p);
      SameDirsUse(a, Pin(a, p), d);
      InsertDirs(Pin(a, p), d, p, va, PTE_V | PTE_R);
      SameDirsTrans(k.vm, a, Pin(a, p));
      SameDirsTrans(k.vm, Pin(a, p), Insert(Pin(a, p), d, p, va, PTE_V | PTE_R).0);
      MemoryStep(k, Insert(Pin(a, p), d, p, va, PTE_V | PTE_R).0);
    }
  }

  /** The running environment is live, with a directory of its own. */
  lemma CurrentIsDir(k: K)
    requires EnvsOk(k) && DirsOk(k) && k.running
    ensures 0 <= k.cur < NENV && IsDir(k.vm, k.envs[k.cur].pgdir) && k.envs[k.cur].pgdir != k.vm.boot
  {}

  /** A fault between UTOP and the sections gives the environment a page table that env_free does
      not look at: from then on, destroying the environment loses it. */
  lemma FaultAboveUtopLeaks(k: K)
    requires KInv(k) && k.running && |k.vm.free| >= 2 && Key(k.envs[k.cur].pgdir, UTOP_PDX) !in k.vm.tables
    ensures var u, d := PageFault(k, UTOP), k.envs[k.cur].pgdir;
            && KInv(u) && IsDir(u.vm, d) && d != u.vm.boot && Key(d, UTOP_PDX) in u.vm.tables
            && var (w, t) := (FreeDir(u.vm, d), u.vm.tables[Key(d, UTOP_PDX)]);
               t !in w.free && RefCount(w, t) == 1 && k.vm.free[0] !in w.free && RefCount(w, k.vm.free[0]) == 2
  {
    hide KInv, Inv, Insert, RefCount, FreeDir, Pin, Alloc, EnvsOk, ChainOk, DirsOk;
    KInvParts(k);
    CurrentIsDir(k);
    FaultKeeps(k, UTOP);
    var d, a, p := k.envs[k.cur].pgdir, Alloc(k.vm), k.vm.free[0];
    var v := Pin(a, p);
    var u := PageFault(k, UTOP);
    KInvParts(u);
    FaultDirs(k.vm, d);
    FaultInserts(k.vm, d);
    FreeDirConserves(u.vm, d);
    FreeDirLosesIff(u.vm, d);
    assert UserPages(u.vm.maps, d, p) == {};
    FreeUncounted(FreeDir(u.vm, d), p);
  }

  lemma FaultDirs(vm: VM, d: int)
    requires Inv(vm) && IsDir(vm, d) && d != vm.boot && vm.free != []
    ensures var w := Insert(Pin(Alloc(vm), vm.free[0]), d, vm.free[0], UTOP, PTE_V | PTE_R).0;
            w.boot == vm.boot && IsDir(w, d)
  {
    hide Inv, Insert, Alloc, Pin, IsDir;
    var a, p := Alloc(vm), vm.free[0];
    AllocDirs(vm);
    SameDirsUse(vm, a, d);
    PinDirs(a, p);
    SameDirsUse(a, Pin(a, p), d);
    InsertDirs(Pin(a, p), d, p, UTOP, PTE_V | PTE_R);
    SameDirsUse(Pin(a, p), Insert(Pin(a, p), d, p, UTOP, PTE_V | PTE_R).0, d);
  }

  lemma FreeUncounted(vm: VM, f: int)
    requires Inv(vm)
    ensures f in vm.free ==> RefCount(vm, f) == 0
  {
    if f in vm.free {
      FreeRole(vm, f);
      StructureCounts(vm, f);
    }
  }

  /** The fault at UTOP adds a page table and leaves the new frame with two counts. */
  lemma FaultInserts(vm: VM, d: int)
    requires Inv(vm) && IsDir(vm, d) && d != vm.boot && |vm.free| >= 2 && Key(d, UTOP_PDX) !in vm.tables
    ensures var p := vm.free[0];
            var w := Insert(Pin(Alloc(vm), p), d, p, UTOP, PTE_V | PTE_R).0;
            && Key(d, UTOP_PDX) in w.tables && p in w.data && RefCount(w, p) == 2 && UserPages(w.maps, d, p) == {}
  {
    var p := vm.free[0];
    var v := Pin(Alloc(vm), p);
    AllocKeeps(vm);
    AllocDirs(vm);
    PinKeeps(Alloc(vm), p);
    LowPage(v, d, UTOP);
    assert SlotOf(v, d, UTOP) == Key(d, UTOP_PDX) && PageOf(v, d, UTOP) == Key(d, UTOP_PDX * 0x100)
           && !SectionMapped(UTOP);
    NoRefs(vm, p);
    hide Inv, RefCount, Insert;
    InsertOutcome(v, d, p, UTOP, PTE_V | PTE_R);
    InsertKeeps(v, d, p, UTOP, PTE_V | PTE_R);
  }

  lemma NoRefs(vm: VM, p: int)
    requires RefCount(vm, p) == 0
    ensures forall k :: k in vm.maps ==> vm.maps[k].frame != p
  {
    forall k | k in vm.maps ensures vm.maps[k].frame != p {
      assert k !in PteRefs(vm.maps, p);
    }
  }

  /* ---------- loading a program at boot ---------- */

  const USTACKTOP := UTOP - 2 * BY2PG

  /** load_icode_mapper: each page is allocated, pinned, and then mapped; the first failure
      ends the loop. */
  ghost function LoadPages(vm: VM, d: int, vas: seq<nat>): VM
    decreases |vas|
  {
    if vas == [] || vm.free == [] then vm
    else
      var (w, r) := Insert(Pin(Alloc(vm), vm.free[0]), d, vm.free[0], vas[0], PTE_V | PTE_R);
      if r < 0 then w else LoadPages(w, d, vas[1..])
  }

  /** env_create_priority and load_icode: the stack page, the segments' pages, then RUNNABLE.
      The results are unsigned there, so a failure does not stop it. */
  ghost function Create(k: K, pri: nat, vas: seq<nat>): K
    requires KInv(k) && k.freeq != [] && |k.vm.free| >= 2
  {
    var (u, e) := EnvAlloc(k, 0);
    EnvAllocKeeps(k, 0);
    var d, p := u.envs[e].pgdir, u.vm.free[0];
    var w := LoadPages(Insert(Alloc(u.vm), d, p, USTACKTOP - BY2PG, PTE_V | PTE_R).0, d, vas);
    Enqueue(u.(vm := w, envs := u.envs[e := u.envs[e].(pri := pri, status := ENV_RUNNABLE)]), e)
  }

  lemma {:induction false} LoadPagesDirs(vm: VM, d: int, vas: seq<nat>)
    requires Inv(vm) && IsDir(vm, d) && d != vm.boot
    requires forall i :: 0 <= i < |vas| ==> vas[i] < UTOP
    ensures SameDirs(vm, LoadPages(vm, d, vas))
    decreases |vas|
  {
    hide Inv, Insert, Alloc, Pin, IsDir;
    SameDirsRefl(vm);
    if vas != [] && vm.free != [] {
      var a, p := Alloc(vm), vm.free[0];
      AllocDirs(vm);
      SameDirsUse(vm, a, d);
      PinDirs(a, p);
      SameDirsUse(a, Pin(a, p), d);
      var (w, r) := Insert(Pin(a, p), d, p, vas[0], PTE_V | PTE_R);
      InsertDirs(Pin(a, p), d, p, vas[0], PTE_V | PTE_R);
      SameDirsUse(Pin(a, p), w, d);
      SameDirsTrans(vm, a, Pin(a, p));
      SameDirsTrans(vm, Pin(a, p), w);
      if r >= 0 {
        LoadPagesDirs(w, d, vas[1..]);
        SameDirsTrans(vm, w, LoadPages(w, d, vas[1..]));
      }
    }
  }

  lemma PinDirs(vm: VM, p: int)
    requires Inv(vm) && p in vm.data
    ensures SameDirs(vm, Pin(vm, p)) && p in Pin(vm, p).data
  {
    PinKeeps(vm, p);
    hide Inv, RefCount;
  }

  lemma CreateKeeps(k: K, pri: nat, vas: seq<nat>)
    requires KInv(k) && k.freeq != [] && |k.vm.free| >= 2
    requires forall i :: 0 <= i < |vas| ==> vas[i] < UTOP
    ensures KInv(Create(k, pri, vas))
  {
    hide KInv, Inv, EnvAlloc, Insert, Alloc, LoadPages, IsDir;
    KInvParts(k);
    var (u, e) := EnvAlloc(k, 0);
    EnvAllocKeeps(k, 0);
    EnvAllocHas(k, 0);
    KInvParts(u);
    var d, p := u.envs[e].pgdir, u.vm.free[0];
    var s := Insert(Alloc(u.vm), d, p, USTACKTOP - BY2PG, PTE_V | PTE_R).0;
    var w := LoadPages(s, d, vas);
    AllocDirs(u.vm);
    SameDirsUse(u.vm, Alloc(u.vm), d);
    InsertDirs(Alloc(u.vm), d, p, USTACKTOP - BY2PG, PTE_V | PTE_R);
    SameDirsUse(Alloc(u.vm), s, d);
    LoadPagesDirs(s, d, vas);
    SameDirsTrans(u.vm, Alloc(u.vm), s);
    SameDirsTrans(u.vm, s, w);
    MemoryStep(u, w);
    StartKeeps(u.(vm := w), e, pri);
  }

  lemma EnvAllocHas(k: K, parent: nat)
    requires EnvsOk(k) && k.freeq != [] && |k.vm.free| >= 2
    ensures EnvAlloc(k, parent).1 >= 0 && EnvAlloc(k, parent).0.vm.free != []
  {}

  lemma StartKeeps(k: K, e: nat, pri: nat)
    requires KInv(k) && e < NENV && k.envs[e].status == ENV_NOT_RUNNABLE
    ensures KInv(Enqueue(k.(envs := k.envs[e := k.envs[e].(pri := pri, status := ENV_RUNNABLE)]), e))
  {
    hide Inv, IsDir;
    var u := k.(envs := k.envs[e := k.envs[e].(pri := pri, status := ENV_RUNNABLE)]);
    assert ChainOk(u);
    EnqueueKeeps(u, e);
    var w := Enqueue(u, e);
    assert DirsOk(w);
    assert EnvsOk(w);
  }

  /* ---------- runs ---------- */

  datatype Op =
    | Boot(pri: nat, vas: seq<nat>)
    | MemAlloc(envid: nat, va: nat, perm: bv12)
    | MemMap(srcid: nat, srcva: nat, dstid: nat, dstva: nat, perm: bv12)
    | MemUnmap(envid: nat, va: nat)
    | Fork
    | SetStatus(envid: nat, status: nat)
    | Recv(dstva: nat, whom: nat, permVa: nat)
    | Send(envid: nat, value: Word, srcva: nat, perm: bv12)
    | Destroy(envid: nat)
    | Fault(va: nat)
    | Tick

  /** The steps that are taken: no 16-bit counter would overflow, a status is never set to
      ENV_FREE, and only runnable environments are destroyed. The last two are where the code
      breaks its lists; see SetStatusIff and Destroy.DestroyIff. */
  ghost predicate Legal(k: K, op: Op)
    requires KInv(k)
  {
    match op
    case Boot(pri, vas) => k.freeq != [] && |k.vm.free| >= 2 && forall i :: 0 <= i < |vas| ==> vas[i] < UTOP
    case MemAlloc(envid, va, perm) => k.running
    case MemMap(s, sva, d, dva, perm) => k.running && CountsFit(k.vm)
    case MemUnmap(envid, va) => k.running
    case Fork => k.running && CopyFits(k.vm, k.envs[k.cur].pgdir)
    case SetStatus(envid, status) => k.running && status != ENV_FREE
    case Recv(dstva, whom, permVa) => k.running && whom < FOURGIG && permVa < FOURGIG
    case Send(envid, value, srcva, perm) => k.running && CountsFit(k.vm) && SendAligned(k, envid, srcva, perm)
    case Destroy(envid) =>
      k.running && (Find(k, envid, true) != NULL ==> k.envs[Find(k, envid, true)].status == ENV_RUNNABLE)
    case Fault(va) => k.running
    case Tick => true
  }

  ghost predicate CountsFit(vm: VM) { forall q :: q in vm.data ==> RefCount(vm, q) < 0xFFFF }

  ghost function Step(k: K, op: Op): K
    requires KInv(k) && Legal(k, op)
  {
    match op
    case Boot(pri, vas) => Create(k, pri, vas)
    case MemAlloc(envid, va, perm) => SysMemAlloc(k, envid, va, perm).0
    case MemMap(s, sva, d, dva, perm) => SysMemMap(k, s, sva, d, dva, perm).0
    case MemUnmap(envid, va) => SysMemUnmap(k, envid, va).0
    case Fork => SysEnvAlloc(k).0
    case SetStatus(envid, status) => SysSetEnvStatus(k, envid, status).0
    case Recv(dstva, whom, permVa) => SysIpcRecv(k, dstva, whom, permVa)
    case Send(envid, value, srcva, perm) => SysIpcCanSend(k, envid, value, srcva, perm).0
    case Destroy(envid) => SysEnvDestroy(k, envid).0
    case Fault(va) => PageFault(k, va)
    case Tick => Yield(k)
  }

  /** Every step keeps the page and reference accounting, both lists, the scheduler's chain and
      the separation of the address spaces. */
  lemma StepKeeps(k: K, op: Op)
    requires KInv(k) && Legal(k, op)
    ensures KInv(Step(k, op))
  {
    hide KInv, SysMemAlloc, SysMemMap, SysMemUnmap, SysEnvAlloc, SysIpcRecv, SysIpcCanSend, SysEnvDestroy, Yield,
         Create,
         PageFault, CountsFit, CopyFits, SendAligned;
    KInvParts(k);
    match op
    case Boot(pri, vas) => CreateKeeps(k, pri, vas);
    case MemAlloc(envid, va, perm) => MemAllocKeeps(k, envid, va, perm);
    case MemMap(s, sva, d, dva, perm) => MemMapKeeps(k, s, sva, d, dva, perm);
    case MemUnmap(envid, va) => MemUnmapKeeps(k, envid, va);
    case Fork => ForkKeeps(k);
    case SetStatus(envid, status) =>
      if status <= ENV_NOT_RUNNABLE && Find(k, envid, true) != NULL {
        FindLive(k, envid, true);
        SetStatusKInv(k, Find(k, envid, true), status);
      }
    case Recv(dstva, whom, permVa) => RecvKeeps(k, dstva, whom, permVa);
    case Send(envid, value, srcva, perm) => SendKeeps(k, envid, value, srcva, perm);
    case Destroy(envid) => DestroyKeeps(k, envid);
    case Fault(va) => FaultKeeps(k, va);
    case Tick => YieldKInv(k);
  }

  ghost predicate LegalRun(k: K, ops: seq<Op>)
    requires KInv(k)
    decreases |ops|
  {
    ops == [] || (Legal(k, ops[0]) && (StepKeeps(k, ops[0]); LegalRun(Step(k, ops[0]), ops[1..])))
  }

  ghost function Run(k: K, ops: seq<Op>): (r: K)
    requires KInv(k) && LegalRun(k, ops)
    ensures KInv(r)
    decreases |ops|
  {
    if ops == [] then k else (StepKeeps(k, ops[0]); Run(Step(k, ops[0]), ops[1..]))
  }

  /** A slot in cleared memory. */
  function FreeEnvs(): seq<Env> { seq(NENV, i => FreeEnv()) }
  function AllSlots(): seq<nat> { seq(NENV, i => i) }
  function NoLinks(): seq<int> { seq(NENV, i => NULL) }
  function NoBacks(): seq<Slot> { seq(NENV, i => Nil) }
  function NoStamps(): seq<nat> { seq(NENV, i => 0) }
  function FreeEnv(): Env { Env(0, 0, ENV_FREE, NULL, 0, false, 0, 0, 0, Msg(ZERO, 0, 0)) }

  /** Before the first environment is created: page_init's frames, env_init's slots, and the page
      of the exception vectors that trap_init maps. */
  ghost function Initial(vm: VM): K {
    K(TrapInit(vm), FreeEnvs(), AllSlots(), [], NoLinks(), NoBacks(), NoStamps(), 0, 0, NULL, false, NULL, 0)
  }

  /** trap_init: page_insert(mCONTEXT, &pages[0], 0xFFFF0000, 0) into the boot directory. */
  ghost function TrapInit(vm: VM): VM { Insert(vm, vm.boot, VECTORS, VECTOR_VA, 0).0 }

  const VECTOR_VA := 0xFFFF_0000

  /** page_init's state: nothing is mapped, and the only directory is the boot directory. */
  ghost predicate Pristine(vm: VM) {
    Inv(vm) && vm.tables == map[] && vm.maps == map[] && OnlyBoot(vm) && vm.free != [] && Pins(vm, VECTORS) == 1
  }

  lemma TrapInitMaps(vm: VM)
    requires Pristine(vm)
    ensures var w := TrapInit(vm);
            && Inv(w) && VectorsMapped(w) && w.boot == vm.boot
            && w.tables == map[Key(vm.boot, 0xFFF) := vm.free[0]]
            && w.maps == map[Key(vm.boot, 0xF_FFF0) := Entry(VECTORS, PTE_V)]
  {
    hide RefCount;
    var k, t := PageOf(vm, vm.boot, VECTOR_VA), SlotOf(vm, vm.boot, VECTOR_VA);
    assert k == Key(vm.boot, 0xF_FFF0) && t == Key(vm.boot, 0xFFF) && !SectionMapped(VECTOR_VA);
    hide Inv, Insert;
    VectorsFit(vm);
    InsertOutcome(vm, vm.boot, VECTORS, VECTOR_VA, 0);
    InsertKeeps(vm, vm.boot, VECTORS, VECTOR_VA, 0);
    assert 0 as bv12 | PTE_V == PTE_V;
  }

  lemma VectorsFit(vm: VM)
    requires Pristine(vm)
    ensures InsertFits(vm, vm.boot, VECTORS, VECTOR_VA)
  {}

  /** In every state of the kernel the exception vectors are at 0xFFFF0000 of every directory. */
  lemma VectorsEverywhere(k: K, d: int)
    requires KInv(k) && IsDir(k.vm, d)
    ensures Lookup(k.vm, d, VECTOR_VA) == VECTORS
  {
    assert PageOf(k.vm, d, VECTOR_VA) == Key(k.vm.boot, 0xF_FFF0);
  }

  lemma InitialKInv(vm: VM)
    requires Pristine(vm)
    ensures KInv(Initial(vm))
  {
    hide Inv, Pristine, TrapInit;
    TrapInitMaps(vm);
    var k := Initial(vm);
    forall i | 0 <= i < NENV ensures i in k.freeq { assert k.freeq[i] == i; }
    assert EnvsOk(k);
  }

  /** Safety over whole runs from boot. pp_ref counts exactly the holders of a frame, so in
      every reachable state a frame on the free list is neither mapped nor a page table nor a
      directory, and free, handed-out and referenced frames partition the allocatable ones; a
      slot is on exactly the list its status names; and whenever an environment is selected it
      is a member of the run list. */
  lemma ReachableIsSafe(vm: VM, ops: seq<Op>, f: int, i: nat)
    requires Pristine(vm) && i < NENV
    requires (InitialKInv(vm); LegalRun(Initial(vm), ops))
    ensures var k := (InitialKInv(vm); Run(Initial(vm), ops));
            && (Managed(k.vm, f) ==>
                  && (f in k.vm.free ==> RefCount(k.vm, f) == 0 && !IsDir(k.vm, f))
                  && (f in k.vm.free ==> forall key ::
                        && (key in k.vm.maps ==> k.vm.maps[key].frame != f)
                        && (key in k.vm.tables ==> k.vm.tables[key] != f))
                  && (f in k.vm.free || Handed(k.vm, f) || RefCount(k.vm, f) > 0)
                  && !(f in k.vm.free && Handed(k.vm, f)))
            && (k.envs[i].status == ENV_FREE <==> i in k.freeq) && (k.envs[i].status == ENV_RUNNABLE <==> i in k.runq)
            && NoDup(k.freeq) && NoDup(k.runq)
            && (k.runq != [] ==> Yield(k).cur in k.runq)
  {
    InitialKInv(vm);
    var k := Run(Initial(vm), ops);
    YieldRuns(k);
    if Managed(k.vm, f) {
      Partition(k.vm, f);
      if f in k.vm.free {
        forall key ensures (key in k.vm.maps ==> k.vm.maps[key].frame != f)
            && (key in k.vm.tables ==> k.vm.tables[key] != f) {
          assert key !in PteRefs(k.vm.maps, f) && key !in PdeRefs(k.vm.tables, f);
        }
      }
    }
  }

  /* ---------- what single system calls guarantee ---------- */

  /** Storing ENV_FREE through sys_set_env_status is the one status that breaks the lists: the
      lookup in sys_env_destroy rejects the environment, which stays where it was. (An id of
      zero would make that lookup mean the caller.) */
  lemma SetStatusIff(k: K, envid: nat, status: nat)
    requires KInv(k) && status <= ENV_NOT_RUNNABLE
    requires Find(k, envid, true) != NULL && k.envs[Find(k, envid, true)].id != 0
    ensures KInv(SysSetEnvStatus(k, envid, status).0) <==> status != ENV_FREE
  {
    var e := Find(k, envid, true);
    FindLive(k, envid, true);
    if status == ENV_FREE {
      var u := MarkFree(k, e);
      assert e !in u.freeq && u.envs[e].status == ENV_FREE;
    } else {
      SetStatusKInv(k, e, status);
    }
  }

  /** An id finds its own environment unless it is zero, which mkenvid makes for slot 0 every
      256th time and envid2env reads as the caller. */
  lemma IdFindsSlot(k: K, i: nat)
    requires KInv(k) && i < NENV && k.envs[i].status != ENV_FREE
    ensures Find(k, k.envs[i].id, false) == i <==> k.envs[i].id != 0 || k.cur == i
    ensures k.envs[i].id == 0 ==> i == 0
  {
    hide Inv, ChainOk, DirsOk;
  }

  /** Live environments never share an id. */
  lemma IdsUnique(k: K, i: nat, j: nat)
    requires KInv(k) && i < NENV && j < NENV && k.envs[i].status != ENV_FREE && k.envs[j].status != ENV_FREE
    ensures k.envs[i].id == k.envs[j].id ==> i == j
  {
    hide Inv, ChainOk, DirsOk;
    assert k.envs[i].id / 0x100 == i;
  }

  /** A successful fork: one slot is filled, with the caller as parent, an id above the slot number
      and a directory of its own, and keeps its other fields; the child maps exactly what the parent
      maps, to the same frames with the same permissions; every count rises by the number of parent
      pages of that frame; and the parent and every other directory are unchanged. */
  lemma ForkCopies(k: K)
    requires KInv(k) && k.running && SysEnvAlloc(k).1 >= 0
    ensures var (w, r) := SysEnvAlloc(k);
            var c := k.freeq[0];
            var (p, q) := (k.envs[k.cur].pgdir, w.envs[c].pgdir);
            && k.freeq != [] && p != q && c != k.cur
            && w == k.(vm := w.vm, envs := w.envs, freeq := k.freeq[1..], nextId := k.nextId + 1)
            && w.envs == k.envs[c := k.envs[c].(id := r, parent := k.envs[k.cur].id, status := ENV_NOT_RUNNABLE,
                  pgdir := k.vm.free[0])]
            && r / 0x100 == c && r % 0x100 == (k.nextId + 1) % 0x100
            && (forall v {:trigger Key(q, v)} :: Key(q, v) in w.vm.maps <==> Key(p, v) in k.vm.maps)
            && (forall v {:trigger Key(q, v)} :: Key(q, v) in w.vm.maps ==>
                  w.vm.maps[Key(q, v)] == k.vm.maps[Key(p, v)])
            && (forall key: Key {:trigger key in w.vm.maps} :: key.dir != q ==>
                  (key in w.vm.maps <==> key in k.vm.maps) && (key in w.vm.maps ==> w.vm.maps[key] == k.vm.maps[key]))
            && (forall f :: f in k.vm.data ==> RefCount(w.vm, f) == RefCount(k.vm, f) + |PagesOf(k.vm.maps, p, f)|)
  {
    hide KInv, Inv, CopyPages, RefCount, EnvAlloc;
    KInvParts(k);
    var (u, e) := EnvAlloc(k, k.envs[k.cur].id);
    EnvAllocKeeps(k, k.envs[k.cur].id);
    EnvAllocFrame(k, k.envs[k.cur].id);
    EnvAllocCounts(k, k.envs[k.cur].id);
    EnvAllocSlot(k, k.envs[k.cur].id);
    KInvParts(u);
    var p, q := k.envs[k.cur].pgdir, u.envs[e].pgdir;
    CurrentIsDir(k);
    CopyPagesKeeps(u.vm, p, q, ULIM_VPN);
    var w := CopyPages(u.vm, p, q, ULIM_VPN).0;
    forall key | key in u.vm.maps && key.dir == p ensures key.no < ULIM_VPN { PageBelowUlim(u, key); }
    forall f | f in k.vm.data ensures RefCount(w, f) == RefCount(k.vm, f) + |PagesOf(k.vm.maps, p, f)| {
      CopyExact(u.vm, w, p, q, ULIM_VPN, f);
      CopyCounts(u.vm, w, p, q, ULIM_VPN, f);
    }
  }

  /** The fields of the slot that env_alloc fills. */
  lemma EnvAllocSlot(k: K, parent: nat)
    requires EnvsOk(k) && EnvAlloc(k, parent).1 >= 0
    ensures var (u, e) := EnvAlloc(k, parent);
            && k.freeq != [] && k.vm.free != [] && e == k.freeq[0] && e < NENV && |u.envs| == NENV
            && u == k.(vm := u.vm, envs := u.envs, freeq := k.freeq[1..], nextId := k.nextId + 1)
            && u.envs == k.envs[e := k.envs[e].(id := u.envs[e].id, parent := parent, status := ENV_NOT_RUNNABLE,
                  pgdir := k.vm.free[0])]
            && u.envs[e].id / 0x100 == e && u.envs[e].id % 0x100 == (k.nextId + 1) % 0x100
  {
    assert k.freeq[0] in k.freeq;
    var c, n := k.freeq[0], (k.nextId + 1) % 0x100;
    assert (c * 0x100 + n) / 0x100 == c && (c * 0x100 + n) % 0x100 == n;
  }

  lemma PageBelowUlim(k: K, key: Key)
    requires Inv(k.vm) && DirsOk(k) && key in k.vm.maps
    ensures 0 <= key.no && (key.dir != k.vm.boot ==> key.no < ULIM_VPN)
  {
    MappedHasTable(k.vm, key);
    assert TableKey(key) in k.vm.tables;
  }

  lemma EnvAllocCounts(k: K, parent: nat)
    requires EnvsOk(k) && Inv(k.vm) && EnvAlloc(k, parent).1 >= 0
    ensures var (u, e) := EnvAlloc(k, parent);
            && k.freeq != [] && e == k.freeq[0] && u.vm.data == k.vm.data
            && (forall f :: f in k.vm.data ==> RefCount(u.vm, f) == RefCount(k.vm, f))
  {
    HeadIsFree(k.vm);
    NewDirKeeps(k.vm);
  }
}
