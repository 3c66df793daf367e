/** The IPC rendezvous of sys_ipc_recv and sys_ipc_can_send over whole runs of the kernel:
    what an environment receives is what was effectively sent to it, exactly once, in order. */
module Ipc {
  import opened Mmu
  import opened Queue
  import opened Vm
  import opened EnvState

  /* ---------- one send ---------- */

  /** A send that does not take effect changes nothing at all, and the result 0 does not mean
      that it did: a source address without a page also returns 0. */
  lemma FailedSendIsNoop(k: K, envid: nat, value: Word, srcva: nat, perm: bv12)
    requires KInv(k) && k.running && !SendTakesEffect(k, envid, srcva, perm)
    ensures SysIpcCanSend(k, envid, value, srcva, perm).0 == k
    ensures SysIpcCanSend(k, envid, value, srcva, perm).1 == 0 <==>
              var e := Find(k, envid, false);
              && srcva < UTOP && e != NULL && k.envs[e].recving && srcva != 0
              && Lookup(k.vm, k.envs[k.cur].pgdir, srcva) == NULL
  {
    hide KInv, Inv, Insert, Find, Lookup, Effect;
    KInvParts(k);
    var e := Find(k, envid, false);
    if e != NULL { FindLive(k, envid, false); }
    if srcva < UTOP && e != NULL && k.envs[e].recving && srcva != 0 {
      var p := Lookup(k.vm, k.envs[k.cur].pgdir, srcva);
      if p != NULL {
        LookupData(k.vm, k.envs[k.cur].pgdir, srcva);
        DstvaSmall(k, e);
        InsertOutcome(k.vm, k.envs[e].pgdir, p, k.envs[e].dstva, perm);
      }
    }
  }

  lemma DstvaSmall(k: K, e: nat)
    requires EnvsOk(k) && e < NENV
    ensures k.envs[e].dstva < UTOP
  {}

  /** The message of an effective send. */
  function SentMsg(k: K, value: Word, perm: bv12): Msg
    requires 0 <= k.cur < |k.envs|
  {
    Msg(value, k.envs[k.cur].id, perm | PTE_V | PTE_R)
  }

  /** An effective send hands over value, sender and permission together, ends the wait, and
      makes the receiver runnable; no other environment changes. */
  lemma SendDelivers(k: K, envid: nat, value: Word, srcva: nat, perm: bv12)
    requires KInv(k) && k.running && SendTakesEffect(k, envid, srcva, perm)
    ensures var (w, r) := SysIpcCanSend(k, envid, value, srcva, perm);
            var e := Find(k, envid, false);
            && r == 0 && 0 <= e < NENV
            && w.envs == k.envs[e := k.envs[e].(recving := false, msg := SentMsg(k, value, perm),
                  status := ENV_RUNNABLE)]
            && w.cur == k.cur && w.running == k.running && KInv(w)
  {
    hide Inv, Insert, Lookup, Deliver, SetStatusOf;
    SendKeeps(k, envid, value, srcva, perm);
    FindLive(k, envid, false);
    var e := Find(k, envid, false);
    EffectFrame(k, SentPage(k, e, srcva, perm), e, value, perm);
  }

  lemma EffectFrame(k: K, w: VM, e: nat, value: Word, perm: bv12)
    requires EnvsOk(k) && ChainOk(k) && k.running && e < NENV && k.envs[e].status != ENV_FREE
    ensures var r := Effect(k, w, e, value, perm);
            && r.envs == k.envs[e := k.envs[e].(recving := false, msg := SentMsg(k, value, perm),
                  status := ENV_RUNNABLE)]
            && r.cur == k.cur && r.running == k.running
            && r.vm == Deliver(Deliver(w, k.envs[e].pgdir, k.envs[e].whom, U32(k.envs[k.cur].id)),
                               k.envs[e].pgdir, k.envs[e].permVa, Word(0, perm | PTE_V | PTE_R))
  {
    hide Deliver;
    var m := SentMsg(k, value, perm);
    var w2 := Deliver(Deliver(w, k.envs[e].pgdir, k.envs[e].whom, U32(m.from)), k.envs[e].pgdir, k.envs[e].permVa,
        Word(0, m.perm));
    var u := k.(vm := w2, envs := k.envs[e := k.envs[e].(recving := false, msg := m)]);
    SetStatusFrame(u, e, ENV_RUNNABLE);
    hide SetStatusOf;
  }

  /** The word that a user address of directory d names, if it is mapped. */
  ghost function WordAt(vm: VM, d: int, va: nat): (int, int) { (Lookup(vm, d, va), va % BY2PG / 4) }

  /** The two words written through the receiver's own page table carry the sender and the
      permission; nothing else in memory and no mapping changes. Only when both addresses name
      the same word does the second write cover the first. */
  ghost predicate Written(w: VM, r: VM, d: int, whom: nat, permVa: nat, from: Word, perm: Word) {
    && r == w.(data := r.data) && r.data.Keys == w.data.Keys
    && (permVa != 0 && Lookup(w, d, permVa) != NULL ==> Holds(r, WordAt(w, d, permVa), perm))
    && (whom != 0 && Lookup(w, d, whom) != NULL && (permVa == 0 || WordAt(w, d, permVa) != WordAt(w, d, whom)) ==>
          Holds(r, WordAt(w, d, whom), from))
    && (forall p, j :: p in w.data && 0 <= j < |w.data[p]| && (whom == 0 || (p, j) != WordAt(w, d, whom))
                       && (permVa == 0 || (p, j) != WordAt(w, d, permVa)) ==>
          Holds(r, (p, j), w.data[p][j]))
  }

  ghost predicate Holds(vm: VM, at: (int, int), x: Word) {
    at.0 in vm.data && 0 <= at.1 < |vm.data[at.0]| && vm.data[at.0][at.1] == x
  }

  lemma DeliverBoth(w: VM, d: int, whom: nat, permVa: nat, from: Word, perm: Word)
    requires Inv(w)
    ensures Written(w, Deliver(Deliver(w, d, whom, from), d, permVa, perm), d, whom, permVa, from, perm)
  {
    hide Inv, Deliver;
    var u := Deliver(w, d, whom, from);
    DeliverWord(w, d, whom, from);
    DeliverWord(u, d, permVa, perm);
    assert WordAt(u, d, whom) == WordAt(w, d, whom) && WordAt(u, d, permVa) == WordAt(w, d, permVa);
    var r := Deliver(u, d, permVa, perm);
    forall p, j | p in w.data && 0 <= j < |w.data[p]| && (permVa == 0 || (p, j) != WordAt(w, d, permVa))
      ensures p in u.data && j < |u.data[p]| && Holds(r, (p, j), u.data[p][j])
    {
      assert u.data[p][j] == r.data[p][j];
    }
  }

  lemma DeliverWord(w: VM, d: int, va: nat, x: Word)
    requires Inv(w)
    ensures var r := Deliver(w, d, va, x);
            && Inv(r) && r == w.(data := r.data) && r.data.Keys == w.data.Keys
            && (forall p :: p in w.data ==> |r.data[p]| == |w.data[p]|)
            && (va != 0 && Lookup(w, d, va) != NULL ==>
                  var (p, j) := WordAt(w, d, va);
                  p in r.data && 0 <= j < |r.data[p]| && r.data[p][j] == x)
            && (forall p, j :: p in w.data && 0 <= j < |w.data[p]| && (va == 0 || (p, j) != WordAt(w, d, va)) ==>
                  r.data[p][j] == w.data[p][j])
  {
    hide Inv;
    var p, j := Lookup(w, d, va), va % BY2PG / 4;
    if p != NULL {
      LookupData(w, d, va);
      PageLength(w, p);
      if va != 0 { StoreKeeps(w, p, j, x); }
    } else {
      NullIsNoPage(w);
    }
  }

  lemma PageLength(w: VM, p: int)
    requires Inv(w) && p in w.data
    ensures |w.data[p]| == 1024
  {}

  /** The mappings once the page is mapped: the page named by the sender at the receiver's
      chosen address, and nothing else. */
  lemma SentPageMaps(k: K, envid: nat, srcva: nat, perm: bv12)
    requires KInv(k) && k.running && SendTakesEffect(k, envid, srcva, perm)
    ensures var e := Find(k, envid, false);
            && 0 <= e < NENV && k.envs[e].status != ENV_FREE && Inv(SentPage(k, e, srcva, perm))
            && SentPage(k, e, srcva, perm).maps
               == if srcva == 0 then k.vm.maps
                  else k.vm.maps[Key(k.envs[e].pgdir, VPN(k.envs[e].dstva)) :=
                      Entry(Lookup(k.vm, k.envs[k.cur].pgdir, srcva), perm | PTE_V)]
  {
    hide KInv, Inv, Insert, Find, Lookup, RefCount;
    KInvParts(k);
    FindLive(k, envid, false);
    if srcva != 0 {
      var e, p := Find(k, envid, false), Lookup(k.vm, k.envs[k.cur].pgdir, srcva);
      LookupData(k.vm, k.envs[k.cur].pgdir, srcva);
      DstvaSmall(k, e);
      LowPage(k.vm, k.envs[e].pgdir, k.envs[e].dstva);
      InsertKeeps(k.vm, k.envs[e].pgdir, p, k.envs[e].dstva, perm);
    }
  }

  /** The whole send: slot, mapping and memory of the receiver change together, and nothing else. */
  lemma SendOutcome(k: K, envid: nat, value: Word, srcva: nat, perm: bv12)
    requires KInv(k) && k.running && SendTakesEffect(k, envid, srcva, perm)
    ensures var (w, r) := SysIpcCanSend(k, envid, value, srcva, perm);
            var e := Find(k, envid, false);
            && r == 0 && 0 <= e < NENV && KInv(w) && w.cur == k.cur && w.running == k.running
            && var env := k.envs[e];
               && env.status != ENV_FREE
               && w.envs == k.envs[e := env.(recving := false, msg := SentMsg(k, value, perm), status := ENV_RUNNABLE)]
               && w.vm.maps == (if srcva == 0 then k.vm.maps
                                else k.vm.maps[Key(env.pgdir, VPN(env.dstva)) :=
                                    Entry(Lookup(k.vm, k.envs[k.cur].pgdir, srcva), perm | PTE_V)])
               && Written(SentPage(k, e, srcva, perm), w.vm, env.pgdir, env.whom, env.permVa,
                          U32(k.envs[k.cur].id), Word(0, perm | PTE_V | PTE_R))
  {
    hide Inv, Insert, Lookup, Deliver, SetStatusOf, Effect, Written, ChainOk, DirsOk;
    SendDelivers(k, envid, value, srcva, perm);
    SentPageMaps(k, envid, srcva, perm);
    var e := Find(k, envid, false);
    var (w, env) := (SentPage(k, e, srcva, perm), k.envs[e]);
    EffectFrame(k, w, e, value, perm);
    DeliverBoth(w, env.pgdir, env.whom, env.permVa, U32(k.envs[k.cur].id), Word(0, perm | PTE_V | PTE_R));
    WrittenMaps(w, SysIpcCanSend(k, envid, value, srcva, perm).0.vm, env.pgdir, env.whom, env.permVa,
                U32(k.envs[k.cur].id), Word(0, perm | PTE_V | PTE_R));
  }

  lemma WrittenMaps(w: VM, r: VM, d: int, whom: nat, permVa: nat, from: Word, perm: Word)
    requires Written(w, r, d, whom, permVa, from, perm)
    ensures r.maps == w.maps
  {}

  /* ---------- whole runs ---------- */

  /** The message an operation effectively sends to e, if any. */
  ghost function SentBy(k: K, op: Op, e: nat): seq<Msg>
    requires KInv(k) && Legal(k, op)
  {
    match op
    case Send(envid, value, srcva, perm) =>
      if SendTakesEffect(k, envid, srcva, perm) && Find(k, envid, false) == e then [SentMsg(k, value, perm)] else []
    case _ => []
  }

  /** e starts to wait. */
  ghost predicate Receives(k: K, op: Op, e: nat) { op.Recv? && op.dstva < UTOP && k.cur == e && k.running }

  /** Nobody destroys e, or makes it runnable while it waits. */
  ghost predicate Undisturbed(k: K, op: Op, e: nat)
    requires KInv(k)
  {
    match op
    case SetStatus(envid, status) =>
      Find(k, envid, true) == e && k.envs[e].recving ==> status != ENV_RUNNABLE
    case Destroy(envid) => Find(k, envid, true) != e
    case _ => true
  }

  ghost predicate UndisturbedRun(k: K, ops: seq<Op>, e: nat)
    requires KInv(k) && LegalRun(k, ops) && e < NENV
    decreases |ops|
  {
    ops == [] ||
    (Undisturbed(k, ops[0], e) && (StepKeeps(k, ops[0]); UndisturbedRun(Step(k, ops[0]), ops[1..], e)))
  }

  /** All messages effectively sent to e, in order. */
  ghost function Sent(k: K, ops: seq<Op>, e: nat): seq<Msg>
    requires KInv(k) && LegalRun(k, ops)
    decreases |ops|
  {
    if ops == [] then [] else (StepKeeps(k, ops[0]); SentBy(k, ops[0], e) + Sent(Step(k, ops[0]), ops[1..], e))
  }

  /** What e finds in its message fields: read at its next receive, or at the end of the run
      unless it is still waiting. unread says that it has received since the last reading. */
  ghost function Seen(k: K, ops: seq<Op>, e: nat, unread: bool): seq<Msg>
    requires KInv(k) && LegalRun(k, ops) && e < NENV
    decreases |ops|
  {
    if ops == [] then (if unread && !k.envs[e].recving then [k.envs[e].msg] else [])
    else
      StepKeeps(k, ops[0]);
      if Receives(k, ops[0], e)
      then (if unread then [k.envs[e].msg] else []) + Seen(Step(k, ops[0]), ops[1..], e, true)
      else Seen(Step(k, ops[0]), ops[1..], e, unread)
  }

  ghost function Recvs(k: K, ops: seq<Op>, e: nat): nat
    requires KInv(k) && LegalRun(k, ops)
    decreases |ops|
  {
    if ops == [] then 0
    else (StepKeeps(k, ops[0]); (if Receives(k, ops[0], e) then 1 else 0) + Recvs(Step(k, ops[0]), ops[1..], e))
  }

  /** A waiting environment is blocked and not the one that runs. */
  ghost predicate WaitsProperly(k: K, e: nat)
    requires KInv(k) && e < NENV
  {
    && k.envs[e].status != ENV_FREE
    && (k.envs[e].recving ==> k.envs[e].status == ENV_NOT_RUNNABLE && !(k.running && k.cur == e))
  }

  /** What one step does to e's side of the rendezvous. */
  ghost predicate StepEffect(k: K, op: Op, w: K, e: nat)
    requires KInv(k) && Legal(k, op) && KInv(w) && e < NENV
  {
    && WaitsProperly(w, e)
    && (SentBy(k, op, e) != [] ==>
          && k.envs[e].recving && !w.envs[e].recving && SentBy(k, op, e) == [w.envs[e].msg] && !Receives(k, op, e))
    && (Receives(k, op, e) ==> !k.envs[e].recving && w.envs[e].recving && SentBy(k, op, e) == [])
    && (SentBy(k, op, e) == [] && !Receives(k, op, e) ==>
          w.envs[e].recving == k.envs[e].recving && w.envs[e].msg == k.envs[e].msg)
  }

  /** yield never picks a blocked environment. */
  lemma YieldWaits(k: K, e: nat)
    requires KInv(k) && e < NENV && k.envs[e].status != ENV_FREE
    requires k.envs[e].recving ==> k.envs[e].status == ENV_NOT_RUNNABLE
    ensures KInv(Yield(k)) && WaitsProperly(Yield(k), e) && Yield(k).envs == k.envs
  {
    YieldKInv(k);
    YieldRuns(k);
    hide Yield, Inv, ChainOk, DirsOk;
  }

  lemma RecvFrame(k: K, dstva: nat, whom: nat, permVa: nat, e: nat)
    requires KInv(k) && k.running && dstva < UTOP && whom < FOURGIG && permVa < FOURGIG && e < NENV
             && k.envs[e].status != ENV_FREE
    requires e != k.cur && k.envs[e].recving ==> k.envs[e].status == ENV_NOT_RUNNABLE
    ensures var w := SysIpcRecv(k, dstva, whom, permVa);
            && KInv(w) && WaitsProperly(w, e)
            && w.envs[e] == (if e == k.cur then k.envs[e].(recving := true, dstva := dstva, whom := whom,
                  permVa := permVa, status := ENV_NOT_RUNNABLE)
                             else k.envs[e])
  {
    hide SetStatusOf, Inv, ChainOk, DirsOk, Yield;
    var u := Waiting(k, dstva, whom, permVa);
    WaitingKInv(k, dstva, whom, permVa);
    assert u.envs == k.envs[k.cur := k.envs[k.cur].(recving := true, dstva := dstva, whom := whom, permVa := permVa)];
    SetStatusKInv(u, k.cur, ENV_NOT_RUNNABLE);
    YieldWaits(SetStatusOf(u, k.cur, ENV_NOT_RUNNABLE), e);
  }

  lemma RecvEffect(k: K, op: Op, e: nat)
    requires KInv(k) && Legal(k, op) && op.Recv? && e < NENV && WaitsProperly(k, e)
    ensures KInv(Step(k, op)) && StepEffect(k, op, Step(k, op), e)
  {
    hide KInv, SysIpcRecv, WaitsProperly, StepEffect;
    StepKeeps(k, op);
    TableSize(k);
    Waiter(k, e);
    if op.dstva < UTOP {
      RecvFrame(k, op.dstva, op.whom, op.permVa, e);
    } else {
      RefusedRecv(k, op.dstva, op.whom, op.permVa);
    }
    Received(k, op, Step(k, op), e);
  }

  lemma RefusedRecv(k: K, dstva: nat, whom: nat, permVa: nat)
    requires KInv(k) && k.running && whom < FOURGIG && permVa < FOURGIG && dstva >= UTOP
    ensures SysIpcRecv(k, dstva, whom, permVa) == k
  {
    hide KInv;
  }

  lemma Received(k: K, op: Op, w: K, e: nat)
    requires KInv(k) && Legal(k, op) && op.Recv? && KInv(w) && e < NENV && WaitsProperly(k, e) && WaitsProperly(w, e)
    requires op.dstva >= UTOP ==> w == k
    requires op.dstva < UTOP && e != k.cur ==> w.envs[e] == k.envs[e]
    requires op.dstva < UTOP && e == k.cur ==> w.envs[e].recving
    ensures StepEffect(k, op, w, e)
  {
    hide KInv;
  }

  lemma SendEffect(k: K, op: Op, e: nat)
    requires KInv(k) && Legal(k, op) && op.Send? && e < NENV && WaitsProperly(k, e)
    ensures KInv(Step(k, op)) && StepEffect(k, op, Step(k, op), e)
  {
    hide KInv, SysIpcCanSend, SendTakesEffect, SendAligned, CountsFit, Find, WaitsProperly, StepEffect;
    StepKeeps(k, op);
    TableSize(k);
    if SendTakesEffect(k, op.envid, op.srcva, op.perm) {
      SendDelivers(k, op.envid, op.value, op.srcva, op.perm);
      TakesEffectWaiting(k, op.envid, op.srcva, op.perm);
      Delivered(k, op, Step(k, op), Find(k, op.envid, false), e);
    } else {
      FailedSendIsNoop(k, op.envid, op.value, op.srcva, op.perm);
      Undelivered(k, op, e);
    }
  }

  lemma Delivered(k: K, op: Op, w: K, t: nat, e: nat)
    requires KInv(k) && Legal(k, op) && op.Send? && KInv(w) && e < NENV && t < NENV && WaitsProperly(k, e)
    requires SendTakesEffect(k, op.envid, op.srcva, op.perm) && Find(k, op.envid, false) == t && k.envs[t].recving
    requires w.envs == k.envs[t := k.envs[t].(recving := false, msg := SentMsg(k, op.value, op.perm),
             status := ENV_RUNNABLE)]
    requires w.cur == k.cur && w.running == k.running
    ensures StepEffect(k, op, w, e)
  {
    hide KInv, SendTakesEffect, Find, Legal;
    TableSize(k);
  }

  lemma TableSize(k: K)
    requires KInv(k)
    ensures |k.envs| == NENV && NULL <= k.cur < NENV
  {}

  lemma Undelivered(k: K, op: Op, e: nat)
    requires KInv(k) && Legal(k, op) && op.Send? && e < NENV && WaitsProperly(k, e)
    requires !SendTakesEffect(k, op.envid, op.srcva, op.perm)
    ensures StepEffect(k, op, k, e)
  {
    hide KInv, SendTakesEffect, Legal;
  }

  lemma TakesEffectWaiting(k: K, envid: nat, srcva: nat, perm: bv12)
    requires KInv(k) && k.running && SendTakesEffect(k, envid, srcva, perm)
    ensures var t := Find(k, envid, false); 0 <= t < NENV && k.envs[t].recving
  {
    hide Inv, Insert, Lookup;
    FindLive(k, envid, false);
  }

  lemma StatusEffect(k: K, op: Op, e: nat)
    requires KInv(k) && Legal(k, op) && (op.SetStatus? || op.Destroy?) && e < NENV && WaitsProperly(k, e)
             && Undisturbed(k, op, e)
    ensures KInv(Step(k, op)) && StepEffect(k, op, Step(k, op), e)
  {
    StepKeeps(k, op);
    hide Inv, SysSetEnvStatus, SysEnvDestroy, StepEffect, ChainOk, DirsOk;
    if op.SetStatus? {
      StatusFrame(k, op, e);
    } else {
      DestroyFrame(k, op, e);
    }
    hide KInv, Find;
    Unsent(k, op, Step(k, op), e);
  }

  lemma Unsent(k: K, op: Op, w: K, e: nat)
    requires KInv(k) && Legal(k, op) && KInv(w) && e < NENV && !op.Send? && !op.Recv? && WaitsProperly(w, e)
    requires w.envs[e].recving == k.envs[e].recving && w.envs[e].msg == k.envs[e].msg
    ensures StepEffect(k, op, w, e)
  {
    hide KInv, Legal, WaitsProperly;
  }

  lemma StatusFrame(k: K, op: Op, e: nat)
    requires KInv(k) && Legal(k, op) && op.SetStatus? && e < NENV && WaitsProperly(k, e) && Undisturbed(k, op, e)
    ensures var w := Step(k, op);
            KInv(w) && WaitsProperly(w, e) && w.envs[e].recving == k.envs[e].recving && w.envs[e].msg == k.envs[e].msg
  {
    hide KInv, SetStatusOf;
    StepKeeps(k, op);
    TableSize(k);
    var t := Find(k, op.envid, true);
    if t != NULL && op.status <= ENV_NOT_RUNNABLE {
      FindLive(k, op.envid, true);
      SetStatusKInv(k, t, op.status);
    }
  }

  lemma DestroyFrame(k: K, op: Op, e: nat)
    requires KInv(k) && Legal(k, op) && op.Destroy? && e < NENV && WaitsProperly(k, e) && Undisturbed(k, op, e)
    ensures var w := Step(k, op);
            KInv(w) && WaitsProperly(w, e) && w.envs[e].recving == k.envs[e].recving && w.envs[e].msg == k.envs[e].msg
  {
    hide Inv, Yield, EnvFree, ChainOk, DirsOk;
    StepKeeps(k, op);
    var t := Find(k, op.envid, true);
    if t != NULL {
      FindLive(k, op.envid, true);
      DestroyEffect(k, t, e);
    }
  }

  lemma DestroyEffect(k: K, t: nat, e: nat)
    requires KInv(k) && t in k.runq && t != e && e < NENV && WaitsProperly(k, e)
    ensures var u := EnvFree(k, t);
            && u.envs[e] == k.envs[e]
            && (k.cur != t ==> u.cur == k.cur && u.running == k.running)
            && (k.cur == t ==> KInv(u.(cur := NULL, running := false))
                               && KInv(Yield(u.(cur := NULL, running := false)))
                               && Yield(u.(cur := NULL, running := false)).envs[e] == k.envs[e]
                               && WaitsProperly(Yield(u.(cur := NULL, running := false)), e))
  {
    hide Yield, FreeDir, Inv, EnvFree, ChainOk, DirsOk;
    DestroySteps(k, t);
    EnvFreeFrame(k, t);
    if k.cur == t { YieldWaits(EnvFree(k, t).(cur := NULL, running := false), e); }
  }

  lemma OtherEffect(k: K, op: Op, e: nat)
    requires KInv(k) && Legal(k, op) && e < NENV && WaitsProperly(k, e)
    requires op.Boot? || op.MemAlloc? || op.MemMap? || op.MemUnmap? || op.Fork? || op.Fault? || op.Tick?
    ensures KInv(Step(k, op)) && StepEffect(k, op, Step(k, op), e)
  {
    StepKeeps(k, op);
    hide KInv, Inv, Create, SysEnvAlloc, SysMemAlloc, SysMemMap, SysMemUnmap, PageFault, Yield, WaitsProperly,
         StepEffect;
    match op
    case Tick =>
      Waiter(k, e);
      YieldWaits(k, e);
      QuietYield(k, op, Yield(k), e);
    case Boot(pri, vas) => BootFrame(k, pri, vas, e); QuietStep(k, op, Step(k, op), e);
    case Fork => ForkFrame(k, e); QuietStep(k, op, Step(k, op), e);
    case MemAlloc(envid, va, perm) => MemFrame(k, op); QuietStep(k, op, Step(k, op), e);
    case MemMap(_, _, _, _, _) => MemFrame(k, op); QuietStep(k, op, Step(k, op), e);
    case MemUnmap(_, _) => MemFrame(k, op); QuietStep(k, op, Step(k, op), e);
    case Fault(_) => MemFrame(k, op); QuietStep(k, op, Step(k, op), e);
  }

  lemma Waiter(k: K, e: nat)
    requires KInv(k) && e < NENV && WaitsProperly(k, e)
    ensures k.envs[e].status != ENV_FREE && (k.envs[e].recving ==> k.envs[e].status == ENV_NOT_RUNNABLE)
  {}

  lemma QuietYield(k: K, op: Op, y: K, e: nat)
    requires KInv(k) && Legal(k, op) && op.Tick? && e < NENV && KInv(y) && WaitsProperly(y, e) && y.envs == k.envs
    ensures StepEffect(k, op, y, e)
  {
    hide KInv, Legal, WaitsProperly;
  }

  /** A step other than send and receive that leaves e's slot and the running environment alone. */
  lemma QuietStep(k: K, op: Op, w: K, e: nat)
    requires KInv(k) && Legal(k, op) && KInv(w) && e < NENV && WaitsProperly(k, e) && !op.Send? && !op.Recv?
    requires w.envs[e] == k.envs[e] && w.cur == k.cur && w.running == k.running
    ensures StepEffect(k, op, w, e)
  {
    hide KInv, Legal;
  }

  lemma MemFrame(k: K, op: Op)
    requires KInv(k) && Legal(k, op) && (op.MemAlloc? || op.MemMap? || op.MemUnmap? || op.Fault?)
    ensures Step(k, op).envs == k.envs && |k.envs| == NENV && Step(k, op).cur == k.cur
            && Step(k, op).running == k.running
  {
    hide KInv, Insert, Alloc, Remove, Find, Lookup, CountsFit;
    TableSize(k);
  }

  lemma BootFrame(k: K, pri: nat, vas: seq<nat>, e: nat)
    requires KInv(k) && k.freeq != [] && |k.vm.free| >= 2 && e < NENV && k.envs[e].status != ENV_FREE
    ensures var w := Create(k, pri, vas);
            |w.envs| == NENV && w.envs[e] == k.envs[e] && w.cur == k.cur && w.running == k.running
  {
    hide Inv, Insert, LoadPages, ChainOk, DirsOk;
    assert k.freeq[0] in k.freeq;
  }

  lemma ForkFrame(k: K, e: nat)
    requires KInv(k) && k.running && e < NENV && k.envs[e].status != ENV_FREE
    ensures var w := SysEnvAlloc(k).0;
            |w.envs| == NENV && w.envs[e] == k.envs[e] && w.cur == k.cur && w.running == k.running
  {
    hide Inv, CopyPages, ChainOk, DirsOk;
    if k.freeq != [] { assert k.freeq[0] in k.freeq; }
  }

  lemma AnyEffect(k: K, op: Op, e: nat)
    requires KInv(k) && Legal(k, op) && e < NENV && WaitsProperly(k, e) && Undisturbed(k, op, e)
    ensures KInv(Step(k, op)) && StepEffect(k, op, Step(k, op), e)
  {
    hide KInv, Step, StepEffect, WaitsProperly, Undisturbed, Legal;
    match op
    case Recv(_, _, _) => RecvEffect(k, op, e);
    case Send(_, _, _, _) => SendEffect(k, op, e);
    case SetStatus(_, _) => StatusEffect(k, op, e);
    case Destroy(_) => StatusEffect(k, op, e);
    case _ => OtherEffect(k, op, e);
  }

  /** Exactly once, in order: over any run in which nobody else makes the waiting environment
      runnable or destroys it, the messages e sees are the messages effectively sent to it; and
      there is exactly one for each receive, save the one it may still be waiting for. */
  lemma ReceivedIsSent(k: K, ops: seq<Op>, e: nat)
    requires KInv(k) && LegalRun(k, ops) && e < NENV && UndisturbedRun(k, ops, e)
    requires k.envs[e].status != ENV_FREE && !k.envs[e].recving
    ensures Seen(k, ops, e, false) == Sent(k, ops, e)
    ensures |Sent(k, ops, e)| == Recvs(k, ops, e) - (if Run(k, ops).envs[e].recving then 1 else 0)
  {
    ReceivedIsSentFrom(k, ops, e, false);
  }

  lemma {:induction false} ReceivedIsSentFrom(k: K, ops: seq<Op>, e: nat, unread: bool)
    requires KInv(k) && LegalRun(k, ops) && e < NENV && UndisturbedRun(k, ops, e)
    requires WaitsProperly(k, e) && (k.envs[e].recving ==> unread)
    ensures Seen(k, ops, e, unread) == (if unread && !k.envs[e].recving then [k.envs[e].msg] else []) + Sent(k, ops, e)
    ensures |Sent(k, ops, e)| == Recvs(k, ops, e)
            + (if k.envs[e].recving then 1 else 0) - (if Run(k, ops).envs[e].recving then 1 else 0)
    decreases |ops|
  {
    hide KInv, Legal, Step, Undisturbed, WaitsProperly, SentBy, Receives;
    if ops != [] {
      var op := ops[0];
      AnyEffect(k, op, e);
      var w := Step(k, op);
      ReceivedIsSentFrom(w, ops[1..], e, unread || Receives(k, op, e));
    }
  }
}
