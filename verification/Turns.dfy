/** Whose turn it is (lib/sched.c) while environments block and wake. The scheduler's iterator may
    stand on an entry that has left the run list; its stale forward link decides who is next. */
module Turns {
  import opened Mmu
  import opened Queue
  import opened Vm
  import opened EnvState
  import Ipc
  import Sched

  /* ---------- the next turn ---------- */

  /** Between two entries that have left the list the rank drops. */
  lemma ChainDown(q: seq<nat>, link: seq<int>, stamp: seq<nat>, clock: nat, x: nat)
    requires Linked(q, link) && Forward(link, q, stamp, clock) && x < |link| && link[x] != NULL && link[x] !in q
    ensures 0 <= link[x] < |link| && Rank(q, stamp, clock, link[x]) < Rank(q, stamp, clock, x)
  {}

  /** The first member of q on the chain of forward links that leaves x; q's head if it ends first. */
  ghost function NextListed(q: seq<nat>, link: seq<int>, stamp: seq<nat>, clock: nat, x: nat): (y: nat)
    requires q != [] && Linked(q, link) && Forward(link, q, stamp, clock) && x < |link|
    ensures y in q
    decreases Rank(q, stamp, clock, x)
  {
    if link[x] == NULL then q[0]
    else if link[x] in q then link[x]
    else
      ChainDown(q, link, stamp, clock, x);
      NextListed(q, link, stamp, clock, link[x])
  }

  /** Following the links from x, the n-th entry is the first that is y. */
  ghost predicate FirstAt(q: seq<nat>, link: seq<int>, x: nat, n: nat, y: int) {
    && n > 0 && Follow(link, x, n) == y
    && forall m :: 0 < m < n ==> Follow(link, x, m) != NULL && Follow(link, x, m) !in q
  }

  /** NextListed in terms of the links alone: some number of steps leads to it and no fewer lead to a
      member of q; or they lead off the end of the chain and it is the head. */
  lemma {:induction false} NextListedIs(q: seq<nat>, link: seq<int>, stamp: seq<nat>, clock: nat, x: nat)
      returns (n: nat)
    requires q != [] && Linked(q, link) && Forward(link, q, stamp, clock) && x < |link|
    ensures var y := NextListed(q, link, stamp, clock, x);
            (FirstAt(q, link, x, n, y) && y in q) || (FirstAt(q, link, x, n, NULL) && y == q[0])
    decreases Rank(q, stamp, clock, x)
  {
    assert Follow(link, link[x], 0) == link[x] == Follow(link, x, 1);
    if link[x] == NULL || link[x] in q {
      n := 1;
    } else {
      ChainDown(q, link, stamp, clock, x);
      n := NextListedIs(q, link, stamp, clock, link[x]);
      var off := FirstAt(q, link, link[x], n, NULL);
      FirstStep(q, link, x, n, if off then NULL else NextListed(q, link, stamp, clock, x));
      n := n + 1;
    }
  }

  lemma FirstStep(q: seq<nat>, link: seq<int>, x: nat, n: nat, y: int)
    requires x < |link| && link[x] >= 0 && link[x] !in q && FirstAt(q, link, link[x], n, y)
    ensures FirstAt(q, link, x, n + 1, y)
  {
    forall m | 0 < m < n + 1 ensures Follow(link, x, m) != NULL && Follow(link, x, m) !in q {
      assert Follow(link, x, m) == Follow(link, link[x], m - 1);
      if m == 1 { assert Follow(link, link[x], 0) == link[x]; }
    }
  }

  /** The successor of a member is the one behind it on the list, cyclically. */
  lemma ListedNext(q: seq<nat>, link: seq<int>, stamp: seq<nat>, clock: nat, p: nat)
    requires Linked(q, link) && Forward(link, q, stamp, clock) && p < |q|
    ensures NextListed(q, link, stamp, clock, q[p]) == q[if p + 1 < |q| then p + 1 else 0]
  {
    assert link[q[p]] == At(q, p + 1);
  }

  /** Who is next, by the rules: the iterator keeps its turn while it is runnable and has time left;
      else it is the first runnable entry behind it, or the head. */
  ghost function Due(k: K): nat
    requires EnvsOk(k) && ChainOk(k) && k.runq != []
  {
    if k.iter == NULL then k.runq[0]
    else if k.ts > 0 && k.envs[k.iter].status == ENV_RUNNABLE then k.iter
    else NextListed(k.runq, k.link, k.stamp, k.clock, k.iter)
  }

  /** sched_yield selects exactly that environment. A new turn starts with env_pri ticks, of which
      one is taken at once. */
  lemma {:induction false} YieldPicks(k: K)
    requires EnvsOk(k) && ChainOk(k) && k.runq != []
    ensures var y := Yield(k);
            && y.running && y.cur == y.iter == Due(k) && Due(k) < NENV
            && y.ts == (if k.iter != NULL && k.ts > 0 && k.envs[k.iter].status == ENV_RUNNABLE then k.ts
                        else AsInt(k.envs[Due(k)].pri)) - 1
    decreases IterRank(k), if k.ts > 0 then k.ts else 0
  {
    hide NoDup, Forward, Linked;
    AdvanceProgress(k);
    HeadListed(k);
    var a := Advance(k);
    if !(a.iter != NULL && a.envs[a.iter].status == ENV_RUNNABLE) {
      YieldPicks(a);
    }
  }

  lemma HeadListed(k: K)
    requires EnvsOk(k) && ChainOk(k) && k.runq != []
    ensures 0 <= k.runq[0] < NENV && k.envs[k.runq[0]].status == ENV_RUNNABLE
    ensures forall x :: 0 <= x < NENV ==> (x in k.runq <==> k.envs[x].status == ENV_RUNNABLE)
  {
    assert k.runq[0] in k.runq;
  }

  /* ---------- an environment that blocks ---------- */

  /** The entry behind position p, cyclically. */
  function Behind(q: seq<nat>, p: nat): nat
    requires p < |q|
  {
    q[if p + 1 < |q| then p + 1 else 0]
  }

  /** When the iterator's environment leaves the list, its turn passes to the entry that was behind
      it: no later member loses its turn, whatever time was left. */
  lemma LeavePassesTurn(k: K, w: K)
    requires EnvsOk(k) && ChainOk(k) && EnvsOk(w) && ChainOk(w) && k.iter in k.runq && w.runq != []
    requires var d := Dequeue(k, k.iter); w.runq == d.runq && w.link == d.link && w.iter == k.iter
    ensures Due(w) == Behind(k.runq, Index(k.runq, k.iter))
  {
    hide Forward, Backed;
    var q, i := k.runq, k.iter;
    var p := Index(q, i);
    WithoutMembers(q, i);
    assert k.link[q[p]] == At(q, p + 1);
    assert w.link[i] == k.link[i];
    assert p + 1 < |q| ==> q[p + 1] in w.runq;
    assert w.runq == q[..p] + q[p + 1..];
  }

  /** my_set_env_status and sched_yield, as in sys_ipc_recv. */
  lemma BlockPassesTurn(k: K)
    requires EnvsOk(k) && ChainOk(k) && k.iter in k.runq && |k.runq| > 1
    ensures var w := SetStatusOf(k, k.iter, ENV_NOT_RUNNABLE);
            EnvsOk(w) && ChainOk(w) && Yield(w).cur == Behind(k.runq, Index(k.runq, k.iter))
  {
    hide Forward, Linked, Backed, NoDup, Yield;
    HeadListedAt(k, k.iter);
    SetStatusKeeps(k, k.iter, ENV_NOT_RUNNABLE);
    var w := SetStatusOf(k, k.iter, ENV_NOT_RUNNABLE);
    assert w.runq == Without(k.runq, k.iter);
    LeavePassesTurn(k, w);
    YieldPicks(w);
  }

  lemma HeadListedAt(k: K, e: int)
    requires EnvsOk(k) && e in k.runq
    ensures 0 <= e < NENV && k.envs[e].status == ENV_RUNNABLE
  {}

  /* ---------- how far away a turn is ---------- */

  /** Turns until c, counted from i: straight on, or around the end of the list. Entries that wake go
      to the head of the list, so those between i and c never become more. */
  ghost function Distance(q: seq<nat>, i: nat, c: nat): nat
    requires i in q && c in q && |q| <= NENV
  {
    if Index(q, i) < Index(q, c) then Index(q, c) - Index(q, i) else NENV + |q| - Index(q, i)
  }

  lemma IndexIs(q: seq<nat>, p: nat)
    requires NoDup(q) && p < |q|
    ensures Index(q, q[p]) == p
  {}

  /** Someone wakes: it goes to the head. */
  lemma WakeKeepsDistance(q: seq<nat>, e: nat, i: nat, c: nat)
    requires NoDup([e] + q) && i in q && c in q && |[e] + q| <= NENV
    ensures i in [e] + q && c in [e] + q && Distance([e] + q, i, c) == Distance(q, i, c)
  {
    var r := [e] + q;
    assert r[Index(q, i) + 1] == i && r[Index(q, c) + 1] == c;
    IndexIs(r, Index(q, i) + 1);
    IndexIs(r, Index(q, c) + 1);
  }

  /** Someone else leaves the list. */
  lemma LeaveKeepsDistance(q: seq<nat>, e: nat, i: nat, c: nat)
    requires NoDup(q) && e in q && i in q && c in q && e != i && e != c && |q| <= NENV
    ensures var r := Without(q, e);
            NoDup(r) && i in r && c in r && |r| <= NENV && Distance(r, i, c) <= Distance(q, i, c)
  {
    WithoutMembers(q, e);
    IndexWithout(q, e, i);
    IndexWithout(q, e, c);
  }

  lemma IndexWithout(q: seq<nat>, e: nat, x: nat)
    requires NoDup(q) && e in q && x in q && x != e
    ensures var r := Without(q, e);
            x in r && Index(r, x) == if Index(q, x) < Index(q, e) then Index(q, x) else Index(q, x) - 1
  {
    var r, p := Without(q, e), if Index(q, x) < Index(q, e) then Index(q, x) else Index(q, x) - 1;
    WithoutMembers(q, e);
    assert r[p] == x;
    IndexIs(r, p);
  }

  /** The turn goes on to the entry behind. */
  lemma NextIsCloser(q: seq<nat>, i: nat, c: nat)
    requires NoDup(q) && i in q && c in q && i != c && |q| <= NENV
    ensures var j := Behind(q, Index(q, i)); j in q && (j == c || Distance(q, j, c) < Distance(q, i, c))
  {
    var p := Index(q, i);
    IndexIs(q, if p + 1 < |q| then p + 1 else 0);
  }

  /** The iterator's environment leaves, and the turn goes on to the entry behind. */
  lemma LeaveIsCloser(q: seq<nat>, i: nat, c: nat)
    requires NoDup(q) && i in q && c in q && i != c && |q| <= NENV
    ensures var j, r := Behind(q, Index(q, i)), Without(q, i);
            && NoDup(r) && j in r && c in r && |r| <= NENV
            && (j == c || Distance(r, j, c) < Distance(q, i, c))
  {
    var p := Index(q, i);
    var j := Behind(q, p);
    WithoutMembers(q, i);
    IndexIs(q, if p + 1 < |q| then p + 1 else 0);
    assert q[Index(q, c)] == c && q[p] == i;
    assert j != i;
    IndexWithout(q, i, j);
    IndexWithout(q, i, c);
  }

  lemma OneLess(q: seq<nat>, n: nat)
    requires NoDup(q) && forall x :: x in q ==> x <= n
    ensures var r := Without(q, n);
            NoDup(r) && (forall x :: x in r ==> x < n) && |q| <= |r| + 1
  {
    WithoutMembers(q, n);
  }

  lemma {:induction false} AtMost(q: seq<nat>, n: nat)
    requires NoDup(q) && forall x :: x in q ==> x < n
    ensures |q| <= n
    decreases n
  {
    assert q == [] || q[0] in q;
    if n > 0 {
      OneLess(q, n - 1);
      AtMost(Without(q, n - 1), n - 1);
    }
  }

  /* ---------- waiting time over whole runs ---------- */

  /** The iterator stands on the running environment, which is on the list. Every selection makes it so. */
  ghost predicate OnTurn(k: K) { KInv(k) && k.running && k.cur == k.iter && k.iter in k.runq }

  lemma ListSize(k: K)
    requires EnvsOk(k)
    ensures |k.runq| <= NENV && NoDup(k.runq)
  {
    AtMost(k.runq, NENV);
  }

  ghost predicate Bounded(k: K, most: nat) {
    |k.envs| == NENV && forall i :: 0 <= i < NENV ==> Sched.Weight(k.envs[i]) <= most
  }

  /** An upper bound on the clock ticks until c runs, if no priority exceeds most. */
  ghost function Wait(k: K, c: nat, most: nat): nat
    requires k.iter in k.runq && c in k.runq && |k.runq| <= NENV
  {
    Distance(k.runq, k.iter, c) * most + (if k.ts > 0 then k.ts else 0)
  }

  /** What a step did to the turn: another one began, or the old one goes on; in a tick it got shorter. */
  ghost predicate TurnStep(k: K, w: K, c: nat, tick: bool)
    requires EnvsOk(k) && EnvsOk(w) && k.iter in k.runq && c in k.runq
  {
    ListSize(k);
    ListSize(w);
    && OnTurn(w) && c in w.runq
    && (w.iter == c
        || (Distance(w.runq, w.iter, c) < Distance(k.runq, k.iter, c) && w.ts == AsInt(w.envs[w.iter].pri) - 1)
        || (&& Distance(w.runq, w.iter, c) <= Distance(k.runq, k.iter, c)
            && (if tick then k.ts > 0 && w.ts == k.ts - 1 else w.ts == k.ts)))
  }

  /** The steps over which c waits: c stays on the list, boot adds no greater priority, and the running
      environment does not set its own status to NOT_RUNNABLE, as only sys_ipc_recv does in turn. */
  ghost predicate Waits(k: K, op: Op, c: nat, most: nat)
    requires KInv(k) && Legal(k, op)
  {
    && (StepKeeps(k, op); c in Step(k, op).runq)
    && (op.Boot? ==> AsInt(op.pri) <= most)
    && (op.SetStatus? && op.status == ENV_NOT_RUNNABLE ==> Find(k, op.envid, true) != k.cur)
  }

  /** The same iterator, time and running environment. */
  ghost predicate SameTurn(k: K, w: K) {
    w.iter == k.iter && w.ts == k.ts && w.cur == k.cur && w.running == k.running
  }

  lemma SameTurnStep(k: K, w: K, c: nat)
    requires OnTurn(k) && KInv(w) && SameTurn(k, w) && c in k.runq && w.runq == k.runq
    ensures TurnStep(k, w, c, false)
  {
    hide Inv, ChainOk, DirsOk;
  }

  /** Another environment came to the list or left it. */
  lemma OtherMoves(k: K, w: K, e: nat, c: nat)
    requires OnTurn(k) && KInv(w) && SameTurn(k, w) && c in k.runq && c in w.runq
    requires (w.runq == [e] + k.runq) || (e in k.runq && e != k.iter && w.runq == Without(k.runq, e))
    ensures TurnStep(k, w, c, false)
  {
    hide Inv, ChainOk, DirsOk, Distance;
    ListSize(k);
    ListSize(w);
    if w.runq == [e] + k.runq {
      WakeKeepsDistance(k.runq, e, k.iter, c);
    } else {
      WithoutMembers(k.runq, e);
      LeaveKeepsDistance(k.runq, e, k.iter, c);
    }
  }

  /** The scheduler's choice after the iterator's environment has left the list. */
  lemma LeftThenPicks(k: K, u: K)
    requires EnvsOk(k) && ChainOk(k) && EnvsOk(u) && ChainOk(u) && k.iter in k.runq && u.runq != []
    requires var d := Dequeue(k, k.iter); u.runq == d.runq && u.link == d.link && u.iter == k.iter
    ensures var y := Yield(u);
            && y.running && y.cur == y.iter == Behind(k.runq, Index(k.runq, k.iter)) && y.cur in u.runq
            && 0 <= y.cur < NENV && y.ts == AsInt(u.envs[y.cur].pri) - 1
  {
    hide Yield, NoDup, Dequeue, Forward, Backed, Linked;
    ListSize(k);
    WithoutMembers(k.runq, k.iter);
    DequeueParts(k);
    HeadListedAt(k, k.iter);
    HeadListed(u);
    LeavePassesTurn(k, u);
    YieldPicks(u);
    YieldRuns(u);
  }

  lemma DequeueParts(k: K)
    requires ChainOk(k) && NoDup(k.runq) && k.iter in k.runq
    ensures k.iter < |k.link| && k.iter < |k.stamp| && Dequeue(k, k.iter).runq == Without(k.runq, k.iter)
  {}

  lemma OnTurnParts(k: K)
    requires OnTurn(k)
    ensures EnvsOk(k) && ChainOk(k) && k.iter in k.runq && k.iter >= 0
  {
    hide Inv, ChainOk, DirsOk;
  }

  /** The running environment left the list and the scheduler went on. */
  lemma MovesOn(k: K, u: K, w: K, c: nat)
    requires OnTurn(k) && KInv(u) && c in k.runq && c != k.iter && k.iter < |k.link| && k.iter < |k.stamp|
    requires var d := Dequeue(k, k.iter); u.runq == d.runq && u.link == d.link && u.iter == k.iter
    requires w == Yield(u) && KInv(w)
    ensures TurnStep(k, w, c, false)
  {
    hide KInv, EnvsOk, ChainOk, DirsOk, Inv, NoDup, Distance, Yield, Dequeue, TurnStep, Behind, OnTurn;
    OnTurnParts(k);
    KInvParts(u);
    KInvParts(w);
    ListSize(k);
    ListSize(w);
    LeaveIsCloser(k.runq, k.iter, c);
    DequeueParts(k);
    LeftThenPicks(k, u);
    YieldRuns(u);
    NewTurn(k, w, c);
  }

  /** A new turn, closer to c's. */
  lemma NewTurn(k: K, w: K, c: nat)
    requires OnTurn(k) && KInv(w) && w.running && w.cur == w.iter && w.iter in w.runq && c in k.runq && c in w.runq
    requires 0 <= w.iter < |w.envs| && w.ts == AsInt(w.envs[w.iter].pri) - 1
    requires |k.runq| <= NENV && |w.runq| <= NENV
    requires w.iter == c || Distance(w.runq, w.iter, c) < Distance(k.runq, k.iter, c)
    ensures TurnStep(k, w, c, false) && TurnStep(k, w, c, true)
  {
    hide Inv, ChainOk, DirsOk, Distance;
    ListSize(k);
    ListSize(w);
  }

  lemma TickMoves(k: K, c: nat)
    requires OnTurn(k) && c in k.runq && c != k.iter
    ensures KInv(Yield(k)) && TurnStep(k, Yield(k), c, true)
  {
    hide Inv, EnvsOk, ChainOk, DirsOk, Distance, Yield, Due, NoDup, TurnStep;
    YieldKInv(k);
    YieldPicks(k);
    YieldRuns(k);
    HeadListedAt(k, k.iter);
    ListSize(k);
    NextIsCloser(k.runq, k.iter, c);
    DueIsBehind(k);
    if k.ts > 0 { TurnGoesOn(k, Yield(k), c); } else { NewTurn(k, Yield(k), c); }
  }

  lemma TurnGoesOn(k: K, w: K, c: nat)
    requires OnTurn(k) && OnTurn(w) && c in k.runq && w.runq == k.runq && w.iter == k.iter
    requires k.ts > 0 && w.ts == k.ts - 1
    ensures TurnStep(k, w, c, true)
  {
    hide Inv, ChainOk, DirsOk, Distance;
  }

  lemma DueIsBehind(k: K)
    requires EnvsOk(k) && ChainOk(k) && k.iter in k.runq
    ensures Due(k) == if k.ts > 0 then k.iter as nat else Behind(k.runq, Index(k.runq, k.iter))
  {
    hide Forward, Linked, Backed, NoDup;
    HeadListedAt(k, k.iter);
    ListedNext(k.runq, k.link, k.stamp, k.clock, Index(k.runq, k.iter));
  }

  /* ---------- the turn in every step ---------- */

  lemma SetStatusLists(k: K, e: nat, status: nat)
    requires EnvsOk(k) && ChainOk(k) && e < NENV && k.envs[e].status != ENV_FREE
    requires status == ENV_RUNNABLE || status == ENV_NOT_RUNNABLE
    ensures var w := SetStatusOf(k, e, status);
            && w.iter == k.iter && w.ts == k.ts && (w.freeq, w.nextId) == (k.freeq, k.nextId)
            && w.runq == (if k.envs[e].status == status then k.runq
                          else if status == ENV_RUNNABLE then [e] + k.runq else Without(k.runq, e))
            && (k.envs[e].status == status ==> w == k)
            && (e in k.runq && status == ENV_NOT_RUNNABLE ==> w.link == Dequeue(k, e).link)
  {
    hide Forward, Linked, Backed, NoDup;
  }

  /** Memory calls and page faults leave the lists alone. */
  lemma MemLists(k: K, op: Op)
    requires KInv(k) && Legal(k, op) && (op.MemAlloc? || op.MemMap? || op.MemUnmap? || op.Fault?)
    ensures Step(k, op) == k.(vm := Step(k, op).vm)
  {
    hide KInv, Insert, Alloc, Remove, Find, Lookup, CountsFit, Pin;
    KInvParts(k);
  }

  lemma ForkLists(k: K)
    requires KInv(k) && k.running
    ensures var w := SysEnvAlloc(k).0;
            && SameTurn(k, w) && w.runq == k.runq && |w.envs| == NENV
            && forall i :: 0 <= i < NENV ==> w.envs[i].pri == k.envs[i].pri
  {
    hide Inv, CopyPages, ChainOk, DirsOk;
    if k.freeq != [] { assert k.freeq[0] in k.freeq; }
  }

  lemma BootLists(k: K, pri: nat, vas: seq<nat>)
    requires KInv(k) && k.freeq != [] && |k.vm.free| >= 2
    ensures var w, e := Create(k, pri, vas), k.freeq[0];
            && SameTurn(k, w) && 0 <= e < NENV && w.runq == [e] + k.runq && |w.envs| == NENV
            && forall i :: 0 <= i < NENV ==> w.envs[i].pri == if i == e then pri else k.envs[i].pri
  {
    hide Inv, Insert, LoadPages, ChainOk, DirsOk;
    assert k.freeq[0] in k.freeq;
  }

  lemma EffectLists(k: K, w: VM, e: nat, value: Word, perm: bv12)
    requires EnvsOk(k) && ChainOk(k) && k.running && e < NENV && k.envs[e].status != ENV_FREE
    ensures var r := Effect(k, w, e, value, perm);
            && SameTurn(k, r) && (r.runq == k.runq || r.runq == [e] + k.runq)
            && |r.envs| == NENV && forall i :: 0 <= i < NENV ==> r.envs[i].pri == k.envs[i].pri
  {
    hide Deliver, Forward, Linked, Backed, NoDup, SetStatusOf;
    var m := Msg(value, k.envs[k.cur].id, perm | PTE_V | PTE_R);
    var w2 := Deliver(Deliver(w, k.envs[e].pgdir, k.envs[e].whom, U32(m.from)), k.envs[e].pgdir, k.envs[e].permVa,
                      Word(0, m.perm));
    var u := k.(vm := w2, envs := k.envs[e := k.envs[e].(recving := false, msg := m)]);
    SetStatusFrame(u, e, ENV_RUNNABLE);
    SetStatusLists(u, e, ENV_RUNNABLE);
  }

  lemma SendLists(k: K, envid: nat, value: Word, srcva: nat, perm: bv12)
    requires KInv(k) && k.running
    ensures var r := SysIpcCanSend(k, envid, value, srcva, perm).0;
            && SameTurn(k, r) && (r.runq == k.runq || exists e: nat :: r.runq == [e] + k.runq)
            && |k.envs| == |r.envs| == NENV && forall i :: 0 <= i < NENV ==> r.envs[i].pri == k.envs[i].pri
  {
    hide Inv, Insert, Lookup, Effect, ChainOk, DirsOk;
    if SendTakesEffect(k, envid, srcva, perm) {
      FindLive(k, envid, false);
      var e := Find(k, envid, false);
      EffectLists(k, SentPage(k, e, srcva, perm), e, value, perm);
    } else {
      Ipc.FailedSendIsNoop(k, envid, value, srcva, perm);
    }
  }

  lemma StatusLists(k: K, envid: nat, status: nat)
    requires KInv(k) && status != ENV_FREE
    ensures var r, e := SysSetEnvStatus(k, envid, status).0, Find(k, envid, true);
            && SameTurn(k, r) && |k.envs| == |r.envs| == NENV
            && (r.runq == k.runq
                || (0 <= e && r.runq == [e as nat] + k.runq)
                || (0 <= e && status == ENV_NOT_RUNNABLE && e in k.runq && r.runq == Without(k.runq, e as nat)))
            && forall i :: 0 <= i < NENV ==> r.envs[i].pri == k.envs[i].pri
  {
    hide Inv, ChainOk, DirsOk, SetStatusOf, NoDup;
    var e := Find(k, envid, true);
    if status <= ENV_NOT_RUNNABLE && e != NULL {
      FindLive(k, envid, true);
      SetStatusFrame(k, e, status);
      SetStatusLists(k, e, status);
    }
  }

  /** The list after the caller of sys_ipc_recv has blocked. */
  lemma RecvLeaves(k: K, dstva: nat, whom: nat, permVa: nat)
    requires OnTurn(k) && dstva < UTOP && whom < FOURGIG && permVa < FOURGIG
    ensures var u := Waiting(k, dstva, whom, permVa);
            && 0 <= k.cur < NENV && u.envs[k.cur].status != ENV_FREE
            && var v := SetStatusOf(u, k.cur, ENV_NOT_RUNNABLE);
               && KInv(v) && v.iter == k.iter && k.iter < |k.link| && k.iter < |k.stamp|
               && v.runq == Dequeue(k, k.iter).runq && v.link == Dequeue(k, k.iter).link
               && |v.envs| == |k.envs| == NENV && forall i :: 0 <= i < NENV ==> v.envs[i].pri == k.envs[i].pri
  {
    hide KInv, SetStatusOf, NoDup, Linked, Forward, Backed;
    KInvParts(k);
    WaitingKInv(k, dstva, whom, permVa);
    var u := Waiting(k, dstva, whom, permVa);
    KInvParts(u);
    SetStatusKInv(u, k.cur, ENV_NOT_RUNNABLE);
    HeadListedAt(k, k.iter);
    SetStatusLists(u, k.cur, ENV_NOT_RUNNABLE);
    SameDequeue(k, u);
  }

  lemma RecvTurn(k: K, dstva: nat, whom: nat, permVa: nat, c: nat)
    requires OnTurn(k) && whom < FOURGIG && permVa < FOURGIG && c in k.runq && c != k.iter
    ensures var w := SysIpcRecv(k, dstva, whom, permVa);
            && KInv(w) && TurnStep(k, w, c, false)
            && |k.envs| == |w.envs| == NENV && forall i :: 0 <= i < NENV ==> w.envs[i].pri == k.envs[i].pri
  {
    hide KInv, Yield, SetStatusOf, TurnStep, Dequeue, EnvsOk, ChainOk, DirsOk, Waiting;
    RecvKeeps(k, dstva, whom, permVa);
    KInvParts(k);
    if dstva < UTOP {
      RecvLeaves(k, dstva, whom, permVa);
      var v := SetStatusOf(Waiting(k, dstva, whom, permVa), k.cur, ENV_NOT_RUNNABLE);
      KInvParts(v);
      MovesOn(k, v, SysIpcRecv(k, dstva, whom, permVa), c);
      YieldRuns(v);
    } else {
      SameTurnStep(k, k, c);
      Ipc.TableSize(k);
    }
  }

  lemma SameDequeue(k: K, u: K)
    requires ChainOk(k) && ChainOk(u) && k.iter in k.runq && u.runq == k.runq && u.link == k.link
    ensures k.iter < |k.link| && k.iter < |k.stamp| && k.iter < |u.stamp|
    ensures Dequeue(u, k.iter).runq == Dequeue(k, k.iter).runq && Dequeue(u, k.iter).link == Dequeue(k, k.iter).link
  {}

  lemma FreeLists(k: K, e: nat)
    requires EnvsOk(k) && ChainOk(k) && e in k.runq
    ensures var w := EnvFree(k, e);
            && w.iter == k.iter && w.ts == k.ts && w.cur == k.cur && w.running == k.running
            && w.runq == Dequeue(k, e).runq == Without(k.runq, e) && w.link == Dequeue(k, e).link
            && |w.envs| == NENV && forall i :: 0 <= i < NENV ==> w.envs[i].pri == k.envs[i].pri
  {
    hide FreeDir, NoDup;
  }

  lemma DestroyTurn(k: K, op: Op, c: nat)
    requires OnTurn(k) && Legal(k, op) && op.Destroy? && c in k.runq && c != k.iter && c in Step(k, op).runq
    ensures var w := Step(k, op);
            && KInv(w) && TurnStep(k, w, c, false)
            && |k.envs| == |w.envs| == NENV && forall i :: 0 <= i < NENV ==> w.envs[i].pri == k.envs[i].pri
  {
    hide KInv, Yield, TurnStep, NoDup, Linked, Forward, Backed, Dequeue, EnvFree;
    StepKeeps(k, op);
    KInvParts(k);
    var e := Find(k, op.envid, true);
    if e == NULL {
      SameTurnStep(k, k, c);
    } else {
      FindLive(k, op.envid, true);
      HeadListed(k);
      FreeLists(k, e);
      DestroySteps(k, e);
      if e == k.cur {
        var u := EnvFree(k, e).(cur := NULL, running := false);
        KInvParts(u);
        MovesOn(k, u, Yield(u), c);
        YieldRuns(u);
      } else {
        OtherMoves(k, EnvFree(k, e), e, c);
      }
    }
  }

  lemma StatusTurn(k: K, op: Op, c: nat, most: nat)
    requires OnTurn(k) && Legal(k, op) && op.SetStatus? && c in k.runq && c != k.iter && Waits(k, op, c, most)
    ensures KInv(Step(k, op)) && TurnStep(k, Step(k, op), c, false)
    ensures |k.envs| == |Step(k, op).envs| == NENV
            && forall i :: 0 <= i < NENV ==> Step(k, op).envs[i].pri == k.envs[i].pri
  {
    hide KInv, TurnStep, NoDup, SysSetEnvStatus;
    StepKeeps(k, op);
    KInvParts(k);
    StatusLists(k, op.envid, op.status);
    var w, e := Step(k, op), Find(k, op.envid, true);
    if w.runq == k.runq {
      SameTurnStep(k, w, c);
    } else {
      OtherMoves(k, w, e, c);
    }
  }

  lemma SendTurn(k: K, op: Op, c: nat)
    requires OnTurn(k) && Legal(k, op) && op.Send? && c in k.runq && c != k.iter
    ensures KInv(Step(k, op)) && TurnStep(k, Step(k, op), c, false)
    ensures |k.envs| == |Step(k, op).envs| == NENV
            && forall i :: 0 <= i < NENV ==> Step(k, op).envs[i].pri == k.envs[i].pri
  {
    hide KInv, TurnStep, NoDup, SysIpcCanSend, SendAligned, CountsFit;
    StepKeeps(k, op);
    KInvParts(k);
    SendLists(k, op.envid, op.value, op.srcva, op.perm);
    var w := Step(k, op);
    if w.runq == k.runq {
      SameTurnStep(k, w, c);
    } else {
      var e: nat :| w.runq == [e] + k.runq;
      OtherMoves(k, w, e, c);
    }
  }

  /** Every step: another turn began, closer to c's, or the old one goes on; and no priority changes
      but that of an environment created at boot. */
  lemma AnyTurn(k: K, op: Op, c: nat, most: nat)
    requires OnTurn(k) && Legal(k, op) && c in k.runq && c != k.iter && Waits(k, op, c, most) && Bounded(k, most)
    requires most > 0
    ensures KInv(Step(k, op)) && TurnStep(k, Step(k, op), c, op.Tick?) && Bounded(Step(k, op), most)
  {
    hide KInv, TurnStep, NoDup, Yield, Create, SysEnvAlloc, SysIpcRecv, SysEnvDestroy, SysSetEnvStatus, SysIpcCanSend,
         SysMemAlloc, SysMemMap, SysMemUnmap, PageFault, Waits, CountsFit, CopyFits, SendAligned, Find;
    StepKeeps(k, op);
    KInvParts(k);
    match op
    case Tick => TickMoves(k, c); YieldRuns(k);
    case Recv(dstva, whom, permVa) => RecvTurn(k, dstva, whom, permVa, c);
    case Destroy(envid) => WaitsUse(k, op, c, most); DestroyTurn(k, op, c);
    case SetStatus(_, _) => StatusTurn(k, op, c, most);
    case Send(_, _, _, _) => SendTurn(k, op, c);
    case Fork => ForkLists(k); SameTurnStep(k, Step(k, op), c);
    case Boot(pri, vas) =>
      WaitsUse(k, op, c, most);
      BootLists(k, pri, vas);
      OtherMoves(k, Step(k, op), k.freeq[0], c);
    case MemAlloc(_, _, _) => MemLists(k, op); SameTurnStep(k, Step(k, op), c);
    case MemMap(_, _, _, _, _) => MemLists(k, op); SameTurnStep(k, Step(k, op), c);
    case MemUnmap(_, _) => MemLists(k, op); SameTurnStep(k, Step(k, op), c);
    case Fault(_) => MemLists(k, op); SameTurnStep(k, Step(k, op), c);
  }

  lemma WaitsUse(k: K, op: Op, c: nat, most: nat)
    requires KInv(k) && Legal(k, op) && Waits(k, op, c, most)
    ensures KInv(Step(k, op)) && c in Step(k, op).runq && (op.Boot? ==> AsInt(op.pri) <= most)
  {
    hide KInv, Step, Legal;
    StepKeeps(k, op);
  }

  /* ---------- the bound ---------- */

  lemma {:induction false} Further(a: nat, b: nat, most: nat)
    requires a < b
    ensures a * most + most <= b * most
    decreases b
  {
    assert b * most == (b - 1) * most + most;
    if a + 1 < b { Further(a, b - 1, most); }
  }

  lemma NotFurther(a: nat, b: nat, most: nat)
    requires a <= b
    ensures a * most <= b * most
  {
    if a < b { Further(a, b, most); }
  }

  /** The bound never grows while c waits, and every tick lowers it. */
  lemma WaitDrops(k: K, w: K, c: nat, most: nat, tick: bool)
    requires OnTurn(k) && KInv(w) && c in k.runq && TurnStep(k, w, c, tick) && w.iter != c
    requires Bounded(w, most) && most > 0
    ensures (ListSize(k); ListSize(w); OnTurn(w) && c in w.runq)
    ensures (ListSize(k); ListSize(w); Wait(w, c, most) <= Wait(k, c, most) - (if tick then 1 else 0))
  {
    hide Inv, ChainOk, DirsOk, Distance;
    ListSize(k);
    ListSize(w);
    var a, b := Distance(w.runq, w.iter, c), Distance(k.runq, k.iter, c);
    NotFurther(a, b, most) by { assert a <= b; }
    if a < b { Further(a, b, most); }
    assert Sched.Weight(w.envs[w.iter]) <= most;
  }

  /** A run in which c may go on waiting until it is selected. */
  ghost predicate WaitsRun(k: K, ops: seq<Op>, c: nat, most: nat)
    requires KInv(k) && LegalRun(k, ops)
    decreases |ops|
  {
    ops == [] ||
    (Waits(k, ops[0], c, most)
     && (StepKeeps(k, ops[0]); Step(k, ops[0]).cur == c || WaitsRun(Step(k, ops[0]), ops[1..], c, most)))
  }

  ghost predicate Served(k: K, ops: seq<Op>, c: nat)
    requires KInv(k) && LegalRun(k, ops)
    decreases |ops|
  {
    ops != [] && (StepKeeps(k, ops[0]); Step(k, ops[0]).cur == c || Served(Step(k, ops[0]), ops[1..], c))
  }

  function TicksIn(ops: seq<Op>): nat {
    if ops == [] then 0 else (if ops[0].Tick? then 1 else 0) + TicksIn(ops[1..])
  }

  /** Bounded waiting. Over any run of system calls, page faults and ticks in which environments block,
      wake, fork and are destroyed, a runnable environment that stays on the list is selected after at
      most this many ticks. */
  lemma {:induction false} WaitIsBounded(k: K, ops: seq<Op>, c: nat, most: nat)
    requires OnTurn(k) && LegalRun(k, ops) && c in k.runq && c != k.cur && Bounded(k, most) && most > 0
    requires WaitsRun(k, ops, c, most)
    ensures (ListSize(k); TicksIn(ops) > Wait(k, c, most) ==> Served(k, ops, c))
    decreases |ops|
  {
    hide KInv, Step, Legal, Waits, TurnStep, Wait, Bounded;
    KInvParts(k);
    ListSize(k);
    if ops != [] {
      AnyTurn(k, ops[0], c, most);
      var w := Step(k, ops[0]);
      KInvParts(w);
      if w.iter != c {
        WaitDrops(k, w, c, most, ops[0].Tick?);
        ListSize(w);
        WaitIsBounded(w, ops[1..], c, most);
      } else {
        TurnIsRun(k, w, c, ops[0].Tick?);
      }
    }
  }

  lemma TurnIsRun(k: K, w: K, c: nat, tick: bool)
    requires EnvsOk(k) && EnvsOk(w) && k.iter in k.runq && c in k.runq && TurnStep(k, w, c, tick)
    ensures w.cur == w.iter
  {}

  /** The bound is at most two rounds of the longest turns and the time left. */
  lemma WaitAtMost(k: K, c: nat, most: nat)
    requires EnvsOk(k) && k.iter in k.runq && c in k.runq
    ensures (ListSize(k); Wait(k, c, most) <= 2 * NENV * most + (if k.ts > 0 then k.ts else 0))
  {
    ListSize(k);
    NotFurther(Distance(k.runq, k.iter, c), 2 * NENV, most);
  }

  /** Why the running environment may not take itself off the list and go on: when it is woken before
      the scheduler has moved on, the turn goes back to the front, and those behind it wait again. */
  lemma RequeueGoesBack(k: K)
    requires OnTurn(k) && k.ts <= 0 && Index(k.runq, k.iter) + 1 < |k.runq| && Index(k.runq, k.iter) > 0
    ensures 0 <= k.cur < NENV && k.envs[k.cur].status == ENV_RUNNABLE
    ensures var b := SetStatusOf(k, k.cur, ENV_NOT_RUNNABLE);
            && EnvsOk(b) && ChainOk(b) && b.envs[k.cur].status == ENV_NOT_RUNNABLE
            && var w := SetStatusOf(b, k.cur, ENV_RUNNABLE);
               && EnvsOk(w) && ChainOk(w) && w.runq != []
               && Due(k) == k.runq[Index(k.runq, k.iter) + 1] && Due(w) == k.runq[0] != Due(k)
  {
    hide Inv, DirsOk, Forward, Linked, Backed, SetStatusOf, Due, Without;
    HeadListedAt(k, k.iter);
    DueIsBehind(k);
    SetStatusKeeps(k, k.cur, ENV_NOT_RUNNABLE);
    SetStatusFrame(k, k.cur, ENV_NOT_RUNNABLE);
    SetStatusLists(k, k.cur, ENV_NOT_RUNNABLE);
    var b := SetStatusOf(k, k.cur, ENV_NOT_RUNNABLE);
    SetStatusKeeps(b, k.cur, ENV_RUNNABLE);
    SetStatusLists(b, k.cur, ENV_RUNNABLE);
    var w := SetStatusOf(b, k.cur, ENV_RUNNABLE);
    WithoutHeadStays(k.runq, k.iter);
    IndexIs(w.runq, 0);
    DueIsBehind(w);
  }

  lemma WithoutHeadStays(q: seq<nat>, e: nat)
    requires NoDup(q) && e in q && Index(q, e) > 0
    ensures Without(q, e) != [] && Without(q, e)[0] == q[0]
  {}
}
