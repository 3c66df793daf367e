/** Destroying any environment (lib/env.c). env_free removes the environment from the run list
    whether or not it is there, through the links its slot happens to hold. */
module Destroy {
  import opened Mmu
  import opened Queue
  import opened Vm
  import opened EnvState

  /** env_sched_list and its links. */
  ghost function Chain(k: K): Links { Links(At(k.runq, 0), k.link, k.back) }

  lemma ChainIsList(k: K)
    requires ChainOk(k) && NoDup(k.runq)
    ensures WellTyped(Chain(k)) && Represents(Chain(k), k.runq)
  {
    forall x | 0 <= x < |k.link| ensures NULL <= k.link[x] < |k.link| {
      if x in k.runq {
        var p := Index(k.runq, x);
        assert k.link[k.runq[p]] == At(k.runq, p + 1);
      }
    }
  }

  /** The links after LIST_REMOVE(e, env_sched_link). */
  ghost function Unlinked(k: K, e: nat): (l: Links)
    requires ChainOk(k) && NoDup(k.runq) && e < NENV && k.back[e] != Nil
    ensures |l.next| == |l.prev| == NENV
  {
    ChainIsList(k);
    RemoveLinks(Chain(k), e)
  }

  /** env_free, with what sys_env_destroy does to curenv, for a slot that was on the run list at
      least once; what the list then is and when slots left it is for the caller to say. */
  ghost function Freed(k: K, e: nat, q: seq<nat>, stamp: seq<nat>, clock: nat): K
    requires KInv(k) && e < NENV && k.back[e] != Nil
  {
    k.(vm := FreeDir(k.vm, k.envs[e].pgdir), envs := k.envs[e := k.envs[e].(status := ENV_FREE, pgdir := NULL)],
       freeq := [e] + k.freeq, runq := q, link := Unlinked(k, e).next, back := Unlinked(k, e).prev, stamp := stamp,
           clock := clock,
       cur := if k.cur == e then NULL else k.cur, running := k.running && k.cur != e)
  }

  /** The kernel is sound afterwards: the store was not through a null le_prev, and the head and
      the links are those of some list for which the invariant holds. */
  ghost predicate Survives(k: K, e: nat)
    requires KInv(k) && e < NENV
  {
    k.back[e] != Nil
    && exists q, stamp, clock: nat :: Unlinked(k, e).first == At(q, 0) && KInv(Freed(k, e, q, stamp, clock))
  }

  /** Following le_next from y meets x. */
  ghost predicate Leads(next: seq<int>, y: int, x: nat) { exists n: nat :: Follow(next, y, n) == x }

  /** The environment was on the run list before, no live pointer changes, and no stale slot is
      linked to something that leads back to it. */
  ghost predicate StaleOk(k: K, e: nat)
    requires ChainOk(k) && NoDup(k.runq) && e < NENV
  {
    ChainIsList(k);
    && k.back[e] != Nil && StaleLinksAgree(Chain(k), k.runq, e)
    && (k.back[e].NextOf? && k.back[e].elm !in k.runq ==> !Leads(k.link, k.link[e], k.back[e].elm))
  }

  /* ---------- the chain of stale links ---------- */

  lemma {:induction false} FollowLive(next: seq<int>, q: seq<nat>, y: int, n: nat)
    requires Linked(q, next) && (y == NULL || y in q)
    ensures Follow(next, y, n) == NULL || Follow(next, y, n) in q
    decreases n
  {
    if n > 0 && y != NULL {
      var p := Index(q, y);
      assert next[q[p]] == At(q, p + 1);
      FollowLive(next, q, next[y], n - 1);
    }
  }

  /** A stale path climbs in removal time, so it never closes. */
  lemma {:induction false} FollowClimbs(next: seq<int>, q: seq<nat>, stamp: seq<nat>, clock: nat, y: int, n: nat)
    requires Linked(q, next) && Forward(next, q, stamp, clock) && 0 <= y < |next| && Follow(next, y, n) != NULL
             && Follow(next, y, n) !in q
    ensures y !in q && 0 <= Follow(next, y, n) < |next| && stamp[y] <= stamp[Follow(next, y, n)]
    decreases n
  {
    if y in q { FollowLive(next, q, y, n); }
    if n > 0 {
      if next[y] == NULL || next[y] in q { FollowLive(next, q, next[y], n - 1); }
      FollowClimbs(next, q, stamp, clock, next[y], n - 1);
    }
  }

  /** The same path, when only x's link changed and x is not passed on the way. */
  lemma {:induction false} FollowElsewhere(next: seq<int>, to: seq<int>, x: nat, y: int, n: nat) returns (m: nat)
    requires |next| == |to| && x < |next| && Follow(next, y, n) == x
    requires forall z :: 0 <= z < |next| && z != x ==> to[z] == next[z]
    ensures m <= n && Follow(to, y, m) == x
    decreases n
  {
    if y == x || n == 0 || !(0 <= y < |next|) {
      m := 0;
      assert Follow(to, y, 0) == y;
    } else {
      m := FollowElsewhere(next, to, x, next[y], n - 1);
      m := m + 1;
    }
  }

  lemma LeadsStep(next: seq<int>, s: nat, x: nat)
    requires s < |next|
    ensures Leads(next, s, x) <==> s == x || Leads(next, next[s], x)
  {
    if Leads(next, s, x) {
      var n: nat :| Follow(next, s, n) == x;
      if n > 0 { assert Follow(next, next[s], n - 1) == x; }
    }
    if s == x { assert Follow(next, s, 0) == x; }
    if Leads(next, next[s], x) {
      var n: nat :| Follow(next, next[s], n) == x;
      assert Follow(next, s, n + 1) == x;
    }
  }

  /** New removal times for the links after x, a stale slot, is linked to y: slots that lead to x
      come before all others. */
  ghost function Restamp(k: K, x: nat): (st: seq<nat>)
    requires ChainOk(k)
    ensures |st| == NENV
  {
    var m := |k.runq| + 2 + k.clock;
    seq(NENV, s requires 0 <= s < NENV =>
          var r := Rank(k.runq, k.stamp, k.clock, s);
          if r <= m then 2 * m - r - (if Leads(k.link, s, x) then m else 0) else 0)
  }

  lemma RelinkForward(k: K, x: nat, y: int)
    requires ChainOk(k) && NoDup(k.runq) && x < NENV && x !in k.runq && NULL <= y < NENV && !Leads(k.link, y, x)
    ensures Forward(k.link[x := y], k.runq, Restamp(k, x), 2 * (|k.runq| + 2 + k.clock))
  {
    var l, st, m := k.link[x := y], Restamp(k, x), |k.runq| + 2 + k.clock;
    ChainIsList(k);
    forall s | 0 <= s < NENV && s !in k.runq && l[s] != NULL
      ensures 0 <= l[s] < NENV && (l[s] in k.runq || st[s] < st[l[s]])
    {
      LeadsStep(k.link, s, x);
      if s != x {
        RankDrops(Chain(k), k.runq, k.stamp, k.clock, s);
        LeadsStep(k.link, k.link[s], x);
      } else {
        assert Follow(k.link, x, 0) == x;
      }
    }
  }

  /* ---------- when the list survives ---------- */

  /** Two lists of the same members, linked alike, are the same list. */
  lemma {:induction false} SameFrom(a: seq<nat>, b: seq<nat>, la: seq<int>, lb: seq<int>, i: nat)
    requires Linked(a, la) && Linked(b, lb) && At(a, 0) == At(b, 0)
    requires forall x :: x in a && x in b ==> x < |la| && x < |lb| && la[x] == lb[x]
    ensures At(a, i) == At(b, i)
    decreases i
  {
    if i > 0 {
      SameFrom(a, b, la, lb, i - 1);
      if i - 1 < |a| {
        assert la[a[i - 1]] == At(a, i);
        assert lb[b[i - 1]] == At(b, i);
      }
    }
  }

  lemma SameList(a: seq<nat>, b: seq<nat>, la: seq<int>, lb: seq<int>)
    requires Linked(a, la) && Linked(b, lb) && At(a, 0) == At(b, 0)
    requires forall x :: x in a && x in b ==> x < |la| && x < |lb| && la[x] == lb[x]
    ensures a == b
  {
    SameFrom(a, b, la, lb, |a|);
    SameFrom(a, b, la, lb, |b|);
    forall i | 0 <= i < |a| ensures a[i] == b[i] { SameFrom(a, b, la, lb, i); }
  }

  /** Changing the link of one member breaks every list of these members. */
  lemma SuccessorForced(q: seq<nat>, r: seq<nat>, to: seq<int>, next: seq<int>, x: nat)
    requires NoDup(q) && NoDup(r) && Linked(q, to) && Linked(r, next) && (forall s :: s in q <==> s in r)
    requires At(q, 0) == At(r, 0) && x in r && |to| == |next|
    requires forall s :: 0 <= s < |next| && s != x ==> to[s] == next[s]
    ensures to[x] == next[x]
  {
    var p := Index(r, x);
    assert next[r[p]] == At(r, p + 1);
    var w := if p + 1 < |r| then Index(q, r[p + 1]) - 1 else |q| - 1;
    assert q != [] && (p + 1 < |r| ==> r[p + 1] != r[0]);
    assert to[q[w]] == At(q, w + 1) == next[x];
    assert q[w] in r;
    var j := Index(r, q[w]);
    assert next[r[j]] == At(r, j + 1);
  }

  /** Without a changed link only the head itself can be first. */
  lemma HeadForced(q: seq<nat>, r: seq<nat>, next: seq<int>)
    requires NoDup(q) && NoDup(r) && Linked(q, next) && Linked(r, next) && (forall s :: s in q <==> s in r)
    ensures At(q, 0) == At(r, 0)
  {
    if q != [] {
      assert q[0] in q;
      assert r[0] in r;
      var i := Index(q, r[0]);
      var w := if i > 0 then q[i - 1] else q[0];
      assert w in r && (i > 0 ==> next[w] == At(q, i));
      assert next[r[Index(r, w)]] == At(r, Index(r, w) + 1);
    } else if r != [] {
      assert r[0] in r;
    }
  }

  /** What env_free's unlinking of a slot that is not listed does to the forward links. */
  lemma UnlinkedNext(k: K, e: nat)
    requires ChainOk(k) && NoDup(k.runq) && e < NENV && k.back[e] != Nil
    ensures var l := Unlinked(k, e);
            && (k.back[e] == Head ==> l.next == k.link && l.first == k.link[e])
            && (k.back[e].NextOf? ==>
                  && k.back[e].elm < NENV && l.next == k.link[k.back[e].elm := k.link[e]]
                  && l.first == At(k.runq, 0))
  {
    hide Forward;
  }

  /** If the head and the links are those of some list of the runnable environments, it is still
      the run list. */
  lemma ListIsForced(k: K, e: nat, q: seq<nat>)
    requires ChainOk(k) && NoDup(k.runq) && e < NENV && e !in k.runq && k.back[e] != Nil
    requires NoDup(q) && (forall s :: s in q <==> s in k.runq) && Linked(q, Unlinked(k, e).next)
             && Unlinked(k, e).first == At(q, 0)
    ensures q == k.runq
  {
    hide Forward, NoDup;
    UnlinkedNext(k, e);
    var to := Unlinked(k, e).next;
    if k.back[e] == Head {
      HeadForced(q, k.runq, k.link);
    } else if k.back[e].elm in k.runq {
      SuccessorForced(q, k.runq, to, k.link, k.back[e].elm);
    }
    SameList(q, k.runq, to, k.link);
  }

  /** A stale path from y to x is cut by no removal order in which x's link goes to y. */
  lemma NoWayBack(next: seq<int>, q: seq<nat>, stamp: seq<nat>, clock: nat, x: nat, y: int)
    requires x < |next| && x !in q && NULL <= y < |next|
    requires Linked(q, next[x := y]) && Forward(next[x := y], q, stamp, clock)
    ensures !Leads(next, y, x)
  {
    if Leads(next, y, x) {
      var to := next[x := y];
      var n: nat :| Follow(next, y, n) == x;
      var m := FollowElsewhere(next, to, x, y, n);
      assert to[x] == y;
      if y >= 0 { FollowClimbs(to, q, stamp, clock, y, m); }
    }
  }

  lemma SurvivesOnlyStaleOk(k: K, e: nat)
    requires KInv(k) && e < NENV && k.envs[e].status == ENV_NOT_RUNNABLE && Survives(k, e)
    ensures StaleOk(k, e)
  {
    hide Inv, DirsOk, NoDup, Linked, Backed, Forward, StaleLinksAgree, Leads;
    var q, stamp, clock: nat :| Unlinked(k, e).first == At(q, 0) && KInv(Freed(k, e, q, stamp, clock));
    FreedParts(k, e, q, stamp, clock);
    ListIsForced(k, e, q);
    ChainIsList(k);
    var l := Unlinked(k, e);
    ListIsChain(l, q);
    StaleRemoveIff(Chain(k), k.runq, e);
    UnlinkedNext(k, e);
    if k.back[e].NextOf? && k.back[e].elm !in k.runq {
      LinkInPool(k, e);
      NoWayBack(k.link, q, stamp, clock, k.back[e].elm, k.link[e]);
    }
  }

  lemma LinkInPool(k: K, e: nat)
    requires ChainOk(k) && NoDup(k.runq) && e < NENV
    ensures NULL <= k.link[e] < NENV
  {
    hide Forward;
    ChainIsList(k);
  }

  lemma ListIsChain(l: Links, q: seq<nat>)
    requires |l.next| == |l.prev| && NoDup(q) && Linked(q, l.next) && Backed(q, l.prev) && l.first == At(q, 0)
    ensures Represents(l, q)
  {}

  lemma FreedParts(k: K, e: nat, q: seq<nat>, stamp: seq<nat>, clock: nat)
    requires KInv(k) && e < NENV && k.envs[e].status == ENV_NOT_RUNNABLE && k.back[e] != Nil
    requires KInv(Freed(k, e, q, stamp, clock))
    ensures NoDup(k.runq) && NoDup(q) && e !in k.runq && (forall s :: s in q <==> s in k.runq)
    ensures var l := Unlinked(k, e); Linked(q, l.next) && Backed(q, l.prev) && Forward(l.next, q, stamp, clock)
    ensures ChainOk(k)
  {
    hide Inv, DirsOk, Linked, Backed, Forward, FreeDir;
    var f := Freed(k, e, q, stamp, clock);
    forall s ensures s in q <==> s in k.runq {
      assert s in q <==> 0 <= s < NENV && f.envs[s].status == ENV_RUNNABLE;
    }
  }

  /** The slot's own fields and the free list after env_free. */
  lemma FreedEnvsOk(k: K, f: K, e: nat)
    requires EnvsOk(k) && e < NENV && k.envs[e].status != ENV_FREE
    requires f.envs == k.envs[e := k.envs[e].(status := ENV_FREE, pgdir := NULL)] && f.freeq == [e] + k.freeq
    requires NoDup(f.runq) && forall x :: x in f.runq <==> x in k.runq && x != e
    requires f.cur == (if k.cur == e then NULL else k.cur) && f.running == (k.running && k.cur != e)
    ensures EnvsOk(f)
  {
    assert NoDup(f.freeq);
    hide NoDup;
    assert forall x :: x in f.freeq <==> x in k.freeq || x == e;
  }

  /** The invariant after env_free, for a list that fits the links. */
  lemma FreedKInv(k: K, e: nat, q: seq<nat>, stamp: seq<nat>, clock: nat)
    requires KInv(k) && e < NENV && k.envs[e].status != ENV_FREE && k.back[e] != Nil
    requires NoDup(q) && (forall x :: x in q <==> x in k.runq && x != e) && |stamp| == NENV
    requires var l := Unlinked(k, e); Linked(q, l.next) && Backed(q, l.prev) && Forward(l.next, q, stamp, clock)
    ensures KInv(Freed(k, e, q, stamp, clock))
  {
    hide Inv, Linked, Backed, Forward, FreeDir, NoDup, DirsOk, Unlinked;
    UnlinkedSize(k, e);
    var f := Freed(k, e, q, stamp, clock);
    FreedEnvsOk(k, f, e);
    FreedDirs(k, f, e);
    assert ChainOk(f);
  }

  lemma UnlinkedSize(k: K, e: nat)
    requires ChainOk(k) && NoDup(k.runq) && e < NENV && k.back[e] != Nil
    ensures |Unlinked(k, e).next| == |Unlinked(k, e).prev| == NENV
  {}

  /** LIST_REMOVE of a member is the Dequeue of the runs. */
  lemma UnlinkedLive(k: K, e: nat)
    requires ChainOk(k) && NoDup(k.runq) && e in k.runq
    ensures e < NENV && k.back[e] != Nil
    ensures var (l, w) := (Unlinked(k, e), Dequeue(k, e));
            l.next == w.link && l.prev == w.back && l.first == At(w.runq, 0)
  {
    hide Forward;
    ChainIsList(k);
    RemoveNeighbours(Chain(k), k.runq, Index(k.runq, e));
    RemoveRepresents(Chain(k), k.runq, e);
  }

  lemma RunnableSurvives(k: K, e: nat)
    requires KInv(k) && e in k.runq
    ensures e < NENV && k.envs[e].status == ENV_RUNNABLE && Survives(k, e)
  {
    hide Inv, DirsOk, Linked, Backed, Forward, NoDup, Dequeue, Unlinked;
    UnlinkedLive(k, e);
    DequeueKeeps(k, e);
    var w := Dequeue(k, e);
    ChainParts(w);
    assert k.envs[e].status == ENV_RUNNABLE;
    FreedKInv(k, e, w.runq, w.stamp, w.clock);
  }

  /** After agreeing stale links are used, the list is what it was. */
  lemma StaleOkSurvives(k: K, e: nat)
    requires KInv(k) && e < NENV && k.envs[e].status == ENV_NOT_RUNNABLE && StaleOk(k, e)
    ensures Survives(k, e)
  {
    hide Inv, DirsOk, Linked, Backed, Forward, NoDup, StaleLinksAgree, Leads, Represents, Unlinked;
    KInvParts(k);
    assert e !in k.runq && NoDup(k.runq);
    StaleChain(k, e);
    UnlinkedNext(k, e);
    if k.back[e].NextOf? && k.back[e].elm !in k.runq {
      LinkInPool(k, e);
      RelinkForward(k, k.back[e].elm, k.link[e]);
      FreedKInv(k, e, k.runq, Restamp(k, k.back[e].elm), 2 * (|k.runq| + 2 + k.clock));
    } else {
      StaleSame(k, e);
      FreedKInv(k, e, k.runq, k.stamp, k.clock);
    }
  }

  lemma StaleChain(k: K, e: nat)
    requires ChainOk(k) && NoDup(k.runq) && e < NENV && e !in k.runq && StaleOk(k, e)
    ensures var l := Unlinked(k, e); Linked(k.runq, l.next) && Backed(k.runq, l.prev) && l.first == At(k.runq, 0)
  {
    hide Forward, Leads;
    ChainIsList(k);
    StaleRemoveIff(Chain(k), k.runq, e);
  }

  lemma StaleSame(k: K, e: nat)
    requires ChainOk(k) && NoDup(k.runq) && e < NENV && StaleOk(k, e)
             && !(k.back[e].NextOf? && k.back[e].elm !in k.runq)
    ensures Unlinked(k, e).next == k.link
  {
    hide Forward, Leads;
    UnlinkedNext(k, e);
  }

  /** env_free of a live environment leaves a sound kernel exactly when the environment is runnable,
      or it was on the run list before and its stale links still agree with the list. */
  lemma DestroyIff(k: K, e: nat)
    requires KInv(k) && e < NENV && k.envs[e].status != ENV_FREE
    ensures Survives(k, e) <==> k.envs[e].status == ENV_RUNNABLE || StaleOk(k, e)
  {
    hide Inv, DirsOk, ChainOk, Survives, StaleOk;
    if k.envs[e].status == ENV_RUNNABLE {
      assert e in k.runq;
      RunnableSurvives(k, e);
    } else if StaleOk(k, e) {
      StaleOkSurvives(k, e);
    } else if Survives(k, e) {
      SurvivesOnlyStaleOk(k, e);
    }
  }

  /** What the runs do when a runnable environment is destroyed is this env_free. */
  lemma FreedIsEnvFree(k: K, e: nat)
    requires KInv(k) && e in k.runq
    ensures e < NENV && k.back[e] != Nil
    ensures var u := EnvFree(k, e);
            Freed(k, e, u.runq, u.stamp, u.clock)
                == u.(cur := if k.cur == e then NULL else k.cur, running := k.running && k.cur != e)
  {
    hide Inv, DirsOk, FreeDir, Linked, Backed, Forward, NoDup, Unlinked;
    UnlinkedLive(k, e);
    DequeueFrame(k, e);
  }

  /** The plainest loss: a child that was never runnable is destroyed; its le_prev is null. */
  lemma ForkThenDestroy(k: K)
    requires KInv(k) && k.running && SysEnvAlloc(k).1 >= 0 && k.back[k.freeq[0]] == Nil
    ensures var (w, c) := (SysEnvAlloc(k).0, k.freeq[0]);
            KInv(w) && 0 <= c < NENV && w.envs[c].status == ENV_NOT_RUNNABLE && !Survives(w, c)
  {
    hide KInv, Inv, CopyPages;
    KInvParts(k);
    ForkKeeps(k);
    assert k.freeq[0] in k.freeq;
  }

  /** An environment that blocked last can be destroyed: its links still name its neighbours. */
  lemma BlockThenDestroy(k: K, e: nat)
    requires KInv(k) && e in k.runq
    ensures var w := SetStatusOf(k, e, ENV_NOT_RUNNABLE);
            KInv(w) && w.envs[e].status == ENV_NOT_RUNNABLE && Survives(w, e)
  {
    hide Inv, DirsOk, Survives;
    assert k.envs[e].status == ENV_RUNNABLE;
    SetStatusKInv(k, e, ENV_NOT_RUNNABLE);
    var w := SetStatusOf(k, e, ENV_NOT_RUNNABLE);
    BlockedLinksAgree(k, w, e);
    StaleOkSurvives(w, e);
  }

  lemma BlockedLinksAgree(k: K, w: K, e: nat)
    requires ChainOk(k) && NoDup(k.runq) && e in k.runq && ChainOk(w) && NoDup(w.runq) && e < NENV
    requires var d := Dequeue(k, e); w.runq == d.runq && w.link == d.link && w.back == d.back
    ensures StaleOk(w, e)
  {
    hide Forward;
    var p := Index(k.runq, e);
    WithoutMembers(k.runq, e);
    assert k.link[k.runq[p]] == At(k.runq, p + 1) && k.back[k.runq[p]] == Back(k.runq, p);
    assert p + 1 < |k.runq| ==> k.runq[p + 1] in w.runq;
  }
}
