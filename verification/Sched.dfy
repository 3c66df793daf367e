/** Weighted fairness of sched_yield (lib/sched.c) while the run list does not change: the
    selections are periodic, and each period gives every environment max(1, env_pri)
    consecutive ticks. */
module Sched {
  import opened Queue
  import opened EnvState

  /* ---------- weighted cycles ---------- */

  /** Ticks before position i of a cycle with these weights. */
  function Prefix(ws: seq<nat>, i: nat): nat
    requires i <= |ws|
    decreases i
  {
    if i == 0 then 0 else Prefix(ws, i - 1) + ws[i - 1]
  }

  function Total(ws: seq<nat>): nat { Prefix(ws, |ws|) }

  /** i owns slot s of the cycle. */
  ghost predicate Owns(ws: seq<nat>, i: nat, s: nat) { i < |ws| && Prefix(ws, i) <= s < Prefix(ws, i + 1) }

  lemma {:induction false} PrefixMonotone(ws: seq<nat>, i: nat, j: nat)
    requires i <= j <= |ws|
    ensures Prefix(ws, i) <= Prefix(ws, j)
    decreases j
  {
    if i < j { PrefixMonotone(ws, i, j - 1); }
  }

  lemma OwnerUnique(ws: seq<nat>, i: nat, j: nat, s: nat)
    requires Owns(ws, i, s) && Owns(ws, j, s)
    ensures i == j
  {
    if i < j { PrefixMonotone(ws, i + 1, j); }
    if j < i { PrefixMonotone(ws, j + 1, i); }
  }

  /** The slot reached after x slots, going around a cycle of length t. */
  function Wrap(x: nat, t: nat): (r: nat)
    requires t > 0
    ensures r < t
    decreases x
  {
    if x < t then x else Wrap(x - t, t)
  }

  lemma {:induction false} WrapNext(x: nat, t: nat)
    requires t > 0
    ensures Wrap(x + 1, t) == if Wrap(x, t) + 1 == t then 0 else Wrap(x, t) + 1
    decreases x
  {
    if x >= t { WrapNext(x - t, t); }
  }

  lemma WrapIdem(x: nat, t: nat)
    requires t > 0
    ensures Wrap(Wrap(x, t), t) == Wrap(x, t)
  {}

  /** How many of the n slots from s on, taken around the cycle, belong to i. */
  ghost function Hits(ws: seq<nat>, i: nat, s: nat, n: nat): nat
    requires Total(ws) > 0
    decreases n
  {
    if n == 0 then 0 else Hits(ws, i, s, n - 1) + (if Owns(ws, i, Wrap(s + n - 1, Total(ws))) then 1 else 0)
  }

  lemma {:induction false} HitsSplit(ws: seq<nat>, i: nat, s: nat, m: nat, n: nat)
    requires Total(ws) > 0
    ensures Hits(ws, i, s, m + n) == Hits(ws, i, s, m) + Hits(ws, i, s + m, n)
    decreases n
  {
    if n > 0 { HitsSplit(ws, i, s, m, n - 1); }
  }

  /** From the start of the cycle, i is hit by the part of its interval below n. */
  lemma {:induction false} HitsFromStart(ws: seq<nat>, i: nat, n: nat)
    requires Total(ws) > 0 && i < |ws| && n <= Total(ws)
    ensures Hits(ws, i, 0, n)
            == (if n <= Prefix(ws, i) then 0 else if n >= Prefix(ws, i + 1) then ws[i] else n - Prefix(ws, i))
    decreases n
  {
    if n > 0 { HitsFromStart(ws, i, n - 1); }
  }

  /** Any full turn of the cycle, wherever it starts, gives i its weight. */
  lemma {:induction false} HitsOneTurn(ws: seq<nat>, i: nat, s: nat)
    requires Total(ws) > 0 && i < |ws|
    ensures Hits(ws, i, s, Total(ws)) == ws[i]
    decreases s
  {
    var t := Total(ws);
    if s == 0 {
      PrefixMonotone(ws, i + 1, |ws|);
      HitsFromStart(ws, i, t);
    } else {
      HitsOneTurn(ws, i, s - 1);
      HitsSplit(ws, i, s - 1, 1, t);
      HitsSplit(ws, i, s - 1, t, 1);
      assert Hits(ws, i, s - 1, 1) == Hits(ws, i, s - 1, 0) + (if Owns(ws, i, Wrap(s - 1, t)) then 1 else 0);
      assert Hits(ws, i, s - 1 + t, 1) == Hits(ws, i, s - 1 + t, 0)
             + (if Owns(ws, i, Wrap(s - 1 + t, t)) then 1 else 0);
      assert Wrap(s - 1 + t, t) == Wrap(s - 1, t);
    }
  }

  /** m full turns. */
  function Rounds(t: nat, m: nat): (r: nat)
    ensures r == m * t
    decreases m
  {
    if m == 0 then 0 else Rounds(t, m - 1) + t
  }

  lemma {:induction false} HitsTurns(ws: seq<nat>, i: nat, s: nat, m: nat)
    requires Total(ws) > 0 && i < |ws|
    ensures Hits(ws, i, s, Rounds(Total(ws), m)) == Rounds(ws[i], m)
    decreases m
  {
    if m > 0 {
      HitsTurns(ws, i, s, m - 1);
      HitsSplit(ws, i, s, Rounds(Total(ws), m - 1), Total(ws));
      HitsOneTurn(ws, i, s + Rounds(Total(ws), m - 1));
    }
  }

  /* ---------- the scheduler ---------- */

  function Weight(env: Env): nat { if AsInt(env.pri) > 1 then AsInt(env.pri) else 1 }

  /** The weights of the run list, in list order. */
  function Weights(k: K): (ws: seq<nat>)
    ensures |ws| == |k.runq|
  {
    seq(|k.runq|, i requires 0 <= i < |k.runq| => if k.runq[i] < |k.envs| then Weight(k.envs[k.runq[i]]) else 1)
  }

  ghost predicate Ready(k: K) { EnvsOk(k) && ChainOk(k) && k.runq != [] }

  /** The iterator stands on a list member with less than its weight left. */
  ghost predicate Settled(k: K) {
    Ready(k) && k.iter in k.runq && k.ts < Weight(k.envs[k.iter])
  }

  /** n clock ticks. */
  ghost function Ticks(k: K, n: nat): (r: K)
    requires Ready(k)
    ensures Ready(r) && r == k.(cur := r.cur, running := r.running, iter := r.iter, ts := r.ts)
    decreases n
  {
    if n == 0 then k
    else
      var r := Ticks(k, n - 1);
      YieldRuns(r);
      Yield(r)
  }

  /** Who runs after the n-th tick, counted from 0. */
  ghost function Pick(k: K, n: nat): int
    requires Ready(k)
  {
    Ticks(k, n + 1).cur
  }

  /** Slots of the cycle used up, from 1 to the total weight. */
  ghost function Position(k: K): nat
    requires Settled(k)
  {
    Prefix(Weights(k), Index(k.runq, k.iter)) + Weight(k.envs[k.iter]) - (if k.ts > 0 then k.ts else 0)
  }

  lemma TotalPositive(k: K)
    requires Ready(k)
    ensures Total(Weights(k)) > 0
  {
    PrefixMonotone(Weights(k), 1, |k.runq|);
    assert Prefix(Weights(k), 1) == Prefix(Weights(k), 0) + Weights(k)[0];
  }

  lemma PositionInCycle(k: K)
    requires Settled(k)
    ensures var (ws, i) := (Weights(k), Index(k.runq, k.iter));
            && Prefix(ws, i + 1) == Prefix(ws, i) + Weight(k.envs[k.iter])
            && Prefix(ws, i) < Position(k) <= Prefix(ws, i + 1) <= Total(ws)
  {
    PrefixMonotone(Weights(k), Index(k.runq, k.iter) + 1, |k.runq|);
  }

  lemma IndexOf(q: seq<nat>, i: nat)
    requires NoDup(q) && i < |q|
    ensures Index(q, q[i]) == i
  {}

  /** One turn of the loop suffices when the iterator is on the list: the owner of the next
      slot runs, and the position moves by one slot around the cycle. */
  lemma YieldAdvances(k: K, j: nat)
    requires Settled(k) && Total(Weights(k)) > 0 && Owns(Weights(k), j, Wrap(Position(k), Total(Weights(k))))
    ensures var y := Yield(k);
            && Settled(y) && y == k.(cur := y.cur, running := y.running, iter := y.iter, ts := y.ts)
            && y.cur == k.runq[j]
            && Position(y) == Wrap(Position(k), Total(Weights(k))) + 1
  {
    var i := Index(k.runq, k.iter);
    var n := if k.ts > 0 then i else if i + 1 < |k.runq| then i + 1 else 0;
    YieldNow(k, n);
    YieldRuns(k);
    NextOwner(k, n);
    OwnerUnique(Weights(k), n, j, Wrap(Position(k), Total(Weights(k))));
    ReadyNoDup(k);
    hide EnvsOk, ChainOk, Yield, Owns, Position, Weights;
    PlaceAfter(k, Yield(k), n);
  }

  lemma PlaceAfter(k: K, y: K, n: nat)
    requires Settled(k) && Ready(y) && n < |k.runq| && 0 <= k.runq[n] < |k.envs| && NoDup(k.runq)
    requires n == if k.ts > 0 then Index(k.runq, k.iter)
             else if Index(k.runq, k.iter) + 1 < |k.runq| then Index(k.runq, k.iter) + 1 else 0
    requires y == k.(cur := y.cur, running := y.running, iter := y.iter, ts := y.ts)
    requires y.iter == k.runq[n] && y.ts == (if k.ts > 0 then k.ts else AsInt(k.envs[k.runq[n]].pri)) - 1
    ensures Settled(y) && Total(Weights(k)) > 0 && Position(y) == Wrap(Position(k), Total(Weights(k))) + 1
  {
    hide EnvsOk, ChainOk;
    TotalPositive(k);
    NextOwner(k, n);
    IndexOf(k.runq, n);
    assert Weights(y) == Weights(k);
    PositionInCycle(k);
  }

  lemma ReadyNoDup(k: K)
    requires Ready(k)
    ensures NoDup(k.runq)
  {}

  /** With the iterator on the list, one turn of the loop selects. */
  lemma YieldNow(k: K, n: nat)
    requires Ready(k) && k.iter in k.runq
    requires n == if k.ts > 0 then Index(k.runq, k.iter)
             else if Index(k.runq, k.iter) + 1 < |k.runq| then Index(k.runq, k.iter) + 1 else 0
    ensures n < |k.runq| && 0 <= k.runq[n] < |k.envs|
    ensures var y := Yield(k);
            && y.iter == y.cur == k.runq[n] && y.running
            && y.ts == (if k.ts > 0 then k.ts else AsInt(k.envs[k.runq[n]].pri)) - 1
  {
    assert k.link[k.runq[Index(k.runq, k.iter)]] == At(k.runq, Index(k.runq, k.iter) + 1);
    assert k.runq[n] in k.runq;
    var a := Advance(k);
    assert a.iter == k.runq[n];
  }

  lemma NextOwner(k: K, n: nat)
    requires Settled(k) && Total(Weights(k)) > 0
    requires n == if k.ts > 0 then Index(k.runq, k.iter)
             else if Index(k.runq, k.iter) + 1 < |k.runq| then Index(k.runq, k.iter) + 1 else 0
    ensures Owns(Weights(k), n, Wrap(Position(k), Total(Weights(k))))
    ensures k.ts <= 0 ==> Wrap(Position(k), Total(Weights(k))) == Prefix(Weights(k), n)
    ensures k.ts > 0 ==> Position(k) < Total(Weights(k))
  {
    hide EnvsOk, ChainOk;
    var ws, i := Weights(k), Index(k.runq, k.iter);
    PositionInCycle(k);
    PrefixMonotone(ws, n + 1, |ws|);
    assert Prefix(ws, n + 1) == Prefix(ws, n) + ws[n] && ws[n] > 0;
  }

  /** Every slot has an owner. */
  lemma {:induction false} OwnerExists(ws: seq<nat>, s: nat, n: nat) returns (j: nat)
    requires n <= |ws| && s < Prefix(ws, n)
    ensures Owns(ws, j, s)
    decreases n
  {
    if s >= Prefix(ws, n - 1) { j := n - 1; } else { j := OwnerExists(ws, s, n - 1); }
  }

  /** After n ticks of a settled scheduler the position is n slots further around. */
  lemma {:induction false} TicksPosition(k: K, n: nat)
    requires Settled(k) && Total(Weights(k)) > 0
    ensures Settled(Ticks(k, n)) && Weights(Ticks(k, n)) == Weights(k)
    ensures Wrap(Position(Ticks(k, n)), Total(Weights(k))) == Wrap(Position(k) + n, Total(Weights(k)))
    decreases n
  {
    hide EnvsOk, ChainOk, Yield, Wrap, Owns;
    if n > 0 {
      TicksPosition(k, n - 1);
      var r := Ticks(k, n - 1);
      var j := OwnerExists(Weights(k), Wrap(Position(r), Total(Weights(k))), |k.runq|);
      YieldAdvances(r, j);
      WrapNext(Wrap(Position(r), Total(Weights(k))), Total(Weights(k)));
      WrapIdem(Position(r), Total(Weights(k)));
      WrapNext(Position(k) + n - 1, Total(Weights(k)));
    }
  }

  /** The n-th selection of a settled scheduler is the owner of slot Position + n of the cycle:
      each pass selects each environment in its own run of max(1, env_pri) consecutive ticks. */
  lemma PickIsOwner(k: K, n: nat, i: nat)
    requires Settled(k) && Total(Weights(k)) > 0 && i < |k.runq|
    ensures Pick(k, n) == k.runq[i] <==> Owns(Weights(k), i, Wrap(Position(k) + n, Total(Weights(k))))
  {
    TicksPosition(k, n);
    var r := Ticks(k, n);
    var j := OwnerExists(Weights(k), Wrap(Position(r), Total(Weights(k))), |k.runq|);
    YieldAdvances(r, j);
    if Owns(Weights(k), i, Wrap(Position(k) + n, Total(Weights(k)))) {
      OwnerUnique(Weights(k), i, j, Wrap(Position(r), Total(Weights(k))));
    }
  }

  /** How often e runs in the n ticks from the first one on. */
  ghost function Selections(k: K, e: int, first: nat, n: nat): nat
    requires Ready(k)
    decreases n
  {
    if n == 0 then 0 else Selections(k, e, first, n - 1) + (if Pick(k, first + n - 1) == e then 1 else 0)
  }

  lemma {:induction false} SelectionsAreHits(k: K, i: nat, first: nat, n: nat)
    requires Settled(k) && Total(Weights(k)) > 0 && i < |k.runq|
    ensures Selections(k, k.runq[i], first, n) == Hits(Weights(k), i, Position(k) + first, n)
    decreases n
  {
    hide Ready, Ticks, Wrap, Owns;
    if n > 0 {
      SelectionsAreHits(k, i, first, n - 1);
      PickIsOwner(k, first + n - 1, i);
    }
  }

  /** Weighted fairness: on a stable run list, any window of m full rounds, wherever it starts,
      selects every member exactly m * max(1, env_pri) times. */
  lemma WeightedFair(k: K, i: nat, first: nat, m: nat)
    requires Settled(k) && i < |k.runq|
    ensures Selections(k, k.runq[i], first, m * Total(Weights(k))) == m * Weight(k.envs[k.runq[i]])
  {
    TotalPositive(k);
    SelectionsAreHits(k, i, first, Rounds(Total(Weights(k)), m));
    HitsTurns(Weights(k), i, Position(k) + first, m);
  }

  /** Whatever stale iterator and left-over time the scheduler starts from, it is settled after
      at most max(0, ts) + 1 ticks. */
  lemma {:induction false} Settles(k: K) returns (n: nat)
    requires Ready(k)
    ensures n <= (if k.ts > 0 then k.ts else 0) + 1 && Settled(Ticks(k, n))
    decreases if k.ts > 0 then k.ts else 0
  {
    hide EnvsOk, ChainOk, Yield;
    assert Ticks(k, 1) == Yield(k) by { assert Ticks(k, 0) == k; }
    YieldRuns(k);
    YieldSettles(k);
    var y := Yield(k);
    if Settled(y) {
      n := 1;
    } else {
      var m := Settles(y);
      TicksShift(k, m);
      n := m + 1;
    }
  }

  lemma {:induction false} TicksShift(k: K, n: nat)
    requires Ready(k)
    ensures Ready(Yield(k)) && Ticks(k, n + 1) == Ticks(Yield(k), n)
    decreases n
  {
    hide EnvsOk, ChainOk, Yield;
    YieldRuns(k);
    if n == 0 {
      assert Ticks(k, 1) == Yield(Ticks(k, 0));
    } else {
      TicksShift(k, n - 1);
    }
  }

  /** A tick leaves either a settled scheduler or strictly less time. */
  lemma {:induction false} YieldSettles(k: K)
    requires Ready(k)
    ensures Settled(Yield(k))
            || (k.ts > 0 && k.iter != NULL && k.envs[k.iter].status == ENV_RUNNABLE && Yield(k).ts < k.ts)
    decreases IterRank(k), if k.ts > 0 then k.ts else 0
  {
    hide EnvsOk, ChainOk, Yield, Advance, IterRank, NoDup;
    AdvanceProgress(k);
    YieldStep(k);
    var a := Advance(k);
    if !(a.iter != NULL && a.envs[a.iter].status == ENV_RUNNABLE) {
      YieldSettles(a);
    }
  }

  /** One turn: it runs the iterator, or goes on from a state with less rank or time. */
  lemma YieldStep(k: K)
    requires Ready(k)
    ensures var a := Advance(k);
            && NULL <= a.iter < |k.envs| && a.envs == k.envs && a.runq == k.runq
            && EnvsOk(a) && ChainOk(a)
            && (a.iter != NULL && a.envs[a.iter].status == ENV_RUNNABLE ==>
                  && Yield(k) == a.(cur := a.iter, running := true) && a.iter in k.runq
                  && (if k.ts > 0 then a.iter == k.iter && a.ts == k.ts - 1 else a.ts < Weight(k.envs[a.iter])))
            && (!(a.iter != NULL && a.envs[a.iter].status == ENV_RUNNABLE) ==>
                  && Yield(k) == Yield(a)
                  && ((k.ts > 0 && a.iter == k.iter && a.ts == k.ts - 1) || (k.ts <= 0 && IterRank(a) < IterRank(k)))
                  && (k.ts > 0 ==> IterRank(a) == IterRank(k)))
            && EnvsOk(Yield(k)) && ChainOk(Yield(k)) && Yield(k).runq == k.runq && Yield(k).envs == k.envs
  {
    hide Forward, Linked, NoDup;
    AdvanceProgress(k);
    YieldRuns(k);
    assert k.runq[0] in k.runq;
  }
}
