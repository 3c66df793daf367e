/** The intrusive doubly linked lists of include/queue.h.

    A list is a head pointer plus, for every element of a fixed pool, a forward link
    (le_next) and a back link (le_prev) that names the pointer which points at the element.
    The macros are the functions InsertHeadLinks and RemoveLinks on a snapshot of those links; the class
    List performs them in place. */
module Queue {

  const NULL: int := -1

  /** What le_prev holds: nothing yet, the address of the head, or the address of the
      le_next field of another element. */
  datatype Slot = Nil | Head | NextOf(elm: nat)

  datatype Links = Links(first: int, next: seq<int>, prev: seq<Slot>)

  ghost predicate NoDup<T>(s: seq<T>) {
    forall i, j :: 0 <= i < j < |s| ==> s[i] != s[j]
  }

  ghost function Index<T>(s: seq<T>, e: T): (k: nat)
    requires e in s
    ensures k < |s| && s[k] == e
  {
    var k :| 0 <= k < |s| && s[k] == e; k
  }

  ghost function Without<T>(s: seq<T>, e: T): seq<T> {
    if e in s then s[..Index(s, e)] + s[Index(s, e) + 1..] else s
  }

  /** The i-th element as a pointer: NULL past the end. */
  function At(items: seq<nat>, i: nat): int {
    if i < |items| then items[i] else NULL
  }

  function Back(items: seq<nat>, i: nat): Slot
    requires i < |items|
  {
    if i == 0 then Head else NextOf(items[i - 1])
  }

  /** The links form a well-formed list holding exactly items, in this order. */
  ghost predicate Represents(l: Links, items: seq<nat>) {
    && |l.next| == |l.prev|
    && NoDup(items)
    && (forall i :: 0 <= i < |items| ==> items[i] < |l.next|)
    && l.first == At(items, 0)
    && (forall i {:trigger l.next[items[i]]} :: 0 <= i < |items| ==> l.next[items[i]] == At(items, i + 1))
    && (forall i {:trigger l.prev[items[i]]} :: 0 <= i < |items| ==> l.prev[items[i]] == Back(items, i))
  }

  /** Links that may be followed without leaving the pool. */
  predicate WellTyped(l: Links) {
    && |l.next| == |l.prev|
    && NULL <= l.first < |l.next|
    && (forall x :: 0 <= x < |l.next| ==> NULL <= l.next[x] < |l.next|)
    && (forall x :: 0 <= x < |l.prev| ==> l.prev[x].NextOf? ==> l.prev[x].elm < |l.next|)
  }

  function InsertHeadLinks(l: Links, e: nat): Links
    requires WellTyped(l) && e < |l.next|
  {
    var prev := if l.first != NULL then l.prev[l.first := NextOf(e)] else l.prev;
    Links(e, l.next[e := l.first], prev[e := Head])
  }

  function RemoveLinks(l: Links, e: nat): Links
    requires WellTyped(l) && e < |l.next| && l.prev[e] != Nil
  {
    var prev := if l.next[e] != NULL then l.prev[l.next[e] := l.prev[e]] else l.prev;
    match l.prev[e]
    case Head => Links(l.next[e], l.next, prev)
    case NextOf(x) => Links(l.first, l.next[x := l.next[e]], prev)
  }

  /** le_prev after e is inserted at the head of items. */
  function PrevInserted(prev: seq<Slot>, items: seq<nat>, e: nat): (r: seq<Slot>)
    requires e < |prev|
    ensures |r| == |prev|
  {
    (if items != [] && items[0] < |prev| then prev[items[0] := NextOf(e)] else prev)[e := Head]
  }

  /** le_prev after element k of items is removed: only its successor's changes. */
  function PrevRemoved(prev: seq<Slot>, items: seq<nat>, k: nat): (r: seq<Slot>)
    requires k < |items|
    ensures |r| == |prev|
  {
    if k + 1 < |items| && items[k + 1] < |prev| then prev[items[k + 1] := Back(items, k)] else prev
  }

  lemma InsertHeadRepresents(l: Links, items: seq<nat>, e: nat)
    requires WellTyped(l) && Represents(l, items)
    requires e < |l.next| && e !in items
    ensures Represents(InsertHeadLinks(l, e), [e] + items)
    ensures WellTyped(InsertHeadLinks(l, e))
  {
    var r, xs := InsertHeadLinks(l, e), [e] + items;
    forall i | 0 <= i < |xs|
      ensures xs[i] < |r.next| && r.next[xs[i]] == At(xs, i + 1) && r.prev[xs[i]] == Back(xs, i)
    {
      if i > 0 { assert xs[i] == items[i - 1]; }
    }
  }

  /** LIST_REMOVE on a list element writes at most its two neighbours. */
  lemma RemoveNeighbours(l: Links, items: seq<nat>, k: nat)
    requires WellTyped(l) && Represents(l, items) && k < |items|
    ensures l.prev[items[k]] == Back(items, k)
    ensures var r := RemoveLinks(l, items[k]);
            && r.next == (if k == 0 then l.next else l.next[items[k - 1] := At(items, k + 1)])
            && r.prev == (if k + 1 < |items| then l.prev[items[k + 1] := Back(items, k)] else l.prev)
            && r.first == (if k == 0 then At(items, 1) else l.first)
  {
    assert l.next[items[k]] == At(items, k + 1);
    assert l.prev[items[k]] == Back(items, k);
  }

  lemma RemoveAtLink(l: Links, items: seq<nat>, k: nat, i: nat)
    requires WellTyped(l) && Represents(l, items) && k < |items| && i < |items| - 1
    ensures l.prev[items[k]] != Nil
    ensures var r, xs := RemoveLinks(l, items[k]), items[..k] + items[k + 1..];
            xs[i] < |r.next| && r.next[xs[i]] == At(xs, i + 1) && r.prev[xs[i]] == Back(xs, i)
  {
    RemoveNeighbours(l, items, k);
    var j := if i < k then i else i + 1;
    assert l.next[items[j]] == At(items, j + 1);
    assert l.prev[items[j]] == Back(items, j);
    assert j != k && (k > 0 && j != k - 1 ==> items[j] != items[k - 1]);
    assert k + 1 < |items| && j != k + 1 ==> items[j] != items[k + 1];
  }

  lemma RemoveAtRepresents(l: Links, items: seq<nat>, k: nat)
    requires WellTyped(l) && Represents(l, items) && k < |items|
    ensures l.prev[items[k]] != Nil
    ensures Represents(RemoveLinks(l, items[k]), items[..k] + items[k + 1..])
    ensures WellTyped(RemoveLinks(l, items[k]))
  {
    var xs := items[..k] + items[k + 1..];
    RemoveNeighbours(l, items, k);
    forall i | 0 <= i < |xs|
      ensures var r := RemoveLinks(l, items[k]);
              xs[i] < |r.next| && r.next[xs[i]] == At(xs, i + 1) && r.prev[xs[i]] == Back(xs, i)
    {
      RemoveAtLink(l, items, k, i);
    }
  }

  lemma RemoveRepresents(l: Links, items: seq<nat>, e: nat)
    requires WellTyped(l) && Represents(l, items) && e in items
    ensures l.prev[e] != Nil
    ensures Represents(RemoveLinks(l, e), Without(items, e))
    ensures WellTyped(RemoveLinks(l, e))
    ensures RemoveLinks(l, e).next[e] == l.next[e]
    ensures forall x :: 0 <= x < |l.next| && x !in items ==> RemoveLinks(l, e).next[x] == l.next[x]
  {
    RemoveAtRepresents(l, items, Index(items, e));
    RemoveNeighbours(l, items, Index(items, e));
  }

  lemma WithoutMembers<T>(s: seq<T>, e: T)
    requires NoDup(s)
    ensures NoDup(Without(s, e))
    ensures forall x :: x in Without(s, e) <==> x in s && x != e
  {
    if e in s {
      var k := Index(s, e);
      var w := Without(s, e);
      forall x | x in s && x != e ensures x in w {
        var i := Index(s, x);
        assert w[if i < k then i else i - 1] == x;
      }
    }
  }

  /** LIST_REMOVE on an element that is not on the list follows its stale links. It leaves the
      list intact exactly when neither write changes a live pointer: the pointer it would
      redirect already holds its le_next, and its le_next, if live, already has its le_prev. */
  predicate StaleLinksAgree(l: Links, items: seq<nat>, e: nat)
    requires WellTyped(l) && e < |l.next|
  {
    && (l.next[e] != NULL && l.next[e] in items ==> l.prev[l.next[e]] == l.prev[e])
    && (l.prev[e] == Head ==> l.first == l.next[e])
    && (l.prev[e].NextOf? && l.prev[e].elm in items ==> l.next[l.prev[e].elm] == l.next[e])
  }

  lemma StaleRemoveIff(l: Links, items: seq<nat>, e: nat)
    requires WellTyped(l) && Represents(l, items)
    requires e < |l.next| && e !in items && l.prev[e] != Nil
    ensures Represents(RemoveLinks(l, e), items) <==> StaleLinksAgree(l, items, e)
  {
    var r := RemoveLinks(l, e);
    if Represents(r, items) {
      if l.next[e] != NULL && l.next[e] in items {
        var i := Index(items, l.next[e]);
        assert l.prev[items[i]] == r.prev[items[i]];
      }
      if l.prev[e].NextOf? && l.prev[e].elm in items {
        var i := Index(items, l.prev[e].elm);
        assert l.next[items[i]] == r.next[items[i]];
      }
    }
  }

  /** A concrete loss: 0 was inserted and removed, then 1 inserted; removing 0 a second time
      empties the list although 1 was never removed. */
  lemma StaleRemoveLosesElement()
    ensures var l := InsertHeadLinks(Links(NULL, [NULL, NULL], [Nil, Nil]), 0);
            var m := InsertHeadLinks(RemoveLinks(l, 0), 1);
            Represents(m, [1]) && RemoveLinks(m, 0).first == NULL
  {
    var z := Links(NULL, [NULL, NULL], [Nil, Nil]);
    InsertHeadRepresents(z, [], 0);
    assert [0] + [] == [0];
    var l := InsertHeadLinks(z, 0);
    RemoveRepresents(l, [0], 0);
    assert Without([0], 0) == [];
    InsertHeadRepresents(RemoveLinks(l, 0), [], 1);
    assert [1] + [] == [1];
  }

  /* ---------- stale forward links ---------- */

  /** Removed elements keep their le_next. With stamp[x] the time x was last removed, a stale
      link leads to a live element or to one that was removed later. */
  ghost predicate Forward(next: seq<int>, items: seq<nat>, stamp: seq<nat>, clock: nat) {
    && |stamp| == |next|
    && (forall x :: 0 <= x < |next| && x !in items ==> stamp[x] <= clock)
    && (forall x :: 0 <= x < |next| && x !in items && next[x] != NULL ==>
                      && 0 <= next[x] < |next|
                      && (next[x] in items || stamp[x] < stamp[next[x]]))
  }

  lemma InsertHeadForward(l: Links, items: seq<nat>, e: nat, stamp: seq<nat>, clock: nat)
    requires WellTyped(l) && Represents(l, items) && e < |l.next| && e !in items
    requires Forward(l.next, items, stamp, clock)
    ensures Forward(InsertHeadLinks(l, e).next, [e] + items, stamp, clock)
  {
    var xs := [e] + items;
    assert forall x :: x in items ==> x in xs;
    assert xs[0] == e;
  }

  lemma RemoveForward(l: Links, items: seq<nat>, e: nat, stamp: seq<nat>, clock: nat)
    requires WellTyped(l) && Represents(l, items) && e in items
    requires Forward(l.next, items, stamp, clock)
    ensures l.prev[e] != Nil
    ensures Forward(RemoveLinks(l, e).next, Without(items, e), stamp[e := clock + 1], clock + 1)
  {
    RemoveRepresents(l, items, e);
    WithoutMembers(items, e);
    var r, xs, st := RemoveLinks(l, e), Without(items, e), stamp[e := clock + 1];
    assert r.next[e] == l.next[e] == At(items, Index(items, e) + 1);
    forall x | 0 <= x < |r.next| && x !in xs && r.next[x] != NULL
      ensures 0 <= r.next[x] < |r.next| && (r.next[x] in xs || st[x] < st[r.next[x]])
    {
      if x == e {
        assert r.next[e] == items[Index(items, e) + 1];
      } else {
        assert r.next[x] == l.next[x];
      }
    }
  }

  /** An upper bound on the number of links from x to NULL. */
  ghost function Rank(items: seq<nat>, stamp: seq<nat>, clock: nat, x: int): nat
    requires 0 <= x < |stamp| && (x !in items ==> stamp[x] <= clock)
  {
    if x in items then |items| - Index(items, x) else |items| + 1 + clock - stamp[x]
  }

  /** Every forward step, live or stale, lowers the rank. */
  lemma RankDrops(l: Links, items: seq<nat>, stamp: seq<nat>, clock: nat, x: nat)
    requires Represents(l, items) && Forward(l.next, items, stamp, clock)
    requires x < |l.next| && l.next[x] != NULL
    ensures 0 <= l.next[x] < |l.next|
    ensures Rank(items, stamp, clock, l.next[x]) < Rank(items, stamp, clock, x)
  {
    if x in items {
      var k := Index(items, x);
      assert l.next[items[k]] == At(items, k + 1);
      assert items[Index(items, items[k + 1])] == items[k + 1];
    }
  }

  function Follow(next: seq<int>, x: int, n: nat): int
    decreases n
  {
    if n == 0 || !(0 <= x < |next|) then x else Follow(next, next[x], n - 1)
  }

  lemma {:induction false} ReachesNull(l: Links, items: seq<nat>, stamp: seq<nat>, clock: nat, x: nat) returns (n: nat)
    requires Represents(l, items) && Forward(l.next, items, stamp, clock)
    requires x < |l.next|
    ensures Follow(l.next, x, n) == NULL
    decreases Rank(items, stamp, clock, x)
  {
    if l.next[x] == NULL {
      n := 1;
      assert Follow(l.next, NULL, 0) == NULL;
    } else {
      RankDrops(l, items, stamp, clock, x);
      var m := ReachesNull(l, items, stamp, clock, l.next[x]);
      n := m + 1;
    }
  }

  /* ---------- whole runs ---------- */

  datatype ListOp = Ins(e: nat) | Del(e: nat)

  datatype Log = Log(links: Links, items: seq<nat>, stamp: seq<nat>, clock: nat)

  ghost predicate Sound(s: Log) {
    && WellTyped(s.links)
    && Represents(s.links, s.items)
    && Forward(s.links.next, s.items, s.stamp, s.clock)
  }

  /** LIST_INIT over entries that were never linked. */
  function EmptyLog(n: nat): (s: Log)
    ensures Sound(s)
  {
    Log(Links(NULL, seq(n, i => NULL), seq(n, i => Nil)), [], seq(n, i => 0), 0)
  }

  /** Insert what is absent, delete what is present; anything else is not a step. */
  ghost predicate Enabled(s: Log, op: ListOp) {
    match op
    case Ins(e) => e < |s.links.next| && e !in s.items
    case Del(e) => e in s.items
  }

  ghost function Apply(s: Log, op: ListOp): Log
    requires Sound(s) && Enabled(s, op)
  {
    match op
    case Ins(e) => Log(InsertHeadLinks(s.links, e), [e] + s.items, s.stamp, s.clock)
    case Del(e) =>
      RemoveRepresents(s.links, s.items, e);
      Log(RemoveLinks(s.links, e), Without(s.items, e), s.stamp[e := s.clock + 1], s.clock + 1)
  }

  lemma ApplySound(s: Log, op: ListOp)
    requires Sound(s) && Enabled(s, op)
    ensures Sound(Apply(s, op))
    ensures |Apply(s, op).links.next| == |s.links.next|
  {
    match op
    case Ins(e) =>
      InsertHeadRepresents(s.links, s.items, e);
      InsertHeadForward(s.links, s.items, e, s.stamp, s.clock);
    case Del(e) =>
      RemoveRepresents(s.links, s.items, e);
      RemoveForward(s.links, s.items, e, s.stamp, s.clock);
  }

  ghost predicate LegalReplay(s: Log, ops: seq<ListOp>)
    requires Sound(s)
    decreases |ops|
  {
    ops == [] ||
    (Enabled(s, ops[0]) && (ApplySound(s, ops[0]); LegalReplay(Apply(s, ops[0]), ops[1..])))
  }

  ghost function Replay(s: Log, ops: seq<ListOp>): (r: Log)
    requires Sound(s) && LegalReplay(s, ops)
    ensures Sound(r) && |r.links.next| == |s.links.next|
    decreases |ops|
  {
    if ops == [] then s else (ApplySound(s, ops[0]); Replay(Apply(s, ops[0]), ops[1..]))
  }

  /** Whatever is inserted and removed, in any order and any number of times, following
      le_next from any element, on the list or not, reaches NULL. */
  lemma ChainAlwaysEnds(n: nat, ops: seq<ListOp>, x: nat)
    requires x < n
    requires LegalReplay(EmptyLog(n), ops)
    ensures exists k: nat :: Follow(Replay(EmptyLog(n), ops).links.next, x, k) == NULL
  {
    var r := Replay(EmptyLog(n), ops);
    var k := ReachesNull(r.links, r.items, r.stamp, r.clock, x);
  }

  /* ---------- the list in memory ---------- */

  class List {
    var first: int
    const next: array<int>
    const prev: array<Slot>
    ghost var items: seq<nat>

    ghost function L(): Links
      reads this, next, prev
    {
      Links(first, next[..], prev[..])
    }

    /** le_next after e is unlinked: only e's predecessor changes, e keeps its own link. */
    ghost function WithoutNext(e: nat): seq<int>
      requires Valid() && e in items
      reads this, next, prev
    {
      var k := Index(items, e);
      if k == 0 then next[..] else next[..][items[k - 1] := next[..][e]]
    }

    ghost predicate Valid()
      reads this, next, prev
    {
      next.Length == prev.Length && WellTyped(L()) && Represents(L(), items)
    }

    constructor (n: nat)
      ensures Valid() && fresh(next) && fresh(prev)
      ensures items == [] && next.Length == prev.Length == n
              && forall x :: 0 <= x < n ==> next[x] == NULL && prev[x] == Nil
    {
      first := NULL;
      next := new int[n](i => NULL);
      prev := new Slot[n](i => Nil);
      items := [];
    }

    /** LIST_FIRST. */
    method First() returns (f: int)
      requires Valid()
      ensures f == At(items, 0) && (f == NULL <==> items == []) && f < next.Length
    {
      f := first;
    }

    method InsertHead(e: nat)
      requires Valid() && e < next.Length && e !in items
      modifies this, next, prev
      ensures Valid()
      ensures items == [e] + old(items)
      ensures next[..] == old(next[..])[e := At(old(items), 0)]
      ensures e < prev.Length && prev[..] == PrevInserted(old(prev[..]), old(items), e)
    {
      InsertHeadRepresents(L(), items, e);
      ghost var target := InsertHeadLinks(L(), e);
      next[e] := first;
      if first != NULL {
        prev[first] := NextOf(e);
      }
      first := e;
      prev[e] := Head;
      items := [e] + items;
      assert L() == target;
    }

    method Remove(e: nat)
      requires Valid() && e in items
      modifies this, next, prev
      ensures Valid()
      ensures items == Without(old(items), e)
      ensures e < next.Length && next[..] == old(WithoutNext(e))
      ensures prev[..] == PrevRemoved(old(prev[..]), old(items), Index(old(items), e))
    {
      RemoveRepresents(L(), items, e);
      RemoveNeighbours(L(), items, Index(items, e));
      ghost var target := RemoveLinks(L(), e);
      if next[e] != NULL {
        prev[next[e]] := prev[e];
      }
      match prev[e] {
        case Head => first := next[e];
        case NextOf(x) => next[x] := next[e];
      }
      items := Without(items, e);
      assert L() == target;
    }
  }
}
