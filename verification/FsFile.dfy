/** Files as block maps (fs/fs.c): direct slots, the indirect block, and who owns which disk block. */
module FsFile {
  import opened Numbers
  import opened FsDisk

  /* ---------- block pointers ---------- */

  const IND := 1024

  /** Block pointer k of record f: direct, entry k of the indirect block, or (k = IND) that block. */
  function Ref(s: S, f: nat, k: nat): Word
    requires Shape(s) && f < |s.files| && k <= IND
  {
    var file := s.files[f];
    if k < NDIRECT then file.direct[k]
    else if k == IND then file.indirect
    else if file.indirect == 0 || file.indirect >= |s.mem| then 0
    else GetWord(View(s, file.indirect), k)
  }

  function SetCell(s: S, f: nat, k: nat, v: Word): (t: S)
    requires Shape(s) && f < |s.files| && k <= IND && (NDIRECT <= k < IND ==> s.files[f].indirect < |s.mem|)
    ensures Shape(t) && |t.mem| == |s.mem|
  {
    var file := s.files[f];
    if k < NDIRECT then s.(files := s.files[f := file.(direct := file.direct[k := v])])
    else if k == IND then s.(files := s.files[f := file.(indirect := v)])
    else s.(mem := s.mem[file.indirect := PutWord(s.mem[file.indirect], k, v)])
  }

  /** file_block_walk: result 0 when pointer k of f can be read and written in memory. */
  function BlockWalk(s: S, f: nat, k: nat, alloc: bool): (r: R)
    requires Shape(s) && f < |s.files|
    ensures Shape(r.s) && |r.s.mem| == |s.mem| && r.r <= 0 && (r.r == 0 ==> k < IND)
    ensures r.r == 0 && k >= NDIRECT ==> r.s.files[f].indirect < |r.s.mem|
  {
    if k < NDIRECT then R(s, 0)
    else if k >= NINDIRECT then R(s, -E_INVAL)
    else if s.files[f].indirect == 0 then
      if !alloc then R(s, -E_NOT_FOUND)
      else
        var a := AllocBlock(s);
        if a.r < 0 then a else ReadBlock(SetCell(a.s, f, IND, a.r), a.r)
    else ReadBlock(s, s.files[f].indirect)
  }

  /** file_map_block: the block number, or an error. */
  function MapFile(s: S, f: nat, k: nat, alloc: bool): (r: R)
    requires Shape(s) && f < |s.files|
    ensures Shape(r.s) && |r.s.mem| == |s.mem|
  {
    var w := BlockWalk(s, f, k, alloc);
    if w.r < 0 then w
    else
      var v := Ref(w.s, f, k);
      if v != 0 then R(w.s, v)
      else if !alloc then R(w.s, -E_NOT_FOUND)
      else
        var a := AllocBlock(w.s);
        if a.r < 0 then a else R(SetCell(a.s, f, k, a.r), a.r)
  }

  /** file_clear_block. (The pointer and the bitmap are different words, so the order of the two stores is free.) */
  function ClearBlock(s: S, f: nat, k: nat): (r: R)
    requires Shape(s) && f < |s.files|
    ensures Shape(r.s) && |r.s.mem| == |s.mem|
  {
    var w := BlockWalk(s, f, k, false);
    if w.r < 0 then w
    else
      var v := Ref(w.s, f, k);
      if v == 0 then R(w.s, 0)
      else if v >= |s.mem| then R(w.s, PANIC)
      else R(Discard(SetCell(w.s, f, k, 0), v), 0)
  }

  /** free_block; the repair also drops the stale page, so that the next user gets a zeroed one. */
  function Discard(s: S, b: nat): (t: S)
    requires Shape(s) && b < |s.mem|
    ensures Shape(t) && |t.mem| == |s.mem|
  {
    var t := FreeBlock(s, b);
    if s.fix then Unmap(t, b) else t
  }

  /* ---------- ownership ---------- */

  ghost predicate InUse(s: S)
    requires Shape(s)
  {
    forall f, k :: 0 <= f < |s.files| && 0 <= k <= IND && Ref(s, f, k) != 0 ==>
      3 <= Ref(s, f, k) < |s.mem| && !Free(s, Ref(s, f, k))
  }

  /** No block is referenced by two pointers, over all records. */
  ghost predicate Apart(s: S)
    requires Shape(s)
  {
    forall f, k, g, m | 0 <= f < |s.files| && 0 <= k <= IND && 0 <= g < |s.files| && 0 <= m <= IND
      :: Ref(s, f, k) != 0 && Ref(s, f, k) == Ref(s, g, m) ==> f == g && k == m
  }

  ghost predicate FreeHasNoRefs(s: S)
    requires Shape(s)
  {
    forall f, k :: 0 <= f < |s.files| && 0 <= k <= IND && Free(s, f / FILE2BLK) ==> Ref(s, f, k) == 0
  }

  ghost predicate Own(s: S) {
    Ready(s) && InUse(s) && Apart(s) && FreeHasNoRefs(s)
  }

  /** The same pointers everywhere. */
  ghost predicate SameRefs(s: S, t: S)
    requires Shape(s) && Shape(t) && |s.mem| == |t.mem|
  {
    forall g, m :: 0 <= g < |s.files| && 0 <= m <= IND ==> Ref(t, g, m) == Ref(s, g, m)
  }

  /** One pointer moved to v, the rest stay. */
  ghost predicate RefsBut(s: S, t: S, f: nat, k: nat, v: Word)
    requires Shape(s) && Shape(t) && |s.mem| == |t.mem|
  {
    forall g, m :: 0 <= g < |s.files| && 0 <= m <= IND ==>
      Ref(t, g, m) == if g == f && m == k then v else Ref(s, g, m)
  }

  /** The block cache, as long as free_block is as written: every data block in memory and not
      marked dirty equals its disk copy, and a free block is zero on the disk. */
  ghost predicate Clean(s: S)
    requires Shape(s)
  {
    && !s.fix
    && (forall f, k | 0 <= f < |s.files| && 0 <= k < IND :: 0 < Ref(s, f, k) < |s.mem| ==> Coherent(s, Ref(s, f, k)))
    && (forall b | 0 <= b < |s.mem| :: Free(s, b) ==> s.disk[b] == ZeroBlock())
  }

  /** Clean survives a step whose only new data block is b, fresh and zero. */
  lemma CleanKept(s: S, t: S, b: int)
    requires Own(s) && Own(t) && Clean(s) && |s.mem| == |t.mem| && !t.fix
    requires forall f, k | 0 <= f < |s.files| && 0 <= k < IND ::
               Ref(t, f, k) == 0 || Ref(t, f, k) == Ref(s, f, k) || Ref(t, f, k) == b
    requires forall f, k | 0 <= f < |s.files| && 0 <= k < IND ::
               0 < Ref(s, f, k) < |s.mem| && Coherent(s, Ref(s, f, k)) ==> Coherent(t, Ref(s, f, k))
    requires 0 <= b < |s.mem| ==> Coherent(t, b)
    requires forall x | 0 <= x < |s.mem| :: Free(t, x) ==> Free(s, x) && t.disk[x] == s.disk[x]
    ensures Clean(t)
  {
    hide Free, Ref, Coherent, ZeroBlock;
  }

  /** A pointer that was null takes a block that was free. */
  lemma OwnGrows(s: S, t: S, f: nat, k: nat, b: Word)
    requires Own(s) && Ready(t) && |s.mem| == |t.mem| && f < |s.files| && k <= IND
    requires 3 <= b < |s.mem| && Free(s, b) && Ref(s, f, k) == 0 && !Free(s, f / FILE2BLK)
    requires RefsBut(s, t, f, k, b)
    requires forall x :: Free(t, x) == (Free(s, x) && x != b)
    ensures Own(t)
  {
    hide Free, Ref;
    assert InUse(t);
    assert Apart(t);
    assert FreeHasNoRefs(t);
  }

  /** Pointers only become null, and the bitmap frees only blocks nobody points to. */
  lemma OwnShrinks(s: S, t: S)
    requires Own(s) && Ready(t) && |s.mem| == |t.mem|
    requires forall g, m :: 0 <= g < |s.files| && 0 <= m <= IND ==> Ref(t, g, m) == 0 || Ref(t, g, m) == Ref(s, g, m)
    requires forall g, m :: 0 <= g < |s.files| && 0 <= m <= IND && Ref(t, g, m) != 0 ==> !Free(t, Ref(t, g, m))
    requires forall g, m :: 0 <= g < |s.files| && 0 <= m <= IND && Free(t, g / FILE2BLK) ==> Ref(t, g, m) == 0
    ensures Own(t)
  {
    hide Free, Ref;
  }

  /** Moving blocks in and out of the cache and the bitmap moves no pointer. */
  lemma SameButSameRefs(s: S, t: S, b: int)
    requires Own(s) && SameBut(s, t, b) && (b < 0 || Free(s, b))
    ensures SameRefs(s, t)
  {
    hide Free;
    forall g, m | 0 <= g < |s.files| && 0 <= m <= IND ensures Ref(t, g, m) == Ref(s, g, m) {
      assert Ref(s, g, IND) == s.files[g].indirect;
    }
  }

  /** Storing pointer k of f, in a cell that is in memory, moves that pointer and no other. */
  lemma SetCellRefs(s: S, f: nat, k: nat, v: Word)
    requires Shape(s) && Apart(s) && f < |s.files| && k < IND
    requires k >= NDIRECT ==> 0 < s.files[f].indirect < |s.mem| && s.mapped[s.files[f].indirect]
    ensures RefsBut(s, SetCell(s, f, k, v), f, k, v)
  {
    hide Free, PutWord, GetWord;
    var t := SetCell(s, f, k, v);
    var ind := s.files[f].indirect;
    assert Ref(s, f, IND) == ind;
    forall g, m | 0 <= g < |s.files| && 0 <= m <= IND
      ensures Ref(t, g, m) == if g == f && m == k then v else Ref(s, g, m)
    {
      assert Ref(s, g, IND) == s.files[g].indirect;
      if k >= NDIRECT && g == f && NDIRECT <= m < IND {
        GetPut(s.mem[ind], k, v, m);
      }
    }
  }

  /** A zeroed block becomes the indirect block of f: its entries are null, as they were. */
  lemma SetIndirectRefs(s: S, f: nat, v: Word)
    requires Shape(s) && f < |s.files| && s.files[f].indirect == 0
    requires 0 < v < |s.mem| && View(s, v) == ZeroBlock()
    ensures RefsBut(s, SetCell(s, f, IND, v), f, IND, v)
  {
    hide ZeroBlock, GetWord;
    var t := SetCell(s, f, IND, v);
    forall g, m | 0 <= g < |s.files| && 0 <= m <= IND
      ensures Ref(t, g, m) == if g == f && m == IND then v else Ref(s, g, m)
    {
      if g == f && NDIRECT <= m < IND { ZeroWords(m); }
    }
  }

  lemma SameViewSameRefs(s: S, t: S)
    requires Shape(s) && SameView(s, t)
    ensures SameRefs(s, t) && forall x :: Free(t, x) == Free(s, x)
  {
    SameBitmap(s, t);
    hide Free;
  }

  /** Reading a referenced block: no panic, no pointer moves. */
  lemma ReadEffect(s: S, b: nat)
    requires Own(s) && b < |s.mem| && !Free(s, b)
    ensures var l := ReadBlock(s, b);
            l.r == 0 && Own(l.s) && SameView(s, l.s) && SameRefs(s, l.s) && l.s.mapped[b] && (Clean(s) ==> Clean(l.s))
  {
    var t := Load(s, b);
    LoadKeepsView(s, b);
    SameViewSameRefs(s, t);
    hide Free, Ref, View;
    OwnShrinks(s, t);
    if Clean(s) { CleanKept(s, t, -1); }
  }

  /** alloc_block and then storing the block in a null pointer of f whose cell is in memory. */
  lemma AllocInto(s: S, f: nat, k: nat)
    requires Own(s) && f < |s.files| && k <= IND && !Free(s, f / FILE2BLK) && Ref(s, f, k) == 0
    requires NDIRECT <= k < IND ==> 0 < s.files[f].indirect < |s.mem| && s.mapped[s.files[f].indirect]
    ensures var a := AllocBlock(s);
            && (a.r < 0 ==>
                  && Own(a.s) && SameRefs(s, a.s) && (a.r == -E_NO_DISK || a.r == -E_NO_MEM)
                  && (Clean(s) ==> Clean(a.s)))
            && (a.r >= 0 ==>
                  && var t := SetCell(a.s, f, k, a.r);
                  && Own(t) && RefsBut(s, t, f, k, a.r) && Free(s, a.r) && a.r >= 3
                  && (forall x :: 3 <= x < a.r ==> !Free(s, x))
                  && t.mapped[a.r] && t.mem[a.r] == ZeroBlock() && (Clean(s) ==> Clean(t))
                  && (NDIRECT <= k < IND ==>
                        t.files[f].indirect == s.files[f].indirect && t.mapped[t.files[f].indirect]))
  {
    AllocEffect(s);
    var a := AllocBlock(s);
    SameButSameRefs(s, a.s, a.r);
    hide Free, AllocBlock, ZeroBlock;
    if a.r < 0 {
      hide Ref;
      OwnShrinks(s, a.s);
      if Clean(s) { CleanKept(s, a.s, -1); }
    } else {
      Attach(s, a.s, f, k, a.r);
    }
  }

  lemma Attach(s: S, a: S, f: nat, k: nat, b: Word)
    requires Own(s) && f < |s.files| && k <= IND && !Free(s, f / FILE2BLK) && Ref(s, f, k) == 0
    requires NDIRECT <= k < IND ==> 0 < s.files[f].indirect < |s.mem| && s.mapped[s.files[f].indirect]
    requires Ready(a) && SameBut(s, a, b) && SameRefs(s, a) && 3 <= b < |s.mem| && Free(s, b) && a.mapped[b]
             && a.mem[b] == ZeroBlock()
    requires forall x :: Free(a, x) == (Free(s, x) && x != b)
    ensures var t := SetCell(a, f, k, b);
            Own(t) && RefsBut(s, t, f, k, b) && t.mapped[b] && t.mem[b] == ZeroBlock() && (Clean(s) ==> Clean(t))
            && (NDIRECT <= k < IND ==> t.files[f].indirect == s.files[f].indirect && t.mapped[t.files[f].indirect])
  {
    hide Free, ZeroBlock;
    assert Ref(s, f, IND) == s.files[f].indirect;
    assert Own(a) by { hide Ref; OwnShrinks(s, a); }
    var t := SetCell(a, f, k, b);
    if k == IND { SetIndirectRefs(a, f, b); } else { SetCellRefs(a, f, k, b); }
    SetCellCache(a, f, k, b);
    hide Ref, SetCell;
    assert RefsBut(s, t, f, k, b);
    SetCellBitmap(a, f, k, b);
    OwnGrows(s, t, f, k, b);
    if Clean(s) { CleanKept(s, t, b); }
  }

  /** A pointer store touches no data block and no disk copy. */
  lemma SetCellCache(s: S, f: nat, k: nat, v: Word)
    requires Own(s) && f < |s.files| && k <= IND && (NDIRECT <= k < IND ==> 0 < s.files[f].indirect < |s.mem|)
    ensures var t := SetCell(s, f, k, v);
            && t.disk == s.disk && t.dirty == s.dirty && t.mapped == s.mapped && t.fix == s.fix
            && |t.files| == |s.files|
            && (forall g, m | 0 <= g < |s.files| && 0 <= m < IND :: 0 < Ref(s, g, m) < |s.mem| ==>
                  t.mem[Ref(s, g, m)] == s.mem[Ref(s, g, m)])
  {
    assert Ref(s, f, IND) == s.files[f].indirect;
    hide Ref, Free;
  }

  /** A pointer store leaves the bitmap and the fresh block alone. */
  lemma SetCellBitmap(s: S, f: nat, k: nat, b: Word)
    requires Own(s) && f < |s.files| && k <= IND && b < |s.mem|
             && (NDIRECT <= k < IND ==> 0 < s.files[f].indirect < |s.mem|)
    requires forall g, m :: 0 <= g < |s.files| && 0 <= m <= IND ==> Ref(s, g, m) != b
    ensures Shape(SetCell(s, f, k, b)) && forall x :: Free(SetCell(s, f, k, b), x) == Free(s, x)
    ensures Ready(SetCell(s, f, k, b))
    ensures SetCell(s, f, k, b).mem[b] == s.mem[b]
  {
    var t := SetCell(s, f, k, b);
    assert Ref(s, f, IND) == s.files[f].indirect;
    assert s.mem[2] == t.mem[2];
    SameBitmap(s, t);
    hide Free, Ref;
  }

  /* ---------- the file operations ---------- */

  /** The records but for their block pointers. */
  ghost predicate SameRecords(s: S, t: S) {
    && |s.files| == |t.files|
    && forall g :: 0 <= g < |s.files| ==>
         s.files[g].(direct := t.files[g].direct, indirect := t.files[g].indirect) == t.files[g]
  }

  /** From s to t no block is freed, the records and the contents of all data blocks stay, and of
      the pointers only pointer k of f and its indirect pointer may have changed, from null. */
  ghost predicate MapsBut(s: S, t: S, f: nat, k: nat) {
    && Shape(s) && Shape(t) && |s.mem| == |t.mem| && s.fix == t.fix && SameRecords(s, t)
    && (forall x :: Free(t, x) ==> Free(s, x))
    && (forall g, m | 0 <= g < |s.files| && 0 <= m < IND :: (g == f && m == k && Ref(s, g, m) == 0)
          || Ref(t, g, m) == Ref(s, g, m))
    && (forall g | 0 <= g < |s.files| :: (g == f && Ref(s, g, IND) == 0) || Ref(t, g, IND) == Ref(s, g, IND))
    && SameData(s, t)
  }

  /** Every data block reads the same. */
  ghost predicate SameData(s: S, t: S)
    requires Shape(s) && Shape(t) && |s.mem| == |t.mem|
  {
    forall g, m | 0 <= g < |s.files| && 0 <= m < IND :: 0 < Ref(s, g, m) < |s.mem| ==>
        View(t, Ref(s, g, m)) == View(s, Ref(s, g, m))
  }

  lemma RefsButMaps(s: S, t: S, f: nat, k: nat, j: nat, v: Word)
    requires Shape(s) && Shape(t) && |s.mem| == |t.mem| && s.fix == t.fix && SameRecords(s, t)
    requires RefsBut(s, t, f, k, v) && f < |s.files| && k <= IND && (k == j || k == IND) && Ref(s, f, k) == 0
    requires (forall x :: Free(t, x) ==> Free(s, x)) && SameData(s, t)
    ensures MapsBut(s, t, f, j)
  {
    hide Ref, Free, SameRecords, SameData;
  }

  lemma SameViewMaps(s: S, t: S, f: nat, k: nat)
    requires Shape(s) && SameView(s, t) && f < |s.files|
    ensures MapsBut(s, t, f, k)
  {
    SameViewSameRefs(s, t);
    hide Ref, Free, View;
  }

  lemma MapsTwice(s: S, t: S, u: S, f: nat, k: nat)
    requires f < |s.files| && MapsBut(s, t, f, k) && MapsBut(t, u, f, k)
    ensures MapsBut(s, u, f, k)
  {
    hide Ref, Free;
  }

  lemma SameButSameData(s: S, t: S, b: int)
    requires Own(s) && SameBut(s, t, b) && (b < 0 || Free(s, b))
    ensures SameData(s, t)
  {
    hide Ref, Free;
  }

  lemma SetCellSameData(s: S, a: S, f: nat, k: nat, v: Word)
    requires Own(s) && Shape(a) && |s.mem| == |a.mem| && SameData(s, a) && s.files == a.files
    requires f < |s.files| && k <= IND && (NDIRECT <= k < IND ==> 0 < s.files[f].indirect < |s.mem|)
    ensures SameData(s, SetCell(a, f, k, v))
  {
    assert Ref(s, f, IND) == s.files[f].indirect;
    hide Ref, Free;
  }

  /** Storing an allocated block: what MapsBut says of it. */
  lemma AllocMaps(s: S, f: nat, k: nat, j: nat)
    requires Own(s) && f < |s.files| && k <= IND && !Free(s, f / FILE2BLK) && Ref(s, f, k) == 0
    requires NDIRECT <= k < IND ==> 0 < s.files[f].indirect < |s.mem| && s.mapped[s.files[f].indirect]
    requires k == j || k == IND
    ensures var a := AllocBlock(s);
            if a.r < 0 then MapsBut(s, a.s, f, j) && SameRefs(s, a.s) else MapsBut(s, SetCell(a.s, f, k, a.r), f, j)
  {
    AllocEffect(s);
    AllocInto(s, f, k);
    var a := AllocBlock(s);
    hide AllocBlock, Free;
    if a.r < 0 {
      SameButSameData(s, a.s, a.r);
      assert MapsBut(s, a.s, f, j) by { hide Ref, SameData; }
    } else {
      var t := SetCell(a.s, f, k, a.r);
      assert SameRecords(s, t);
      SameButSameRefs(s, a.s, a.r);
      assert t.mem[2] == a.s.mem[2] by { assert Ref(s, f, IND) == s.files[f].indirect; }
      SameBitmap(a.s, t);
      SameButSameData(s, a.s, a.r);
      SetCellSameData(s, a.s, f, k, a.r);
      RefsButMaps(s, t, f, k, j, a.r);
    }
  }

  /** file_block_walk: it never panics; it fails out of range, or when the indirect block is
      missing and must not or cannot be allocated. */
  lemma WalkEffect(s: S, f: nat, k: nat, alloc: bool)
    requires Own(s) && f < |s.files| && (alloc ==> !Free(s, f / FILE2BLK))
    ensures var w := BlockWalk(s, f, k, alloc);
            && Own(w.s) && MapsBut(s, w.s, f, IND) && (Clean(s) ==> Clean(w.s))
            && (!alloc ==> SameView(s, w.s))
            && (w.r == 0 ==> k < IND)
            && (w.r == 0 && k >= NDIRECT ==> 0 < w.s.files[f].indirect < |s.mem| && w.s.mapped[w.s.files[f].indirect])
            && (w.r == -E_INVAL <==> k >= IND)
            && (w.r < 0 && k < IND ==>
                  && Ref(s, f, IND) == 0 && Ref(s, f, k) == 0 && SameRefs(s, w.s)
                  && if alloc then w.r == -E_NO_DISK || w.r == -E_NO_MEM else w.r == -E_NOT_FOUND)
  {
    hide Free, ReadBlock, AllocBlock;
    assert Ref(s, f, IND) == s.files[f].indirect;
    SameViewMaps(s, s, f, IND);
    if NDIRECT <= k < NINDIRECT {
      if s.files[f].indirect != 0 {
        ReadEffect(s, s.files[f].indirect);
        SameViewMaps(s, ReadBlock(s, s.files[f].indirect).s, f, IND);
      } else if alloc {
        AllocInto(s, f, IND);
        AllocMaps(s, f, IND, IND);
        var a := AllocBlock(s);
        if a.r >= 0 {
          var t := SetCell(a.s, f, IND, a.r);
          assert Ref(t, f, IND) == a.r;
          ReadEffect(t, a.r);
          SameViewMaps(t, ReadBlock(t, a.r).s, f, IND);
          MapsTwice(s, t, ReadBlock(t, a.r).s, f, IND);
        }
      }
    }
  }

  /** file_map_block: with alloc it adds at most one key to the file's map, without it none; what
      it returns is what the map then says. It fails exactly when the map has no such key. */
  lemma MapEffect(s: S, f: nat, k: nat, alloc: bool)
    requires Own(s) && f < |s.files| && (alloc ==> !Free(s, f / FILE2BLK))
    ensures var m := MapFile(s, f, k, alloc);
            && Own(m.s) && MapsBut(s, m.s, f, k) && (Clean(s) ==> Clean(m.s))
            && (!alloc ==> SameView(s, m.s))
            && (m.r > 0 && k >= NDIRECT ==> 0 < m.s.files[f].indirect < |s.mem| && m.s.mapped[m.s.files[f].indirect])
            && (m.r > 0 ==>
                  && k < IND && Ref(m.s, f, k) == m.r < |s.mem|
                  && (if Ref(s, f, k) != 0 then Ref(s, f, k) == m.r else alloc && Free(s, m.r)))
            && (m.r <= 0 ==> SameRefsBelow(s, m.s) && (k < IND ==> Ref(s, f, k) == 0))
            && (m.r == -E_INVAL <==> k >= IND)
            && (m.r <= 0 && k < IND ==> if alloc then m.r == -E_NO_DISK || m.r == -E_NO_MEM else m.r == -E_NOT_FOUND)
  {
    hide Free, AllocBlock, BlockWalk, SameData, Clean;
    var w := BlockWalk(s, f, k, alloc);
    WalkEffect(s, f, k, alloc);
    if w.r == 0 {
      MapsLess(s, w.s, f, k);
      if Ref(w.s, f, k) == 0 && alloc {
        AllocInto(w.s, f, k);
        AllocMaps(w.s, f, k, k);
        var a := AllocBlock(w.s);
        var m := MapFile(s, f, k, alloc);
        MapsTwice(s, w.s, m.s, f, k);
      }
    } else {
      MapsLess(s, w.s, f, k);
    }
  }

  /** The maps of all files agree. */
  ghost predicate SameRefsBelow(s: S, t: S)
    requires Shape(s) && Shape(t) && |s.mem| == |t.mem|
  {
    forall g, m :: 0 <= g < |s.files| && 0 <= m < IND ==> Ref(t, g, m) == Ref(s, g, m)
  }

  lemma MapsLess(s: S, t: S, f: nat, k: nat)
    requires f < |s.files| && MapsBut(s, t, f, IND)
    ensures MapsBut(s, t, f, k) && SameRefsBelow(s, t)
  {
    hide Ref, Free;
  }

  /* ---------- clearing ---------- */

  /** With free_block repaired, a record whose own block has been freed is gone. */
  ghost predicate Gone(s: S, t: S, g: nat)
    requires Shape(t)
  {
    s.fix && Free(t, g / FILE2BLK)
  }

  ghost predicate Cleared(m: nat, lo: nat, hi: nat, ind: bool) { (lo <= m < hi && m < IND) || (ind && m >= NDIRECT) }

  /** Every data block that is still mapped reads the same. */
  ghost predicate KeepsData(s: S, t: S)
    requires Shape(s) && Shape(t) && |s.mem| == |t.mem|
  {
    forall g, m | 0 <= g < |s.files| && 0 <= m < IND :: 0 < Ref(t, g, m) < |s.mem| ==>
        View(t, Ref(t, g, m)) == View(s, Ref(t, g, m))
  }

  /** From s to t pointers lo to hi of f became null (with ind, everything behind the indirect
      pointer too) and every other pointer, record and data block stayed. As written no block becomes
      free. */
  ghost predicate Drops(s: S, t: S, f: nat, lo: nat, hi: nat, ind: bool) {
    && Shape(s) && Shape(t) && |s.mem| == |t.mem| && s.fix == t.fix
    && (forall g, m | 0 <= g < |s.files| && 0 <= m <= IND ::
          if g == f && Cleared(m, lo, hi, ind) then Ref(t, g, m) == 0
          else Ref(t, g, m) == Ref(s, g, m) || (Gone(s, t, g) && Ref(t, g, m) == 0))
    && (forall g | 0 <= g < |s.files| ::
          Gone(s, t, g) || s.files[g].(direct := t.files[g].direct, indirect := t.files[g].indirect) == t.files[g])
    && (forall x :: if s.fix then Free(s, x) ==> Free(t, x) else Free(t, x) == Free(s, x))
    && KeepsData(s, t)
  }

  lemma DropsTwice(s: S, t: S, u: S, f: nat, lo: nat, mid: nat, hi: nat, ind: bool)
    requires Drops(s, t, f, lo, mid, ind) && Drops(t, u, f, mid, hi, false) && lo <= mid <= hi
    ensures Drops(s, u, f, lo, hi, ind)
  {
    hide Ref, Free;
  }

  lemma DropsNothing(s: S, t: S, f: nat, k: nat)
    requires Shape(s) && SameView(s, t)
    ensures Drops(s, t, f, k, k, false)
  {
    SameViewSameRefs(s, t);
    hide Ref, Free, View;
  }

  /** free_block of a block nobody points to. */
  lemma FreeEffect(s: S, v: nat, f: nat, k: nat)
    requires Own(s) && 3 <= v < |s.mem| && !Free(s, v)
    requires forall g, m :: 0 <= g < |s.files| && 0 <= m <= IND ==> Ref(s, g, m) != v
    ensures var t := Discard(s, v);
            && Own(t) && Drops(s, t, f, k, k, false) && (Clean(s) ==> Clean(t))
            && (forall x :: Free(t, x) == if x == v then s.fix else Free(s, x))
  {
    var t := Discard(s, v);
    forall x: nat ensures Free(t, x) == if x == v then s.fix else Free(s, x) {
      MarkEffect(s, v, s.fix, x);
      SameBitmap(MarkBlock(s, v, s.fix), t);
    }
    DiscardRefs(s, v);
    hide Free, Ref;
    FreeStep(s, t, v);
  }

  lemma DiscardRefs(s: S, v: nat)
    requires Own(s) && 3 <= v < |s.mem|
    requires forall g, m :: 0 <= g < |s.files| && 0 <= m <= IND ==> Ref(s, g, m) != v
    ensures var t := Discard(s, v);
            && (forall g, m | 0 <= g < |s.files| && 0 <= m <= IND ::
                  if s.fix && g / FILE2BLK == v then Ref(t, g, m) == 0 else Ref(t, g, m) == Ref(s, g, m))
            && (forall g | 0 <= g < |s.files| :: (s.fix && g / FILE2BLK == v) || t.files[g] == s.files[g])
  {
    hide Free;
    var t := Discard(s, v);
    forall g, m | 0 <= g < |s.files| && 0 <= m <= IND
      ensures if s.fix && g / FILE2BLK == v then Ref(t, g, m) == 0 else Ref(t, g, m) == Ref(s, g, m)
    {
      assert Ref(s, g, IND) == s.files[g].indirect;
    }
  }

  lemma FreeStep(s: S, t: S, v: nat)
    requires Own(s) && Ready(t) && 3 <= v < |s.mem| == |t.mem| && s.fix == t.fix && t.disk == s.disk
             && t.dirty == s.dirty
    requires forall g, m :: 0 <= g < |s.files| && 0 <= m <= IND ==> Ref(s, g, m) != v
    requires forall x :: Free(t, x) == if x == v then s.fix else Free(s, x)
    requires forall g, m | 0 <= g < |s.files| && 0 <= m <= IND :: Ref(t, g, m) == 0 || Ref(t, g, m) == Ref(s, g, m)
    requires forall g, m | 0 <= g < |s.files| && 0 <= m <= IND :: s.fix && g / FILE2BLK == v ==> Ref(t, g, m) == 0
    requires forall x :: 3 <= x < |s.mem| && x != v ==> t.mem[x] == s.mem[x] && t.mapped[x] == s.mapped[x]
    ensures Own(t) && (Clean(s) ==> Clean(t))
  {
    hide Free, Ref;
    OwnShrinks(s, t);
    if Clean(s) { CleanKept(s, t, -1); }
  }

  /** file_clear_block: the map of f loses key k, nothing else moves, and it never panics. */
  lemma ClearEffect(s: S, f: nat, k: nat)
    requires Own(s) && f < |s.files|
    ensures var c := ClearBlock(s, f, k);
            && Own(c.s) && Drops(s, c.s, f, k, k + 1, false) && (Clean(s) ==> Clean(c.s))
            && (c.r == 0 || c.r == -E_NOT_FOUND || c.r == -E_INVAL)
  {
    hide BlockWalk, Discard, SetCell, Ref, Free, Drops, Clean;
    var w, c := BlockWalk(s, f, k, false), ClearBlock(s, f, k);
    WalkDrops(s, f, k);
    if w.r == 0 && Ref(w.s, f, k) != 0 {
      ClearStep(w.s, f, k);
      DropsTwice(s, w.s, c.s, f, k, k, k + 1, false);
    } else {
      DropsNull(s, w.s, f, k);
    }
  }

  /** file_block_walk without alloc drops nothing. */
  lemma WalkDrops(s: S, f: nat, k: nat)
    requires Own(s) && f < |s.files|
    ensures var w := BlockWalk(s, f, k, false);
            && Own(w.s) && Drops(s, w.s, f, k, k, false) && (Clean(s) ==> Clean(w.s))
            && (w.r == 0 ==> k < IND)
            && (w.r == 0 && k >= NDIRECT ==>
                  0 < w.s.files[f].indirect < |w.s.mem| && w.s.mapped[w.s.files[f].indirect])
            && (w.r == 0 || w.r == -E_NOT_FOUND || w.r == -E_INVAL) && (w.r < 0 && k < IND ==> Ref(w.s, f, k) == 0)
  {
    WalkEffect(s, f, k, false);
    var w := BlockWalk(s, f, k, false);
    hide Free, Ref, BlockWalk, Drops, Own, Clean, View;
    SameViewSameRefs(s, w.s);
    DropsNothing(s, w.s, f, k);
  }

  /** free_block clears the bit that means free. So a cleared block can be allocated again exactly
      when free_block is repaired; as written it is lost. No other block's bit changes. */
  lemma ClearedBlockIsFreeIff(s: S, f: nat, k: nat)
    requires Own(s) && f < |s.files| && k < IND && Ref(s, f, k) != 0
    ensures forall x :: Free(ClearBlock(s, f, k).s, x) == if x == Ref(s, f, k) then s.fix else Free(s, x)
  {
    hide Ref, Free, BlockWalk, Discard, SetCell;
    WalkEffect(s, f, k, false);
    var w := BlockWalk(s, f, k, false);
    SameViewSameRefs(s, w.s);
    assert w.r == 0 && Ref(w.s, f, k) == Ref(s, f, k);
    ClearStep(w.s, f, k);
  }

  /** With the repair, mapping a block and clearing it again gives back every block: the bitmap is as before. */
  lemma MapThenClearGivesBack(s: S, f: nat, k: nat)
    requires Own(s) && s.fix && f < |s.files| && k < NDIRECT && !Free(s, f / FILE2BLK) && Ref(s, f, k) == 0
    requires MapFile(s, f, k, true).r > 0
    ensures forall x :: Free(ClearBlock(MapFile(s, f, k, true).s, f, k).s, x) == Free(s, x)
  {
    var m := MapFile(s, f, k, true);
    var a := AllocBlock(s);
    AllocEffect(s);
    SameBitmap(a.s, m.s);
    MapEffect(s, f, k, true);
    hide Ref, Free, MapFile, ClearBlock, AllocBlock;
    ClearedBlockIsFreeIff(m.s, f, k);
  }

  /** Setting the bit is not enough of a repair: the freed block keeps its page, alloc_block does not
      zero a page that is there, and what a client once wrote becomes the entries of an indirect
      block; a client that wrote a 1 or a 2 there gives its file the super block or the bitmap. */
  lemma BitAloneBreaksOwn(s: S, f: nat, k: nat, g: nat, m: nat)
    requires Own(s) && f < |s.files| && k < NDIRECT && Ref(s, f, k) != 0 && s.mapped[Ref(s, f, k)]
    requires forall x :: 3 <= x < Ref(s, f, k) ==> !Free(s, x)
    requires g < |s.files| && s.files[g].indirect == 0 && NDIRECT <= m < IND
    ensures var v := Ref(s, f, k);
            var a := AllocBlock(MarkBlock(SetCell(s, f, k, 0), v, true));
            && a.r == v < |s.mem| && Ref(SetCell(a.s, g, IND, v), g, m) == GetWord(s.mem[v], m)
            && (0 < GetWord(s.mem[v], m) < 3 ==> !Own(SetCell(a.s, g, IND, v)))
  {
    hide Free, GetWord, BitOf, WithBit, FirstFree, Apart, FreeHasNoRefs;
    var v := Ref(s, f, k);
    var t := SetCell(s, f, k, 0);
    var u := MarkBlock(t, v, true);
    SameBitmap(s, t);
    forall x: nat ensures Free(u, x) == (x == v || Free(s, x)) { MarkEffect(t, v, true, x); }
    FirstFreeIs(u, 3);
    assert FirstFree(u, 3) == v;
  }

  lemma DropsNull(s: S, t: S, f: nat, k: nat)
    requires Drops(s, t, f, k, k, false) && f < |s.files| && (k < IND ==> Ref(t, f, k) == 0)
    ensures Drops(s, t, f, k, k + 1, false)
  {
    hide Free, Ref;
  }

  lemma ClearStep(s: S, f: nat, k: nat)
    requires Own(s) && f < |s.files| && k < IND && Ref(s, f, k) != 0
    requires NDIRECT <= k < IND ==> 0 < s.files[f].indirect < |s.mem| && s.mapped[s.files[f].indirect]
    ensures Ref(s, f, k) < |s.mem|
    ensures var c := Discard(SetCell(s, f, k, 0), Ref(s, f, k));
            && Own(c) && Drops(s, c, f, k, k + 1, false) && (Clean(s) ==> Clean(c))
            && (forall x :: Free(c, x) == if x == Ref(s, f, k) then s.fix else Free(s, x))
  {
    hide Ref, Free, Drops, Cleared, SetCell;
    var v := Ref(s, f, k);
    var t := SetCell(s, f, k, 0);
    SetNull(s, f, k);
    OnlyRef(s, t, f, k, v);
    FreeEffect(t, v, f, k + 1);
    DropsTwice(s, t, Discard(t, v), f, k, k + 1, k + 1, false);
  }

  lemma OnlyRef(s: S, t: S, f: nat, k: nat, v: Word)
    requires Own(s) && Shape(t) && |s.mem| == |t.mem| && f < |s.files| && k <= IND && v == Ref(s, f, k) != 0
             && RefsBut(s, t, f, k, 0)
    requires forall x :: Free(t, x) == Free(s, x)
    ensures 3 <= v < |t.mem| && !Free(t, v)
    ensures forall g, m :: 0 <= g < |t.files| && 0 <= m <= IND ==> Ref(t, g, m) != v
  {
    hide Ref, Free;
  }

  /** Nulling a pointer whose cell is in memory. */
  lemma SetNull(s: S, f: nat, k: nat)
    requires Own(s) && f < |s.files| && k < IND
    requires NDIRECT <= k < IND ==> 0 < s.files[f].indirect < |s.mem| && s.mapped[s.files[f].indirect]
    ensures var t := SetCell(s, f, k, 0);
            && Own(t) && Drops(s, t, f, k, k + 1, false) && RefsBut(s, t, f, k, 0) && t.fix == s.fix
            && (Clean(s) ==> Clean(t))
            && (forall x :: Free(t, x) == Free(s, x))
  {
    var t := SetCell(s, f, k, 0);
    SetCellRefs(s, f, k, 0);
    SetCellCache(s, f, k, 0);
    assert Ref(s, f, IND) == s.files[f].indirect;
    NullStep(s, t, f, k, k + 1, false);
  }

  /** f->f_indirect = 0: everything behind it goes from the map. */
  lemma SetIndirectNull(s: S, f: nat, k: nat)
    requires Own(s) && f < |s.files|
    ensures var t := SetCell(s, f, IND, 0);
            && Own(t) && Drops(s, t, f, k, k, true) && (Clean(s) ==> Clean(t))
  {
    var t := SetCell(s, f, IND, 0);
    SetCellCache(s, f, IND, 0);
    NullStep(s, t, f, k, k, true);
  }

  lemma NullStep(s: S, t: S, f: nat, lo: nat, hi: nat, ind: bool)
    requires Own(s) && Shape(t) && |s.mem| == |t.mem| && f < |s.files| && s.mem[2] == t.mem[2] && SameRecords(s, t)
    requires t.disk == s.disk && t.dirty == s.dirty && t.mapped == s.mapped && t.fix == s.fix
    requires forall g, m | 0 <= g < |s.files| && 0 <= m <= IND ::
               Ref(t, g, m) == if g == f && Cleared(m, lo, hi, ind) then 0 else Ref(s, g, m)
    requires forall g, m | 0 <= g < |s.files| && 0 <= m < IND :: 0 < Ref(s, g, m) < |s.mem| ==>
             t.mem[Ref(s, g, m)] == s.mem[Ref(s, g, m)]
    ensures Own(t) && Drops(s, t, f, lo, hi, ind) && (Clean(s) ==> Clean(t))
    ensures forall x :: Free(t, x) == Free(s, x)
  {
    SameBitmap(s, t);
    hide Ref, Free, Cleared;
    OwnShrinks(s, t);
    if Clean(s) { CleanKept(s, t, -1); }
  }

  /* ---------- truncation ---------- */

  /** Clear blocks bno to old - 1, whatever the result of each. */
  function ClearRange(s: S, f: nat, bno: nat, n: nat): (t: S)
    requires Shape(s) && f < |s.files|
    ensures Shape(t) && |t.mem| == |s.mem|
    decreases n - bno
  {
    if bno >= n then s else ClearRange(ClearBlock(s, f, bno).s, f, bno + 1, n)
  }

  lemma {:induction false} ClearRangeEffect(s: S, f: nat, bno: nat, n: nat)
    requires Own(s) && f < |s.files|
    ensures var t := ClearRange(s, f, bno, n);
            Own(t) && Drops(s, t, f, bno, Max(bno, n), false) && (Clean(s) ==> Clean(t))
    decreases n - bno
  {
    hide Free, Ref, ClearBlock;
    if bno < n {
      ClearEffect(s, f, bno);
      var c := ClearBlock(s, f, bno).s;
      ClearRangeEffect(c, f, bno + 1, n);
      DropsTwice(s, c, ClearRange(s, f, bno, n), f, bno, bno + 1, n, false);
    } else {
      DropsNothing(s, s, f, bno);
    }
  }

  function NewBlocks(size: Word): nat { if size == 0 then 0 else size / BY2BLK + 1 }

  function SetSizeField(s: S, f: nat, size: Word): (t: S)
    requires Shape(s) && f < |s.files|
    ensures Shape(t) && |t.mem| == |s.mem|
  {
    s.(files := s.files[f := s.files[f].(size := size)])
  }

  /** file_truncate. */
  function Truncate(s: S, f: nat, size: Word): (t: S)
    requires Shape(s) && f < |s.files|
    ensures Shape(t) && |t.mem| == |s.mem|
  {
    var was := s.files[f].size / BY2BLK + 1;
    var now := NewBlocks(size);
    var u := if now <= NDIRECT then SetCell(s, f, IND, 0) else s;
    SetSizeField(ClearRange(u, f, now, was), f, size)
  }

  /** Which keys file_truncate drops: the new end up to the old end, and all that lay behind the
      indirect block when the new end is a direct block. */
  ghost predicate Cut(m: nat, now: nat, was: nat) { now <= m < was || (now <= NDIRECT <= m) }

  ghost predicate Truncated(s: S, t: S, f: nat, now: nat, was: nat) {
    && Shape(s) && Shape(t) && |s.mem| == |t.mem| && s.fix == t.fix && f < |s.files|
    && (forall x :: if s.fix then Free(s, x) ==> Free(t, x) else Free(t, x) == Free(s, x))
    && (forall m | 0 <= m < IND :: Cut(m, now, was) ==> Ref(t, f, m) == 0)
    && (forall m | 0 <= m < IND :: !Cut(m, now, was) ==>
          Ref(t, f, m) == Ref(s, f, m) || (Gone(s, t, f) && Ref(t, f, m) == 0))
    && (forall g, m | 0 <= g < |s.files| && 0 <= m <= IND && g != f :: Ref(t, g, m) == Ref(s, g, m)
          || (Gone(s, t, g) && Ref(t, g, m) == 0))
    && KeepsData(s, t)
  }

  /** Of the records, only the size of f and its pointers changed. */
  ghost predicate SetTo(s: S, t: S, f: nat, size: Word)
    requires Shape(s) && Shape(t) && |s.mem| == |t.mem| && f < |s.files|
  {
    forall g | 0 <= g < |s.files| ::
      Gone(s, t, g) || (if g == f then s.files[g].(size := size) else s.files[g]).(direct := t.files[g].direct,
          indirect := t.files[g].indirect) == t.files[g]
  }

  /** file_truncate: every block from the new end to the old is NOT_FOUND, all lower blocks keep
      their mapping across the direct/indirect boundary, and no other file loses anything. */
  lemma TruncateEffect(s: S, f: nat, size: Word)
    requires Own(s) && f < |s.files|
    ensures var t, was, now := Truncate(s, f, size), s.files[f].size / BY2BLK + 1, NewBlocks(size);
            Own(t) && (Clean(s) ==> Clean(t)) && Truncated(s, t, f, now, was) && SetTo(s, t, f, size)
  {
    var was, now := s.files[f].size / BY2BLK + 1, NewBlocks(size);
    var u := if now <= NDIRECT then SetCell(s, f, IND, 0) else s;
    if now <= NDIRECT { SetIndirectNull(s, f, now); } else { DropsNothing(s, s, f, now); }
    ClearRangeEffect(u, f, now, was);
    var c := ClearRange(u, f, now, was);
    hide *;
    DropsTwice(s, u, c, f, now, now, Max(now, was), now <= NDIRECT);
    SizeEffect(c, f, size);
    TruncateOutcome(s, c, f, size, now, was);
    TruncateIs(s, f, size);
  }

  lemma TruncateIs(s: S, f: nat, size: Word)
    requires Shape(s) && f < |s.files|
    ensures var now := NewBlocks(size);
            Truncate(s, f, size)
            == SetSizeField(ClearRange(if now <= NDIRECT then SetCell(s, f, IND, 0) else s, f, now,
                s.files[f].size / BY2BLK + 1), f, size)
  {
    hide ClearRange, SetCell, SetSizeField, NewBlocks;
  }

  lemma TruncateOutcome(s: S, c: S, f: nat, size: Word, now: nat, was: nat)
    requires Own(c) && f < |s.files| && Drops(s, c, f, now, Max(now, was), now <= NDIRECT)
    ensures var t := SetSizeField(c, f, size); Truncated(s, t, f, now, was) && SetTo(s, t, f, size)
  {
    SizeEffect(c, f, size);
    hide Ref, Free;
  }

  lemma SizeEffect(s: S, f: nat, size: Word)
    requires Own(s) && f < |s.files|
    ensures var t := SetSizeField(s, f, size);
            && Own(t) && SameRefs(s, t) && (Clean(s) ==> Clean(t)) && (forall x :: Free(t, x) == Free(s, x))
  {
    var t := SetSizeField(s, f, size);
    SameBitmap(s, t);
    assert SameRefs(s, t) by { hide Free; }
    hide Free, Ref;
    OwnShrinks(s, t);
    if Clean(s) { CleanKept(s, t, -1); }
  }

  /* ---------- data ---------- */

  /** file_get_block: the block number, its page in memory. */
  function GetFile(s: S, f: nat, k: nat): (r: R)
    requires Shape(s) && f < |s.files|
    ensures Shape(r.s) && |r.s.mem| == |s.mem| && (r.r >= 0 ==> r.r < |s.mem|)
  {
    var m := MapFile(s, f, k, true);
    if m.r < 0 then m
    else
      var l := ReadBlock(m.s, m.r);
      if l.r < 0 then l else R(l.s, m.r)
  }

  /** file_dirty. */
  function FileDirty(s: S, f: nat, offset: Word): (r: R)
    requires Shape(s) && f < |s.files|
    ensures Shape(r.s) && |r.s.mem| == |s.mem|
  {
    var b := GetFile(s, f, offset / BY2BLK);
    if b.r < 0 then b else R(b.s.(dirty := b.s.dirty[b.r := true]), 0)
  }

  /** A client gets a page of f, fills it and has file_dirty called on it. */
  function Store(s: S, f: nat, k: nat, data: Block): (r: R)
    requires Shape(s) && f < |s.files| && k < IND
    ensures Shape(r.s) && |r.s.mem| == |s.mem|
  {
    var b := GetFile(s, f, k);
    if b.r < 0 then b else FileDirty(b.s.(mem := b.s.mem[b.r := data]), f, k * BY2BLK)
  }

  lemma GetEffect(s: S, f: nat, k: nat)
    requires Own(s) && f < |s.files| && !Free(s, f / FILE2BLK)
    ensures var b := GetFile(s, f, k);
            && Own(b.s) && MapsBut(s, b.s, f, k) && (Clean(s) ==> Clean(b.s))
            && (b.r >= 0 ==>
                  && k < IND && 3 <= b.r && Ref(b.s, f, k) == b.r && b.s.mapped[b.r]
                  && (k >= NDIRECT ==> 0 < b.s.files[f].indirect < |s.mem| && b.s.mapped[b.s.files[f].indirect])
                  && (if Ref(s, f, k) != 0 then Ref(s, f, k) == b.r else Free(s, b.r)))
            && (b.r < 0 ==>
                  && SameRefsBelow(s, b.s) && (k < IND ==> Ref(s, f, k) == 0)
                  && (if k >= IND then b.r == -E_INVAL else b.r == -E_NO_DISK || b.r == -E_NO_MEM))
  {
    MapEffect(s, f, k, true);
    var m := MapFile(s, f, k, true);
    hide Free, MapFile, ReadBlock;
    if m.r > 0 {
      ReadEffect(m.s, m.r);
      SameViewMaps(m.s, ReadBlock(m.s, m.r).s, f, k);
      MapsTwice(s, m.s, ReadBlock(m.s, m.r).s, f, k);
    }
  }

  /** What a client stores in block k of f is what that block then shows, marked dirty; every other
      block of every file shows what it showed before. */
  lemma StoreEffect(s: S, f: nat, k: nat, data: Block)
    requires Own(s) && f < |s.files| && k < IND && !Free(s, f / FILE2BLK)
    ensures var w := Store(s, f, k, data);
            && Own(w.s) && (Clean(s) ==> Clean(w.s)) && w.r <= 0 && MapsBut(s, GetFile(s, f, k).s, f, k)
            && |w.s.mem| == |s.mem| && w.s.fix == s.fix && w.s.files == GetFile(s, f, k).s.files
            && SameRefs(GetFile(s, f, k).s, w.s)
            && (forall x :: Free(w.s, x) == Free(GetFile(s, f, k).s, x))
            && (w.r < 0 ==> MapsBut(s, w.s, f, k))
            && (w.r == 0 ==>
                  && 0 < Ref(w.s, f, k) < |s.mem| && View(w.s, Ref(w.s, f, k)) == data && w.s.dirty[Ref(w.s, f, k)]
                  && forall g, m | 0 <= g < |s.files| && 0 <= m < IND :: (g == f && m == k) ||
                       (Ref(w.s, g, m) == Ref(s, g, m)
                           && (0 < Ref(s, g, m) < |s.mem| ==> View(w.s, Ref(s, g, m)) == View(s, Ref(s, g, m)))))
  {
    hide Free, Clean, SameData, View, GetFile, SameRecords;
    GetEffect(s, f, k);
    var b := GetFile(s, f, k);
    if b.r >= 0 {
      FillData(b.s, f, k, data);
      var t := b.s.(mem := b.s.mem[b.r := data]);
      assert Ref(t, f, IND) == Ref(b.s, f, IND) == t.files[f].indirect;
      GetAgain(t, f, k);
      StoreStep(s, b.s, f, k, data);
    }
  }

  lemma StoreStep(s: S, b: S, f: nat, k: nat, data: Block)
    requires Own(b) && MapsBut(s, b, f, k) && f < |s.files| && k < IND && Ref(b, f, k) != 0 && b.mapped[Ref(b, f, k)]
    requires Own(b.(mem := b.mem[Ref(b, f, k) := data])) && SameRefs(b, b.(mem := b.mem[Ref(b, f, k) := data]))
    ensures var t := b.(mem := b.mem[Ref(b, f, k) := data], dirty := b.dirty[Ref(b, f, k) := true]);
            && Own(t) && (Clean(b) ==> Clean(t)) && SameRefs(b, t) && (forall x :: Free(t, x) == Free(b, x))
            && 0 < Ref(t, f, k) < |s.mem| && View(t, Ref(t, f, k)) == data && t.dirty[Ref(t, f, k)]
            && forall g, m | 0 <= g < |s.files| && 0 <= m < IND :: (g == f && m == k) ||
                 (Ref(t, g, m) == Ref(s, g, m)
                     && (0 < Ref(s, g, m) < |s.mem| ==> View(t, Ref(s, g, m)) == View(s, Ref(s, g, m))))
  {
    hide Ref, Free;
    var v := Ref(b, f, k);
    var t := b.(mem := b.mem[v := data]);
    MarkDirty(t, v);
    SameBitmap(b, t);
    SameBitmap(b, t.(dirty := t.dirty[v := true]));
    var u := t.(dirty := t.dirty[v := true]);
    if Clean(b) { StoreClean(b, u, f, k); }
    forall g, m | 0 <= g < |s.files| && 0 <= m < IND && !(g == f && m == k)
      ensures Ref(u, g, m) == Ref(s, g, m)
              && (0 < Ref(s, g, m) < |s.mem| ==> View(u, Ref(s, g, m)) == View(s, Ref(s, g, m)))
    {
      assert Ref(b, g, m) != 0 ==> Ref(b, g, m) != v;
    }
  }

  lemma StoreClean(b: S, u: S, f: nat, k: nat)
    requires Own(b) && Own(u) && Clean(b) && |b.mem| == |u.mem| && !u.fix && f < |b.files| && k < IND && SameRefs(b, u)
    requires b.disk == u.disk && b.mapped == u.mapped && b.mem[2] == u.mem[2] && 0 < Ref(b, f, k) < |b.mem|
    requires forall x | 0 <= x < |b.mem| && x != Ref(b, f, k) :: b.mem[x] == u.mem[x] && b.dirty[x] == u.dirty[x]
    requires u.dirty[Ref(b, f, k)]
    ensures Clean(u)
  {
    SameBitmap(b, u);
    hide Ref, Free;
    CleanKept(b, u, Ref(b, f, k));
  }

  /** file_get_block finds the page that is there. */
  lemma GetAgain(t: S, f: nat, k: nat)
    requires Own(t) && f < |t.files| && k < IND && 0 < Ref(t, f, k) < |t.mem| && t.mapped[Ref(t, f, k)]
    requires k >= NDIRECT ==> 0 < t.files[f].indirect < |t.mem| && t.mapped[t.files[f].indirect]
    ensures GetFile(t, f, k) == R(t, Ref(t, f, k))
  {
    assert Ref(t, f, IND) == t.files[f].indirect;
    hide Free, AllocBlock;
  }

  /** Marking a cached data block dirty. */
  lemma MarkDirty(s: S, b: nat)
    requires Own(s) && b < |s.mem|
    ensures var t := s.(dirty := s.dirty[b := true]);
            Own(t) && SameView(s, t) && SameRefs(s, t) && (Clean(s) ==> Clean(t))
  {
    var t := s.(dirty := s.dirty[b := true]);
    SameViewSameRefs(s, t);
    hide Free, Ref, View;
    OwnShrinks(s, t);
    if Clean(s) { CleanKept(s, t, -1); }
  }

  lemma DirtyEffect(s: S, f: nat, offset: Word)
    requires Own(s) && f < |s.files| && !Free(s, f / FILE2BLK)
    ensures var k, d := offset / BY2BLK, FileDirty(s, f, offset);
            && Own(d.s) && MapsBut(s, d.s, f, k) && (Clean(s) ==> Clean(d.s))
            && (d.r == 0 ==> k < IND && 0 < Ref(d.s, f, k) < |s.mem| && d.s.dirty[Ref(d.s, f, k)])
            && (k < IND ==> Ref(d.s, f, k) == Ref(s, f, k) || Free(s, Ref(d.s, f, k)))
            && (d.r < 0 ==> SameRefsBelow(s, d.s)) && d.r != PANIC && d.r <= 0
  {
    var k, d := offset / BY2BLK, FileDirty(s, f, offset);
    GetEffect(s, f, k);
    var b := GetFile(s, f, k);
    if b.r >= 0 {
      MarkDirty(b.s, b.r);
      SameViewMaps(b.s, d.s, f, k);
      hide GetFile;
      MapsTwice(s, b.s, d.s, f, k);
    }
  }

  /** Filling the page of a data block: no pointer lives there. */
  lemma FillData(s: S, f: nat, k: nat, data: Block)
    requires Own(s) && f < |s.files| && k < IND && Ref(s, f, k) != 0
    ensures 3 <= Ref(s, f, k) < |s.mem|
    ensures var t := s.(mem := s.mem[Ref(s, f, k) := data]);
            && Own(t) && SameRefs(s, t) && (forall x :: Free(t, x) == Free(s, x))
  {
    var v := Ref(s, f, k);
    var t := s.(mem := s.mem[v := data]);
    forall g, m | 0 <= g < |s.files| && 0 <= m <= IND ensures Ref(t, g, m) == Ref(s, g, m) {
      assert Ref(s, g, IND) == s.files[g].indirect;
      hide Free;
    }
    SameBitmap(s, t);
    hide Free, Ref;
    OwnShrinks(s, t);
  }

  /* ---------- flushing ---------- */

  function FlushBlock(s: S, f: nat, k: nat): (t: S)
    requires Shape(s) && f < |s.files|
    ensures Shape(t) && |t.mem| == |s.mem|
  {
    var m := MapFile(s, f, k, false);
    if 0 < m.r < |s.mem| then WriteIfDirty(m.s, m.r) else m.s
  }

  function FlushFrom(s: S, f: nat, bno: nat, n: nat): (t: S)
    requires Shape(s) && f < |s.files|
    ensures Shape(t) && |t.mem| == |s.mem|
    decreases n - bno
  {
    if bno >= n then s else FlushFrom(FlushBlock(s, f, bno), f, bno + 1, n)
  }

  /** file_flush. */
  function Flush(s: S, f: nat): (t: S)
    requires Shape(s) && f < |s.files|
    ensures Shape(t) && |t.mem| == |s.mem|
  {
    FlushFrom(s, f, 0, s.files[f].size / BY2BLK + 1)
  }

  /** The disk holds the bytes the server sees in block b. (The records of a directory block are not
      among them; see KeptWith.) */
  ghost predicate OnDisk(s: S, b: nat)
    requires Shape(s) && b < |s.mem|
  {
    s.disk[b] == View(s, b)
  }

  /** A cache step: views, pointers and records stay, and what was on the disk still is. */
  ghost predicate CacheStep(s: S, t: S) {
    && SameView(s, t) && SameRefs(s, t) && Own(t) && (Clean(s) ==> Clean(t))
    && (forall x | 3 <= x < |s.mem| :: OnDisk(s, x) ==> OnDisk(t, x))
  }

  lemma CacheTwice(s: S, t: S, u: S)
    requires CacheStep(s, t) && CacheStep(t, u)
    ensures CacheStep(s, u)
  {
    hide Ref, Free, View, OnDisk, Own, Clean;
  }

  lemma FlushBlockEffect(s: S, f: nat, k: nat)
    requires Own(s) && f < |s.files|
    ensures CacheStep(s, FlushBlock(s, f, k))
    ensures k < IND && Ref(s, f, k) != 0 && Clean(s) ==>
            Ref(s, f, k) < |s.mem| && OnDisk(FlushBlock(s, f, k), Ref(s, f, k))
  {
    var m := MapFile(s, f, k, false);
    MapEffect(s, f, k, false);
    MapStep(s, f, k);
    if 0 < m.r < |s.mem| {
      hide MapFile;
      WriteStep(m.s, m.r);
      hide Own, Clean, Ref, WriteIfDirty, View;
      CacheTwice(s, m.s, WriteIfDirty(m.s, m.r));
    }
  }

  lemma WriteStep(s: S, b: nat)
    requires Own(s) && b < |s.mem|
    ensures var t := WriteIfDirty(s, b);
            CacheStep(s, t) && (Coherent(s, b) ==> OnDisk(t, b))
  {
    var t := WriteIfDirty(s, b);
    if s.mapped[b] { WriteKeepsView(s, b); }
    SameViewSameRefs(s, t);
    hide Free, Ref;
    OwnShrinks(s, t);
    if Clean(s) { CleanKept(s, t, -1); }
  }

  /** file_map_block without alloc only reads. */
  lemma MapStep(s: S, f: nat, k: nat)
    requires Own(s) && f < |s.files|
    ensures CacheStep(s, MapFile(s, f, k, false).s)
  {
    MapEffect(s, f, k, false);
    var t := MapFile(s, f, k, false).s;
    SameViewSameRefs(s, t);
    WalkReads(s, f, k);
  }

  lemma WalkReads(s: S, f: nat, k: nat)
    requires Own(s) && f < |s.files|
    ensures MapFile(s, f, k, false).s == s || exists b :: 0 <= b < |s.mem| && MapFile(s, f, k, false).s == Load(s, b)
  {
    hide Free, Ref, Own;
  }

  lemma {:induction false} FlushFromEffect(s: S, f: nat, bno: nat, n: nat)
    requires Own(s) && f < |s.files|
    ensures CacheStep(s, FlushFrom(s, f, bno, n))
    ensures Clean(s) ==> forall k | bno <= k < n && k < IND :: 0 < Ref(s, f, k) < |s.mem| ==>
            OnDisk(FlushFrom(s, f, bno, n), Ref(s, f, k))
    decreases n - bno
  {
    hide Free, Ref, FlushBlock, View, OnDisk;
    if bno < n {
      FlushBlockEffect(s, f, bno);
      var c := FlushBlock(s, f, bno);
      FlushFromEffect(c, f, bno + 1, n);
      CacheTwice(s, c, FlushFrom(s, f, bno, n));
    } else {
      SameViewSameRefs(s, s);
    }
  }

  /** file_flush changes no view, pointer or record, and every block of a file within its size is
      then on the disk as the server sees it. */
  lemma FlushEffect(s: S, f: nat)
    requires Own(s) && f < |s.files|
    ensures CacheStep(s, Flush(s, f))
    ensures Clean(s) && s.files[f].typ != FTYPE_DIR ==> forall k | 0 <= k <= s.files[f].size / BY2BLK && k < IND ::
              0 < Ref(s, f, k) < |s.mem| ==> OnDisk(Flush(s, f), Ref(s, f, k))
  {
    hide FlushFrom, CacheStep, OnDisk, Ref, Own, Clean;
    FlushFromEffect(s, f, 0, s.files[f].size / BY2BLK + 1);
  }

  /** file_set_size; file_close. */
  function SetSize(s: S, f: nat, size: Word): (t: S)
    requires Shape(s) && f < |s.files|
    ensures Shape(t) && |t.mem| == |s.mem|
  {
    var u := SetSizeField(if s.files[f].size > size then Truncate(s, f, size) else s, f, size);
    FlushDir(u, f)
  }

  function FlushDir(s: S, f: nat): (t: S)
    requires Shape(s) && f < |s.files|
    ensures Shape(t) && |t.mem| == |s.mem|
  {
    if 0 < s.files[f].dir < |s.files| then Flush(s, s.files[f].dir) else s
  }

  function Close(s: S, f: nat): (t: S)
    requires Shape(s) && f < |s.files|
    ensures Shape(t) && |t.mem| == |s.mem|
  {
    FlushDir(Flush(s, f), f)
  }
}
