/** What file_flush, file_close and file_set_size leave on the disk and in the records (fs/fs.c). */
module FsFlush {
  import opened FsDisk
  import opened FsFile
  import opened FsDir

  /** The blocks of f that its block map names between lo and hi. */
  ghost function DataBlocks(s: S, f: nat, lo: nat, hi: nat): set<int>
    requires Shape(s) && f < |s.files|
  {
    set k | lo <= k < hi && k < IND && Ref(s, f, k) != 0 :: Ref(s, f, k)
  }

  /** The blocks that file_flush looks at: those within the size of f. */
  ghost function FileBlocks(s: S, f: nat): set<int>
    requires Shape(s) && f < |s.files|
  {
    DataBlocks(s, f, 0, s.files[f].size / BY2BLK + 1)
  }

  /** Of these blocks exactly the ones that are in memory and dirty were written, with the records in
      them, and are clean now; every other block and record of the disk is as before. */
  ghost predicate Wrote(s: S, t: S, blocks: set<int>) {
    && Shape(s) && Shape(t) && |s.mem| == |t.mem|
    && (forall x | 0 <= x < |s.mem| ::
          if x in blocks && s.mapped[x] && s.dirty[x] then t.disk[x] == s.mem[x] && !t.dirty[x]
          else t.disk[x] == s.disk[x] && t.dirty[x] == s.dirty[x])
    && (forall g | 0 <= g < |s.files| ::
          t.kept[g] == if g / FILE2BLK in blocks && s.mapped[g / FILE2BLK] && s.dirty[g / FILE2BLK] then t.files[g]
                       else s.kept[g])
  }

  /** Of the cached pages at most b came in. */
  ghost predicate StillBut(s: S, t: S, b: int) {
    && Shape(s) && Shape(t) && |s.mem| == |t.mem|
    && forall x | 0 <= x < |s.mem| && x != b :: t.mapped[x] == s.mapped[x] && t.mem[x] == s.mem[x]
  }

  lemma WroteTwice(s: S, t: S, u: S, a: set<int>, b: set<int>, ind: int)
    requires Wrote(s, t, a) && Wrote(t, u, b) && StillBut(s, t, ind) && ind !in b && t.files == u.files
    ensures Wrote(s, u, a + b)
  {}

  lemma WroteNothing(s: S, b: int)
    requires Shape(s)
    ensures Wrote(s, s, {}) && StillBut(s, s, b)
  {}

  /** The indirect block is no data block. */
  lemma IndirectApart(s: S, f: nat, g: nat, lo: nat, hi: nat)
    requires Own(s) && f < |s.files| && g < |s.files|
    ensures s.files[f].indirect !in DataBlocks(s, g, lo, hi)
  {
    hide Free;
    assert Ref(s, f, IND) == s.files[f].indirect;
  }

  lemma MapReads(s: S, f: nat, k: nat)
    requires Own(s) && f < |s.files|
    ensures var m, ind := MapFile(s, f, k, false), s.files[f].indirect;
            m.s == s || (ind < |s.mem| && m.s == Load(s, ind))
    ensures MapFile(s, f, k, false).r > 0 ==> k < IND && MapFile(s, f, k, false).r == Ref(s, f, k) < |s.mem|
    ensures MapFile(s, f, k, false).r <= 0 && k < IND ==> Ref(s, f, k) == 0
  {
    MapEffect(s, f, k, false);
    hide Free, Ref, Own;
  }

  lemma BlockWrites(s: S, f: nat, k: nat)
    requires Own(s) && f < |s.files|
    ensures var t := FlushBlock(s, f, k);
            Wrote(s, t, DataBlocks(s, f, k, k + 1)) && StillBut(s, t, s.files[f].indirect)
  {
    hide Free, MapFile, WriteIfDirty, Wrote, Load, StillBut, Ref, InUse, Apart, FreeHasNoRefs;
    var m, ind := MapFile(s, f, k, false), s.files[f].indirect;
    MapReads(s, f, k);
    IndirectApart(s, f, f, k, k + 1);
    WroteNothing(s, ind);
    if ind < |s.mem| { LoadWrites(s, ind); }
    var blocks := DataBlocks(s, f, k, k + 1);
    assert blocks == if k < IND && Ref(s, f, k) != 0 then {Ref(s, f, k)} else {};
    if m.r > 0 {
      OneWrite(m.s, m.r);
      WroteTwice(s, m.s, WriteIfDirty(m.s, m.r), {}, {m.r}, ind);
      StillTwice(s, m.s, WriteIfDirty(m.s, m.r), ind);
      assert {} + {m.r} == blocks;
    }
  }

  lemma LoadWrites(s: S, b: nat)
    requires Shape(s) && b < |s.mem|
    ensures Wrote(s, Load(s, b), {}) && StillBut(s, Load(s, b), b)
  {}

  lemma OneWrite(s: S, b: nat)
    requires Shape(s) && b < |s.mem|
    ensures var t := WriteIfDirty(s, b);
            Wrote(s, t, {b}) && t.mapped == s.mapped && t.mem == s.mem && t.files == s.files
  {}

  lemma StillTwice(s: S, t: S, u: S, b: int)
    requires StillBut(s, t, b) && Shape(u) && u.mapped == t.mapped && u.mem == t.mem
    ensures StillBut(s, u, b)
  {}

  lemma SameDataBlocks(s: S, t: S, f: nat, lo: nat, hi: nat)
    requires Shape(s) && Shape(t) && |s.mem| == |t.mem| && f < |s.files| && SameRefs(s, t)
    ensures DataBlocks(t, f, lo, hi) == DataBlocks(s, f, lo, hi)
  {
    hide Ref;
    assert forall k :: lo <= k < hi && k < IND ==> Ref(t, f, k) == Ref(s, f, k);
  }

  lemma {:induction false} RangeWrites(s: S, f: nat, bno: nat, n: nat)
    requires Own(s) && f < |s.files|
    ensures var t := FlushFrom(s, f, bno, n);
            Wrote(s, t, DataBlocks(s, f, bno, n)) && StillBut(s, t, s.files[f].indirect)
    decreases n - bno
  {
    hide Free, Ref, FlushBlock, View, OnDisk, Wrote, InUse, Apart, FreeHasNoRefs, Clean;
    if bno < n {
      var c := FlushBlock(s, f, bno);
      FlushBlockEffect(s, f, bno);
      BlockWrites(s, f, bno);
      RangeWrites(c, f, bno + 1, n);
      FlushFromEffect(c, f, bno + 1, n);
      IndirectApart(s, f, f, bno + 1, n);
      SameDataBlocks(s, c, f, bno + 1, n);
      WroteTwice(s, c, FlushFrom(s, f, bno, n), DataBlocks(s, f, bno, bno + 1), DataBlocks(s, f, bno + 1, n),
                 s.files[f].indirect);
      SplitBlocks(s, f, bno, n);
    } else {
      WroteNothing(s, s.files[f].indirect);
      assert DataBlocks(s, f, bno, n) == {};
    }
  }

  lemma SplitBlocks(s: S, f: nat, lo: nat, hi: nat)
    requires Shape(s) && f < |s.files| && lo < hi
    ensures DataBlocks(s, f, lo, hi) == DataBlocks(s, f, lo, lo + 1) + DataBlocks(s, f, lo + 1, hi)
  {
    hide Ref;
  }

  /** file_flush writes exactly the dirty blocks of the file within its size. */
  lemma FlushWrites(s: S, f: nat)
    requires Own(s) && f < |s.files|
    ensures var t := Flush(s, f);
            CacheStep(s, t) && Wrote(s, t, FileBlocks(s, f)) && StillBut(s, t, s.files[f].indirect)
  {
    hide FlushFrom, DataBlocks, Own, Clean, Wrote, OnDisk, CacheStep;
    RangeWrites(s, f, 0, s.files[f].size / BY2BLK + 1);
    FlushEffect(s, f);
  }

  /** The blocks of f's parent directory, if it has one. */
  ghost function ParentBlocks(s: S, f: nat): set<int>
    requires Shape(s) && f < |s.files|
  {
    if 0 < s.files[f].dir < |s.files| then FileBlocks(s, s.files[f].dir) else {}
  }

  lemma ParentWrites(s: S, f: nat)
    requires Own(s) && f < |s.files|
    ensures CacheStep(s, FlushDir(s, f)) && Wrote(s, FlushDir(s, f), ParentBlocks(s, f))
  {
    hide Flush, FileBlocks, Own, Clean, Wrote, OnDisk, CacheStep;
    FlushDirEffect(s, f);
    if 0 < s.files[f].dir < |s.files| { FlushWrites(s, s.files[f].dir); } else { WroteNothing(s, 0); }
  }

  /** file_close writes exactly the dirty blocks of the file and of its parent directory, with the
      records in them, and changes nothing that the server sees. As long as free_block is as written,
      all data of the file within its size is then on the disk. */
  lemma CloseWrites(s: S, f: nat)
    requires Own(s) && f < |s.files|
    ensures var t := Close(s, f);
            && CacheStep(s, t) && Wrote(s, t, FileBlocks(s, f) + ParentBlocks(s, f))
            && (Clean(s) && s.files[f].typ != FTYPE_DIR ==>
                  forall k | 0 <= k <= s.files[f].size / BY2BLK && k < IND ::
                    0 < Ref(s, f, k) < |s.mem| ==> OnDisk(t, Ref(s, f, k)))
  {
    hide Flush, FlushDir, DataBlocks, InUse, Apart, FreeHasNoRefs, Clean, Wrote, OnDisk, Ref, View, Free;
    var u := Flush(s, f);
    FlushWrites(s, f);
    FlushEffect(s, f);
    ParentWrites(u, f);
    CacheTwice(s, u, Close(s, f));
    ParentStays(s, u, f);
    ParentApart(s, f);
    WroteTwice(s, u, Close(s, f), FileBlocks(s, f), ParentBlocks(s, f), s.files[f].indirect);
    if Clean(s) && s.files[f].typ != FTYPE_DIR { StaysOnDisk(s, u, Close(s, f), f); }
  }

  lemma ParentStays(s: S, u: S, f: nat)
    requires CacheStep(s, u) && f < |s.files|
    ensures ParentBlocks(u, f) == ParentBlocks(s, f)
  {
    hide Ref, Own, Clean, View, OnDisk, DataBlocks;
    if 0 < s.files[f].dir < |s.files| {
      SameDataBlocks(s, u, s.files[f].dir, 0, s.files[s.files[f].dir].size / BY2BLK + 1);
    }
  }

  lemma ParentApart(s: S, f: nat)
    requires Own(s) && f < |s.files|
    ensures s.files[f].indirect !in ParentBlocks(s, f)
  {
    hide Own, Ref, DataBlocks;
    if 0 < s.files[f].dir < |s.files| {
      IndirectApart(s, f, s.files[f].dir, 0, s.files[s.files[f].dir].size / BY2BLK + 1);
    }
  }

  lemma StaysOnDisk(s: S, u: S, t: S, f: nat)
    requires Own(s) && CacheStep(s, u) && CacheStep(u, t) && f < |s.files|
    requires forall k | 0 <= k <= s.files[f].size / BY2BLK && k < IND ::
               0 < Ref(s, f, k) < |s.mem| ==> OnDisk(u, Ref(s, f, k))
    ensures forall k | 0 <= k <= s.files[f].size / BY2BLK && k < IND ::
              0 < Ref(s, f, k) < |s.mem| ==> OnDisk(t, Ref(s, f, k))
  {
    hide Ref, Clean, View, OnDisk, Free;
  }

  /** file_set_size: the file has the new size. When it shrinks, its map is cut as file_truncate cuts
      it. When it does not, nothing else that the server sees changes: no pointer, no view, no bit and
      no other record; and the new record is on the disk exactly where its parent's dirty blocks are. */
  lemma SetSizeEffect(s: S, f: nat, size: Word)
    requires Own(s) && f < |s.files|
    ensures var t, was, now := SetSize(s, f, size), s.files[f].size / BY2BLK + 1, NewBlocks(size);
            && Own(t) && (Clean(s) ==> Clean(t)) && |t.files| == |s.files| && t.files[f].size == size
            && (s.files[f].size > size ==> Truncated(s, t, f, now, was) && SetTo(s, t, f, size))
            && (s.files[f].size <= size ==>
                  && |t.mem| == |s.mem| && t.files == s.files[f := s.files[f].(size := size)] && SameRefs(s, t)
                  && (forall x :: Free(t, x) == Free(s, x)) && (forall x | 0 <= x < |s.mem| :: View(t, x) == View(s, x))
                  && Wrote(s, t, ParentBlocks(t, f)))
  {
    hide Truncate, Free, Ref, FlushDir, Clean, InUse, Apart, FreeHasNoRefs, OnDisk, Truncated, SetTo, Wrote,
         ParentBlocks;
    TruncateEffect(s, f, size);
    var c := if s.files[f].size > size then Truncate(s, f, size) else s;
    SizeEffect(c, f, size);
    var u, t := SetSizeField(c, f, size), SetSize(s, f, size);
    ParentWrites(u, f);
    ParentStays(u, t, f);
    SameViewSameRefs(u, t);
    if s.files[f].size > size {
      SizeTwice(s, f, size);
      SetSizeCut(s, c, t, f, size);
    } else {
      GrownWrites(s, t, f, size);
    }
  }

  lemma SizeTwice(s: S, f: nat, size: Word)
    requires Shape(s) && f < |s.files|
    ensures var c := Truncate(s, f, size); SetSizeField(c, f, size) == c
  {
    var now, was := NewBlocks(size), s.files[f].size / BY2BLK + 1;
    var u := ClearRange(if now <= NDIRECT then SetCell(s, f, IND, 0) else s, f, now, was);
    TruncateIs(s, f, size);
    hide ClearRange, Truncate;
    var c := SetSizeField(u, f, size);
    assert c.files[f := c.files[f].(size := size)] == c.files;
  }

  lemma SetSizeCut(s: S, c: S, t: S, f: nat, size: Word)
    requires f < |s.files| && SameView(c, t) && SameRefs(c, t)
    requires var was, now := s.files[f].size / BY2BLK + 1, NewBlocks(size);
             Truncated(s, c, f, now, was) && SetTo(s, c, f, size)
    ensures var was, now := s.files[f].size / BY2BLK + 1, NewBlocks(size);
            Truncated(s, t, f, now, was) && SetTo(s, t, f, size)
  {
    SameBitmap(c, t);
    hide Ref, Free, View;
  }

  lemma GrownWrites(s: S, t: S, f: nat, size: Word)
    requires Shape(s) && f < |s.files|
    requires var u := SetSizeField(s, f, size);
             SameView(u, t) && Wrote(u, t, ParentBlocks(t, f)) && SameRefs(s, u) && SameRefs(u, t)
    ensures Wrote(s, t, ParentBlocks(t, f)) && SameRefs(s, t)
    ensures |t.mem| == |s.mem| && t.files == s.files[f := s.files[f].(size := size)]
    ensures forall x | 0 <= x < |s.mem| :: View(t, x) == View(s, x)
  {
    hide Ref, ParentBlocks;
    assert forall x | 0 <= x < |s.mem| :: View(SetSizeField(s, f, size), x) == View(s, x);
  }
}
