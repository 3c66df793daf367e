/** Runs of file operations: what every one of them keeps. */
module FsRun {
  import opened FsDisk
  import opened FsFile
  import opened FsDir
  import FsFormat

  datatype Op =
    | Open(path: string)
    | Create(path: string)
    | Remove(path: string)
    | Get(f: nat, k: nat)
    | Dirty(f: nat, offset: Word)
    | Store(f: nat, k: nat, data: Block)
    | SetSize(f: nat, size: Word)
    | Close(f: nat)
    | Sync

  /** Requests name live records, and data is stored only in files. */
  ghost predicate Asked(s: S, op: Op)
    requires Shape(s)
  {
    match op
    case Get(f, _) => Live(s, f)
    case Dirty(f, _) => Live(s, f)
    case Store(f, k, _) => IsFile(s, f) && k < IND
    case SetSize(f, _) => Live(s, f)
    case Close(f) => f < |s.files|
    case _ => true
  }

  /** In addition a directory is only read within its size, and never resized. */
  ghost predicate Legal(s: S, op: Op)
    requires Shape(s)
  {
    Asked(s, op) &&
    match op
    case Get(f, k) => IsFile(s, f) || k < Blocks(s, f)
    case Dirty(f, offset) => IsFile(s, f) || offset / BY2BLK < Blocks(s, f)
    case SetSize(f, _) => IsFile(s, f)
    case _ => true
  }

  ghost predicate Live(s: S, f: nat)
    requires Shape(s)
  {
    f < |s.files| && !Free(s, f / FILE2BLK)
  }

  ghost predicate IsFile(s: S, f: nat)
    requires Shape(s)
  {
    Live(s, f) && s.files[f].typ != FTYPE_DIR
  }

  lemma LegalAsked(s: S, op: Op)
    requires Shape(s) && Legal(s, op)
    ensures Asked(s, op)
  {}

  ghost function Step(s: S, op: Op): (t: S)
    requires Shape(s) && Asked(s, op)
    ensures Shape(t) && |t.mem| == |s.mem|
  {
    match op
    case Open(path) => Walk(s, path).s
    case Create(path) => FsDir.Create(s, path).s
    case Remove(path) => FsDir.Remove(s, path).s
    case Get(f, k) => GetFile(s, f, k).s
    case Dirty(f, offset) => FileDirty(s, f, offset).s
    case Store(f, k, data) => FsFile.Store(s, f, k, data).s
    case SetSize(f, size) => FsFile.SetSize(s, f, size)
    case Close(f) => FsFile.Close(s, f)
    case Sync => SyncIs(s); FsDisk.Sync(s)
  }

  lemma SyncIs(s: S)
    requires Shape(s)
    ensures |FsDisk.Sync(s).mem| == |s.mem|
  {
    SyncWritesAll(s);
  }

  /** Ownership, directories and the cache are in order. */
  ghost predicate Safe(s: S) { FsInv(s) && Clean(s) }

  lemma GetSafe(s: S, f: nat, k: nat)
    requires Safe(s) && Live(s, f) && (IsFile(s, f) || k < Blocks(s, f))
    ensures var g := GetFile(s, f, k).s; Safe(g) && Extends(s, g)
  {
    GetExtends(s, f, k);
    hide GetFile, Ref, Free, Clean;
    ExtendsKeeps(s, GetFile(s, f, k).s);
  }

  lemma DirtySafe(s: S, f: nat, offset: Word)
    requires Safe(s) && Live(s, f) && (IsFile(s, f) || offset / BY2BLK < Blocks(s, f))
    ensures Safe(FileDirty(s, f, offset).s) && Extends(s, FileDirty(s, f, offset).s)
  {
    DirtyEffect(s, f, offset);
    hide FileDirty, Ref, Free, Clean;
    var d := FileDirty(s, f, offset);
    MapsExtends(s, d.s, f, offset / BY2BLK);
    ExtendsKeeps(s, d.s);
  }

  lemma StoreSafe(s: S, f: nat, k: nat, data: Block)
    requires Safe(s) && IsFile(s, f) && k < IND
    ensures Safe(FsFile.Store(s, f, k, data).s) && Extends(s, FsFile.Store(s, f, k, data).s)
  {
    GetSafe(s, f, k);
    StoreEffect(s, f, k, data);
    hide FsFile.Store, GetFile, Ref, Free, Clean, View;
    var g, w := GetFile(s, f, k).s, FsFile.Store(s, f, k, data).s;
    assert Extends(g, w);
    ExtendsTwice(s, g, w);
    ExtendsKeeps(s, w);
  }

  /** file_truncate and file_set_size of a file keep the directories. */
  lemma TruncateSafe(s: S, f: nat, size: Word)
    requires Safe(s) && IsFile(s, f)
    ensures var t := Truncate(s, f, size); Safe(t) && IsFile(t, f) && forall x :: Free(t, x) == Free(s, x)
  {
    TruncateEffect(s, f, size);
    hide Truncate, Ref, Free, Clean;
    var t := Truncate(s, f, size);
    NonDirInv(s, t, f);
  }

  /** Only the block map and the size of a file that is no directory changed. */
  lemma NonDirInv(s: S, t: S, f: nat)
    requires FsInv(s) && Own(t) && |s.mem| == |t.mem| && !t.fix && IsFile(s, f)
    requires forall x :: Free(t, x) == Free(s, x)
    requires forall g, m | 0 <= g < |s.files| && 0 <= m < IND && g != f :: Ref(t, g, m) == Ref(s, g, m)
    requires forall g | 0 <= g < |s.files| :: t.files[g].name == s.files[g].name && t.files[g].typ == s.files[g].typ
    requires forall g | 0 <= g < |s.files| && g != f :: t.files[g].size == s.files[g].size
    ensures FsInv(t) && IsFile(t, f)
  {
    hide Ref, Free;
    forall g, i, j | 0 <= g < |t.files| && 0 <= i && 0 <= j && Present(t, g, i, j) && t.files[g].typ == FTYPE_DIR
      ensures Present(s, g, i, j) && Entry(s, g, i, j) == Entry(t, g, i, j)
    {
    }
  }

  lemma SetSizeSafe(s: S, f: nat, size: Word)
    requires Safe(s) && IsFile(s, f)
    ensures Safe(FsFile.SetSize(s, f, size)) && forall x :: Free(FsFile.SetSize(s, f, size), x) == Free(s, x)
  {
    hide Truncate, Ref, Free, Clean, FlushDir;
    TruncateSafe(s, f, size);
    var t := if s.files[f].size > size then Truncate(s, f, size) else s;
    var u := SetSizeField(t, f, size);
    SizeEffect(t, f, size);
    NonDirInv(t, u, f);
    FlushDirEffect(u, f);
    var v := FlushDir(u, f);
    CacheInv(u, v);
    SameViewSameRefs(u, v);
  }

  lemma SyncSafe(s: S)
    requires Safe(s)
    ensures var t := FsDisk.Sync(s); Safe(t) && Extends(s, t)
  {
    SyncFromEffect(s, 0);
    var t := FsDisk.Sync(s);
    SameViewSameRefs(s, t);
    hide Ref, Free, View;
    OwnShrinks(s, t);
    assert Extends(s, t);
    ExtendsKeeps(s, t);
    CleanKept(s, t, -1);
  }

  /** Every operation keeps ownership, unique names and cache coherence, and frees no block. */
  lemma StepKeeps(s: S, op: Op)
    requires Safe(s) && Legal(s, op)
    ensures Safe(Step(s, op)) && forall x :: Free(Step(s, op), x) ==> Free(s, x)
  {
    hide Ref, Free, Clean, Names, InUse, Apart, FreeHasNoRefs, FsDir.Create, FsDir.Remove, Walk, GetFile, FileDirty,
         FsFile.Store, FsFile.SetSize, FsFile.Close, FsDisk.Sync;
    match op
    case Open(path) => WalkEffect2(s, path);
    case Create(path) => CreateEffect(s, path);
    case Remove(path) => RemoveEffect(s, path);
    case Get(f, k) => GetSafe(s, f, k);
    case Dirty(f, offset) => DirtySafe(s, f, offset);
    case Store(f, k, data) => StoreSafe(s, f, k, data);
    case SetSize(f, size) => SetSizeSafe(s, f, size);
    case Close(f) => CloseEffect(s, f); CacheInv(s, FsFile.Close(s, f));
    case Sync => SyncSafe(s);
  }

  ghost predicate LegalRun(s: S, ops: seq<Op>)
    requires Shape(s)
    decreases |ops|
  {
    ops == [] || (Legal(s, ops[0]) && LegalRun(Step(s, ops[0]), ops[1..]))
  }

  ghost function Run(s: S, ops: seq<Op>): (t: S)
    requires Shape(s) && AskedRun(s, ops)
    ensures Shape(t) && |t.mem| == |s.mem|
    decreases |ops|
  {
    if ops == [] then s else Run(Step(s, ops[0]), ops[1..])
  }

  lemma {:induction false} RunKeeps(s: S, ops: seq<Op>)
    requires Safe(s) && LegalRun(s, ops)
    ensures AskedRun(s, ops) && Safe(Run(s, ops)) && forall x :: Free(Run(s, ops), x) ==> Free(s, x)
    decreases |ops|
  {
    hide Free, Clean, Names, InUse, Apart, FreeHasNoRefs, Step, Legal;
    if ops != [] {
      LegalAsked(s, ops[0]);
      StepKeeps(s, ops[0]);
      RunKeeps(Step(s, ops[0]), ops[1..]);
    }
  }

  /* ---------- ownership alone ---------- */

  lemma SizeOwns(s: S, f: nat, size: Word)
    requires Own(s) && f < |s.files|
    ensures Own(FsFile.SetSize(s, f, size))
  {
    hide Truncate, Free, Ref, FlushDir, Clean, Truncated, SetTo;
    TruncateEffect(s, f, size);
    var t := if s.files[f].size > size then Truncate(s, f, size) else s;
    SizeEffect(t, f, size);
    FlushDirEffect(SetSizeField(t, f, size), f);
  }

  lemma CreateOwns(s: S, path: string)
    requires Own(s)
    ensures Own(FsDir.Create(s, path).s)
  {
    hide Free, Ref, WalkFrom, DirAlloc, Components, Resolve, LeadsTo, Find, Clean, InUse, Apart, FreeHasNoRefs;
    assert Live(s, ROOT) by { assert s.mapped[1]; }
    WalkFinds(s, 0, ROOT, Components(path));
    var w := Walk(s, path);
    if w.r == -E_NOT_FOUND && w.dir != 0 {
      GrowOwns(w.s, w.dir);
      var a := DirAlloc(w.s, w.dir);
      if a.r >= 0 { SetNameSame(a.s, a.r, w.last); }
    }
  }

  lemma GrowOwns(s: S, d: nat)
    requires Own(s) && Live(s, d)
    ensures Own(DirAlloc(s, d).s)
  {
    hide ScanDir, GetFile, Free, Ref, FindFrom, Clean, InUse, Apart, FreeHasNoRefs;
    var n := Blocks(s, d);
    ScanFinds(s, d, "", 0, n);
    var a := ScanDir(s, d, "", 0, n).s;
    InUseStays(s, a, d);
    var size := (a.files[d].size + BY2BLK) % WORD;
    SizeEffect(a, d, size);
    GetEffect(SetSizeField(a, d, size), d, n);
  }

  lemma RemoveOwns(s: S, path: string)
    requires Own(s)
    ensures Own(FsDir.Remove(s, path).s)
  {
    hide Free, Ref, WalkFrom, Truncate, FsFile.Close, Components, Resolve, LeadsTo, Find, Clean, InUse, Apart,
         FreeHasNoRefs, Truncated, SetTo;
    assert Live(s, ROOT) by { assert s.mapped[1]; }
    WalkFinds(s, 0, ROOT, Components(path));
    var w := Walk(s, path);
    if w.r == 0 {
      TruncateEffect(w.s, w.file, 0);
      var t := Truncate(w.s, w.file, 0);
      SetNameSame(t, w.file, "");
      CloseEffect(SetName(t, w.file, ""), w.file);
    }
  }

  lemma SyncOwns(s: S)
    requires Own(s)
    ensures Own(FsDisk.Sync(s))
  {
    SyncFromEffect(s, 0);
    var t := FsDisk.Sync(s);
    SameViewSameRefs(s, t);
    hide Ref, Free, View;
    OwnShrinks(s, t);
  }

  /** Every operation keeps ownership, whatever kind of record it is asked for, and with free_block
      as written as well as repaired. */
  lemma StepOwns(s: S, op: Op)
    requires Own(s) && Asked(s, op)
    ensures Own(Step(s, op))
  {
    hide Ref, Free, Clean, InUse, Apart, FreeHasNoRefs, FsDir.Create, FsDir.Remove, Walk, GetFile, FileDirty,
         FsFile.Store,
         FsFile.SetSize, FsFile.Close, FsDisk.Sync, MapsBut, SameRefs;
    match op
    case Open(path) => OpenOwns(s, path);
    case Create(path) => CreateOwns(s, path);
    case Remove(path) => RemoveOwns(s, path);
    case Get(f, k) => GetEffect(s, f, k);
    case Dirty(f, offset) => DirtyEffect(s, f, offset);
    case Store(f, k, data) => StoreEffect(s, f, k, data);
    case SetSize(f, size) => SizeOwns(s, f, size);
    case Close(f) => CloseEffect(s, f);
    case Sync => SyncOwns(s);
  }

  lemma OpenOwns(s: S, path: string)
    requires Own(s)
    ensures Own(Walk(s, path).s)
  {
    hide WalkFrom, Components, Resolve, LeadsTo, Find, WalkKnown, Clean, InUse, Apart, FreeHasNoRefs;
    assert Live(s, ROOT) by { assert s.mapped[1]; }
    WalkFinds(s, 0, ROOT, Components(path));
  }

  ghost predicate AskedRun(s: S, ops: seq<Op>)
    requires Shape(s)
    decreases |ops|
  {
    ops == [] || (Asked(s, ops[0]) && AskedRun(Step(s, ops[0]), ops[1..]))
  }

  lemma {:induction false} RunOwns(s: S, ops: seq<Op>)
    requires Own(s) && AskedRun(s, ops)
    ensures Own(Run(s, ops))
    decreases |ops|
  {
    hide Free, InUse, Apart, FreeHasNoRefs, Step, Asked;
    if ops != [] {
      StepOwns(s, ops[0]);
      RunOwns(Step(s, ops[0]), ops[1..]);
    }
  }

  /** After any run no block is referenced from two places, counting every direct slot, indirect
      pointer and indirect entry of every file; every referenced block is on the disk, past the
      reserved ones and marked in use; and the next block handed out is the least free one, which
      nothing references. It holds of free_block as written and of its repair. */
  lemma NoBlockShared(s: S, ops: seq<Op>, f: nat, k: nat, g: nat, m: nat)
    requires Own(s) && AskedRun(s, ops)
    requires f < |s.files| && g < |s.files| && k <= IND && m <= IND && (f != g || k != m)
    ensures var t := Run(s, ops);
            && |t.files| == |s.files|
            && (Ref(t, f, k) != 0 ==>
                  && Ref(t, f, k) != Ref(t, g, m) && 3 <= Ref(t, f, k) < |t.mem| && !Free(t, Ref(t, f, k))
                  && AllocBlock(t).r != Ref(t, f, k))
            && (AllocBlock(t).r >= 0 ==>
                  Free(t, AllocBlock(t).r) && forall x :: 3 <= x < AllocBlock(t).r ==> !Free(t, x))
  {
    RunOwns(s, ops);
    AllocEffect(Run(s, ops));
    hide Run, AllocBlock, Ref, Free;
  }

  lemma {:induction false} LegalIsAsked(s: S, ops: seq<Op>)
    requires Shape(s) && LegalRun(s, ops)
    ensures AskedRun(s, ops)
    decreases |ops|
  {
    hide Step, Asked;
    if ops != [] { LegalIsAsked(Step(s, ops[0]), ops[1..]); }
  }

  /** After any run and fs_sync, what the server sees of every file's data is what is on the disk.
      Of the directories the disk has the records of just those blocks that somebody marked dirty. */
  lemma SyncedAfterRun(s: S, ops: seq<Op>, f: nat, k: nat)
    requires Safe(s) && LegalRun(s, ops) && f < |s.files| && k < IND
    ensures AskedRun(s, ops)
    ensures var t := Run(s, ops); var u := FsDisk.Sync(t);
            && |t.files| == |u.kept| == |t.kept| == |s.files| && SameView(t, u) && f / FILE2BLK < |t.mem|
            && (t.files[f].typ != FTYPE_DIR && Ref(t, f, k) != 0 ==>
                  Ref(t, f, k) < |t.mem| && u.disk[Ref(t, f, k)] == View(t, Ref(t, f, k)))
            && u.kept[f] == if t.mapped[f / FILE2BLK] && t.dirty[f / FILE2BLK] then t.files[f] else t.kept[f]
  {
    RunKeeps(s, ops);
    LegalIsAsked(s, ops);
    SyncWritesAll(Run(s, ops));
    hide Run, Ref, Free, View, Coherent, FsDisk.Sync;
  }

  /** A server booted on the image of any tree that fits stays safe through any run. */
  lemma ImageRunSafe(tree: seq<FsFormat.Node>, answers: seq<bool>, ops: seq<Op>)
    requires FsFormat.GoodTree(tree) && FsFormat.Fits(tree)
    requires (FsFormat.ImageFitsIff(tree); LegalRun(FsFormat.Mount(FsFormat.Image(tree), answers), ops))
    ensures FsFormat.Image(tree).next <= FsFormat.NBLOCK
    ensures var s := FsFormat.Mount(FsFormat.Image(tree), answers); AskedRun(s, ops) && Safe(Run(s, ops))
  {
    hide FsFormat.Image, FsFormat.Mount, Run, LegalRun, AskedRun, FsInv, Clean;
    FsFormat.ImageBuilt(tree, answers);
    RunKeeps(FsFormat.Mount(FsFormat.Image(tree), answers), ops);
  }
}
