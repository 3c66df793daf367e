/** Which directory records reach the disk (fs/fs.c): file_create stores the name, and dir_alloc_file
    the size, in a cached block that nobody marks dirty. */
module FsSaved {
  import opened FsDisk
  import opened FsFile
  import opened FsDir

  lemma UnwrittenTwice(s: S, t: S, u: S)
    requires Unwritten(s, t) && Unwritten(t, u)
    ensures Unwritten(s, u)
  {}

  /** alloc_block writes back no block but block 0. */
  lemma AllocUnwritten(s: S)
    requires Shape(s)
    ensures Unwritten(s, AllocBlock(s).s)
  {
    hide Free, FirstFree, BitOf, WithBit;
    FirstFreeIs(s, 3);
    var b := FirstFree(s, 3);
    assert b < |s.mem| ==> b / BIT2BLK == 0;
  }

  lemma WalkUnwritten(s: S, f: nat, k: nat, alloc: bool)
    requires Shape(s) && f < |s.files|
    ensures Unwritten(s, BlockWalk(s, f, k, alloc).s)
  {
    hide Free, AllocBlock, KeptWith;
    AllocUnwritten(s);
    UnwrittenTwice(s, AllocBlock(s).s, BlockWalk(s, f, k, alloc).s);
  }

  lemma MapUnwritten(s: S, f: nat, k: nat, alloc: bool)
    requires Shape(s) && f < |s.files|
    ensures Unwritten(s, MapFile(s, f, k, alloc).s)
  {
    hide Free, AllocBlock, BlockWalk, Ref;
    var w := BlockWalk(s, f, k, alloc).s;
    WalkUnwritten(s, f, k, alloc);
    AllocUnwritten(w);
    UnwrittenTwice(s, w, AllocBlock(w).s);
  }

  lemma GetUnwritten(s: S, f: nat, k: nat)
    requires Shape(s) && f < |s.files|
    ensures Unwritten(s, GetFile(s, f, k).s)
  {
    hide Free, MapFile;
    MapUnwritten(s, f, k, true);
  }

  lemma {:induction false} ScanUnwritten(s: S, d: nat, name: string, i: nat, n: nat)
    requires Shape(s) && d < |s.files|
    ensures Unwritten(s, ScanDir(s, d, name, i, n).s)
    decreases n - i
  {
    hide GetFile, ScanBlock;
    if i < n {
      var g := GetFile(s, d, i);
      GetUnwritten(s, d, i);
      if g.r >= 0 && ScanBlock(g.s, g.r, name, 0) == FILE2BLK {
        ScanUnwritten(g.s, d, name, i + 1, n);
        UnwrittenTwice(s, g.s, ScanDir(s, d, name, i, n).s);
      }
    }
  }

  lemma {:induction false} PathUnwritten(s: S, dir: nat, file: nat, names: seq<string>)
    requires Shape(s) && file < |s.files|
    ensures Unwritten(s, WalkFrom(s, dir, file, names).s)
    decreases |names|
  {
    hide ScanDir;
    if names != [] {
      var l := Lookup(s, file, names[0]);
      ScanUnwritten(s, file, names[0], 0, Blocks(s, file));
      if |names[0]| < MAXNAMELEN && s.files[file].typ == FTYPE_DIR && l.r >= 0 {
        PathUnwritten(l.s, file, l.r, names[1..]);
        UnwrittenTwice(s, l.s, WalkFrom(s, dir, file, names).s);
      }
    }
  }

  lemma GrowUnwritten(s: S, d: nat)
    requires Shape(s) && d < |s.files|
    ensures Unwritten(s, DirAlloc(s, d).s)
  {
    hide ScanDir, GetFile;
    var n := Blocks(s, d);
    var a := ScanDir(s, d, "", 0, n);
    ScanUnwritten(s, d, "", 0, n);
    if a.r == NONE {
      var u := SetSizeField(a.s, d, (a.s.files[d].size + BY2BLK) % WORD);
      GetUnwritten(u, d, n);
      UnwrittenTwice(s, u, GetFile(u, d, n).s);
    }
  }

  /** file_create writes nothing back and marks nothing dirty. */
  lemma CreateUnwritten(s: S, path: string)
    requires Shape(s)
    ensures Unwritten(s, Create(s, path).s)
  {
    hide WalkFrom, DirAlloc;
    var w := Walk(s, path);
    PathUnwritten(s, 0, ROOT, Components(path));
    if w.r == -E_NOT_FOUND && w.dir != 0 {
      GrowUnwritten(w.s, w.dir);
      UnwrittenTwice(s, w.s, DirAlloc(w.s, w.dir).s);
    }
  }

  /* ---------- the new record's block ---------- */

  /** A record that the scan returns is in a cached data block. */
  lemma {:induction false} ScanCached(s: S, d: nat, name: string, i: nat, n: nat)
    requires Own(s) && d < |s.files| && !Free(s, d / FILE2BLK) && n == Blocks(s, d)
    ensures var l := ScanDir(s, d, name, i, n); l.r >= 0 ==>
            3 <= l.r / FILE2BLK < |l.s.mem| && l.s.mapped[l.r / FILE2BLK]
    decreases n - i
  {
    hide GetFile, Free, Ref, ScanBlock, InUse, Apart, FreeHasNoRefs;
    if i < n {
      var g := GetFile(s, d, i);
      GetEffect(s, d, i);
      GetFinds(s, d, name, i, n);
      if g.r >= 0 {
        var j := ScanBlock(g.s, g.r, name, 0);
        if j < FILE2BLK { SlotBlock(g.r, j); } else { ScanCached(g.s, d, name, i + 1, n); }
      }
    }
  }

  lemma GrowCached(s: S, d: nat)
    requires FsInv(s) && d < |s.files| && s.files[d].typ == FTYPE_DIR && !Free(s, d / FILE2BLK)
    ensures var a := DirAlloc(s, d); a.r >= 0 ==> 3 <= a.r / FILE2BLK < |a.s.mem| && a.s.mapped[a.r / FILE2BLK]
  {
    hide ScanDir, FindFrom, Free, Ref, GetFile, Names, InUse, Apart, FreeHasNoRefs, Clean;
    var n := Blocks(s, d);
    var a := ScanDir(s, d, "", 0, n);
    ScanCached(s, d, "", 0, n);
    ScanFinds(s, d, "", 0, n);
    if a.r == NONE {
      ExtendsKeeps(s, a.s);
      InUseStays(s, a.s, d);
      MissingNoEntry(a.s, d, "", 0, n);
      SizeGrows(a.s, d);
      var u := SetSizeField(a.s, d, (a.s.files[d].size + BY2BLK) % WORD);
      GetEffect(u, d, n);
      if GetFile(u, d, n).r >= 0 { SlotBlock(GetFile(u, d, n).r, 0); }
    }
  }

  lemma CreateCached(s: S, path: string)
    requires FsInv(s) && Create(s, path).r >= 0
    ensures var c := Create(s, path); 3 <= c.r / FILE2BLK < |c.s.mem| && c.s.mapped[c.r / FILE2BLK]
  {
    hide Ref, Free, Walk, DirAlloc, Components, Resolve, Clean, InUse, Apart, FreeHasNoRefs, Names, Find, WalkKnown,
         LeadsTo;
    var w := Walk(s, path);
    WalkEffect2(s, path);
    LeadsDir(w.s, ROOT, Components(path), w.dir);
    GrowCached(w.s, w.dir);
  }

  /** A created name is on the disk after fs_sync exactly when its directory block was marked dirty
      before the creation, for some other reason, or the disk has that very record already. */
  lemma CreatedOnDiskIff(s: S, path: string)
    requires FsInv(s) && Create(s, path).r >= 0
    ensures var (c, f) := (Create(s, path).s, Create(s, path).r);
            var t := Sync(c);
            && f < |t.files| && |t.kept| == |t.files| == |s.kept| && 3 <= f / FILE2BLK < |s.dirty| && t.files == c.files
            && (t.kept[f] == t.files[f] <==> s.dirty[f / FILE2BLK] || s.kept[f] == c.files[f])
  {
    hide Create, Free, Ref, Names, InUse, Apart, FreeHasNoRefs, Sync, Components, Resolve;
    CreateEffect(s, path);
    CreateUnwritten(s, path);
    CreateCached(s, path);
    SyncWritesAll(Create(s, path).s);
  }

  /** On a server that has just been booted or synced, creating files and fs_sync leave every record
      on the disk as it was. */
  lemma CreatedThenSyncedIsLost(s: S, path: string)
    requires Shape(s) && forall x :: 3 <= x < |s.mem| ==> !s.dirty[x]
    ensures var t := Sync(Create(s, path).s);
            |t.kept| == |s.kept| && forall g :: 3 * FILE2BLK <= g < |s.kept| ==> t.kept[g] == s.kept[g]
  {
    hide Create, Sync;
    CreateUnwritten(s, path);
    SyncWritesAll(Create(s, path).s);
  }
}
