/** The file server of fs/fs.c as it runs: its block cache, bitmap and records updated in place.
    Every routine leaves exactly the state of the function that specifies it; a panic is a
    precondition of the routine that panics, and ownership rules it out for all the others. */
module FsServer {
  import opened FsDisk
  import opened FsFile
  import opened FsDir

  class Server {
    const mem: array<Block>
    const mapped: array<bool>
    const dirty: array<bool>
    const disk: array<Block>
    const files: array<File>
    const kept: array<File>          // the records on the disk
    var grants: seq<bool>

    ghost predicate Valid()
    {
      && 3 < mem.Length == mapped.Length == dirty.Length == disk.Length <= MAXBLOCKS
      && files.Length == kept.Length == FILE2BLK * mem.Length && mem != disk && mapped != dirty && files != kept
    }

    /** The server's state as a value; free_block is as written. */
    ghost function Abs(): (s: S)
      requires Valid()
      reads this, mem, mapped, dirty, disk, files, kept
      ensures Shape(s) && |s.mem| == mem.Length && |s.files| == files.Length
    {
      S(false, mem[..], mapped[..], dirty[..], disk[..], files[..], kept[..], grants)
    }

    /** A mounted disk: nothing is cached yet. */
    constructor (image: seq<Block>, records: seq<File>, answers: seq<bool>)
      requires 3 < |image| <= MAXBLOCKS && |records| == FILE2BLK * |image|
      ensures Valid() && fresh(mem) && fresh(mapped) && fresh(dirty) && fresh(disk) && fresh(files) && fresh(kept)
      ensures Abs() == S(false, seq(|image|, _ => ZeroBlock()), seq(|image|, _ => false), seq(|image|, _ => false),
              image, records, records, answers)
    {
      var n := |image|;
      mem := new Block[n](_ => ZeroBlock());
      mapped := new bool[n](_ => false);
      dirty := new bool[n](_ => false);
      disk := new Block[n](i requires 0 <= i < n => image[i]);
      files := new File[FILE2BLK * n](i requires 0 <= i < FILE2BLK * n => records[i]);
      kept := new File[FILE2BLK * n](i requires 0 <= i < FILE2BLK * n => records[i]);
      grants := answers;
      new;
      assert mem[..] == seq(n, _ => ZeroBlock());
      assert mapped[..] == seq(n, _ => false) && dirty[..] == seq(n, _ => false);
      assert disk[..] == image && files[..] == records && kept[..] == records;
    }

    /* ---------- blocks ---------- */

    method BlockIsFree(b: nat) returns (r: bool)
      requires Valid()
      ensures r == Free(Abs(), b)
    {
      r := b < mem.Length && BitOf(GetWord(mem[2], b / 32), b % 32);
    }

    method LoadBlock(b: nat)
      requires Valid() && b < mem.Length
      modifies mem, mapped
      ensures Abs() == Load(old(Abs()), b)
    {
      if !mapped[b] {
        mem[b] := disk[b];
        mapped[b] := true;
      }
    }

    method WriteBlock(b: nat)
      requires Valid() && b < mem.Length && mapped[b]
      modifies dirty, disk, kept
      ensures Abs() == FsDisk.WriteBlock(old(Abs()), b)
    {
      ghost var s := Abs();
      disk[b] := mem[b];
      WriteRecords(b);
      dirty[b] := false;
      assert kept[..] == KeptWith(s, b);
    }

    /** The records of block b go to the disk with it. */
    method WriteRecords(b: nat)
      requires Valid() && b < mem.Length
      modifies kept
      ensures forall g | 0 <= g < kept.Length :: kept[g] == if g / FILE2BLK == b then files[g] else old(kept[g])
    {
      for j := 0 to FILE2BLK
        invariant forall g | 0 <= g < kept.Length :: kept[g] == if g / FILE2BLK == b && g % FILE2BLK < j then files[g]
                  else old(kept[g])
      {
        kept[FILE2BLK * b + j] := files[FILE2BLK * b + j];
      }
    }

    method MarkBlock(b: nat, free: bool)
      requires Valid() && b < mem.Length
      modifies mem
      ensures Abs() == FsDisk.MarkBlock(old(Abs()), b, free)
    {
      mem[2] := PutWord(mem[2], b / 32, WordWithBit(GetWord(mem[2], b / 32), b % 32, free));
    }

    /** free_block, as written: the bit is cleared. */
    method FreeBlock(b: nat)
      requires Valid() && 0 < b < mem.Length
      modifies mem
      ensures Abs() == FsDisk.FreeBlock(old(Abs()), b)
    {
      MarkBlock(b, false);
    }

    method AllocBlockNum() returns (r: int)
      requires Valid() && mapped[0]
      modifies mem, dirty, disk, kept
      ensures R(Abs(), r) == FsDisk.AllocBlockNum(old(Abs()))
    {
      ghost var s := Abs();
      FirstFreeIs(s, 3);
      var b := 3;
      while b < mem.Length
        invariant 3 <= b <= mem.Length && Abs() == s && FirstFree(s, 3) == FirstFree(s, b)
      {
        var free := BlockIsFree(b);
        if free {
          MarkBlock(b, false);
          WriteBlock(b / BIT2BLK);
          return b;
        }
        b := b + 1;
      }
      return -E_NO_DISK;
    }

    method MapBlock(b: nat) returns (r: int)
      requires Valid() && b < mem.Length
      modifies this, mem, mapped
      ensures R(Abs(), r) == FsDisk.MapBlock(old(Abs()), b)
    {
      if mapped[b] { return 0; }
      var granted := grants != [] && grants[0];
      grants := if grants == [] then [] else grants[1..];
      if !granted { return -E_NO_MEM; }
      mem[b] := ZeroBlock();
      mapped[b] := true;
      return 0;
    }

    method AllocBlock() returns (r: int)
      requires Valid() && mapped[0]
      modifies this, mem, mapped, dirty, disk, kept
      ensures R(Abs(), r) == FsDisk.AllocBlock(old(Abs()))
    {
      ghost var s := Abs();
      FirstFreeIs(s, 3);
      r := AllocBlockNum();
      if r < 0 { return; }
      var b := r;
      r := MapBlock(b);
      if r < 0 {
        FreeBlock(b);
        return;
      }
      r := b;
    }

    method BlockIsDirty(b: nat) returns (r: bool)
      requires Valid() && b < mem.Length
      ensures r == (mapped[b] && dirty[b])
    {
      r := mapped[b] && dirty[b];
    }

    method FsSync()
      requires Valid()
      modifies dirty, disk, kept
      ensures Abs() == Sync(old(Abs()))
    {
      ghost var s := Abs();
      for i := 0 to mem.Length
        invariant SyncFrom(Abs(), i) == Sync(s)
      {
        var d := BlockIsDirty(i);
        if d { WriteBlock(i); }
      }
    }

    /** check_write_block: the super block is backed up in block 0, smashed, written, read again and
        restored. The disk is as before; block 0 of the cache keeps the copy. */
    method CheckWriteBlock(smashed: Block)
      requires Valid() && mapped[1] && mem[1] == disk[1]
      modifies mem, mapped, dirty, disk, kept
      ensures mem[..] == old(mem[..])[0 := disk[1]] && mapped[..] == old(mapped[..])[0 := true]
              && disk[..] == old(disk[..])
      ensures kept[..] == KeptWith(old(Abs()), 1)
    {
      LoadBlock(0);
      mem[0] := mem[1];
      SmashSuper(smashed);
      mem[1] := mem[0];
      WriteBlock(1);
    }

    /** The super block is overwritten, written back, unmapped and read again. */
    method SmashSuper(smashed: Block)
      requires Valid() && mapped[1]
      modifies mem, mapped, dirty, disk, kept
      ensures mem[..] == old(mem[..])[1 := smashed] && mapped[..] == old(mapped[..])
              && disk[..] == old(disk[..])[1 := smashed]
      ensures kept[..] == KeptWith(old(Abs()), 1)
    {
      mem[1] := smashed;
      WriteBlock(1);
      assert disk[..] == old(disk[..])[1 := smashed];
      mapped[1] := false;
      LoadBlock(1);
      assert mem[1] == smashed && mapped[1];
    }

    method ClearDirty()
      requires Valid()
      modifies dirty
      ensures dirty[..] == seq(dirty.Length, _ => false)
    {
      for i := 0 to dirty.Length
        invariant forall j :: 0 <= j < i ==> !dirty[j]
      {
        dirty[i] := false;
      }
    }

    /** fs_init: read_super, check_write_block, read_bitmap. The reserved blocks must be in use. */
    method FsInit(smashed: Block)
      requires Valid() && !mapped[0] && !mapped[1] && !mapped[2]
      requires forall b :: 0 <= b < 3 ==> !Free(Booted(Abs()), b)
      modifies mem, mapped, dirty, disk, kept
      ensures Abs() == Booted(old(Abs()))
    {
      hide Free;
      LoadBlock(1);
      assert mem[..] == old(mem[..])[1 := disk[1]] && mapped[..] == old(mapped[..])[1 := true]
             && disk[..] == old(disk[..]);
      CheckWriteBlock(smashed);
      var nbitmap := mem.Length / BIT2BLK + 1;
      assert nbitmap == 1;
      LoadBlock(2);
      ClearDirty();
      assert mem[..] == old(mem[..])[0 := disk[1]][1 := disk[1]][2 := disk[2]];
      assert mapped[..] == old(mapped[..])[0 := true][1 := true][2 := true];
      assert kept[..] == KeptWith(old(Abs()), 1);
    }

    /* ---------- files ---------- */

    method ReadBlock(b: nat)
      requires Valid() && Own(Abs()) && b < mem.Length && !Free(Abs(), b)
      modifies mem, mapped
      ensures R(Abs(), 0) == FsDisk.ReadBlock(old(Abs()), b)
    {
      LoadBlock(b);
    }

    /** *ptr for pointer k of f, once file_block_walk has it in memory. */
    method ReadCell(f: nat, k: nat) returns (v: Word)
      requires Valid() && f < files.Length && k < IND
      requires k >= NDIRECT ==> 0 < files[f].indirect < mem.Length && mapped[files[f].indirect]
      ensures v == Ref(Abs(), f, k)
    {
      v := if k < NDIRECT then files[f].direct[k] else GetWord(mem[files[f].indirect], k);
    }

    method WriteCell(f: nat, k: nat, v: Word)
      requires Valid() && f < files.Length && k <= IND
      requires NDIRECT <= k < IND ==> files[f].indirect < mem.Length
      modifies mem, files
      ensures Abs() == SetCell(old(Abs()), f, k, v)
    {
      if k < NDIRECT {
        files[f] := files[f].(direct := files[f].direct[k := v]);
      } else if k == IND {
        files[f] := files[f].(indirect := v);
      } else {
        mem[files[f].indirect] := PutWord(mem[files[f].indirect], k, v);
      }
    }

    method FileBlockWalk(f: nat, k: nat, alloc: bool) returns (r: int)
      requires Valid() && Own(Abs()) && f < files.Length && (alloc ==> !Free(Abs(), f / FILE2BLK))
      modifies this, mem, mapped, dirty, disk, files, kept
      ensures R(Abs(), r) == BlockWalk(old(Abs()), f, k, alloc)
    {
      hide Free, FsDisk.AllocBlock, FsDisk.ReadBlock, InUse, Apart, FreeHasNoRefs, Clean;
      ghost var s := Abs();
      assert Ref(s, f, IND) == files[f].indirect;
      if k < NDIRECT { return 0; }
      if k >= NINDIRECT { return -E_INVAL; }
      if files[f].indirect == 0 {
        if !alloc { return -E_NOT_FOUND; }
        AllocInto(s, f, IND);
        r := AllocBlock();
        if r < 0 { return; }
        WriteCell(f, IND, r);
        assert Ref(Abs(), f, IND) == r;
      }
      Referenced(Abs(), f, IND);
      ReadBlock(files[f].indirect);
      r := 0;
    }

    lemma Referenced(s: S, f: nat, k: nat)
      requires Own(s) && f < |s.files| && k <= IND && Ref(s, f, k) != 0
      ensures 3 <= Ref(s, f, k) < |s.mem| && !Free(s, Ref(s, f, k))
    {
      hide Ref, Free;
    }

    method FileMapBlock(f: nat, k: nat, alloc: bool) returns (r: int)
      requires Valid() && Own(Abs()) && f < files.Length && (alloc ==> !Free(Abs(), f / FILE2BLK))
      modifies this, mem, mapped, dirty, disk, files, kept
      ensures R(Abs(), r) == MapFile(old(Abs()), f, k, alloc)
    {
      hide Free, Ref, FsDisk.AllocBlock, BlockWalk, InUse, Apart, FreeHasNoRefs, Clean;
      WalkEffect(Abs(), f, k, alloc);
      r := FileBlockWalk(f, k, alloc);
      if r < 0 { return; }
      var v := ReadCell(f, k);
      if v == 0 {
        if !alloc { return -E_NOT_FOUND; }
        AllocInto(Abs(), f, k);
        r := AllocBlock();
        if r < 0 { return; }
        WriteCell(f, k, r);
        v := r;
      }
      r := v;
    }

    method FileClearBlock(f: nat, k: nat) returns (r: int)
      requires Valid() && Own(Abs()) && f < files.Length
      modifies this, mem, mapped, dirty, disk, files, kept
      ensures R(Abs(), r) == ClearBlock(old(Abs()), f, k)
    {
      hide Free, Ref, BlockWalk, InUse, Apart, FreeHasNoRefs, Clean;
      WalkEffect(Abs(), f, k, false);
      r := FileBlockWalk(f, k, false);
      if r < 0 { return; }
      var v := ReadCell(f, k);
      if v != 0 {
        Referenced(Abs(), f, k);
        WriteCell(f, k, 0);
        FreeBlock(v);
      }
      r := 0;
    }

    method FileGetBlock(f: nat, k: nat) returns (r: int)
      requires Valid() && Own(Abs()) && f < files.Length && !Free(Abs(), f / FILE2BLK)
      modifies this, mem, mapped, dirty, disk, files, kept
      ensures R(Abs(), r) == GetFile(old(Abs()), f, k)
    {
      hide Free, Ref, MapFile, InUse, Apart, FreeHasNoRefs, Clean;
      MapEffect(Abs(), f, k, true);
      r := FileMapBlock(f, k, true);
      if r < 0 { return; }
      Referenced(Abs(), f, k);
      ReadBlock(r);
    }

    method FileDirty(f: nat, offset: Word) returns (r: int)
      requires Valid() && Own(Abs()) && f < files.Length && !Free(Abs(), f / FILE2BLK)
      modifies this, mem, mapped, dirty, disk, files, kept
      ensures R(Abs(), r) == FsFile.FileDirty(old(Abs()), f, offset)
    {
      hide Free, Ref, GetFile;
      r := FileGetBlock(f, offset / BY2BLK);
      if r < 0 { return; }
      dirty[r] := true;
      r := 0;
    }

    method FileTruncate(f: nat, newsize: Word)
      requires Valid() && Own(Abs()) && f < files.Length
      modifies this, mem, mapped, dirty, disk, files, kept
      ensures Abs() == Truncate(old(Abs()), f, newsize)
    {
      hide Free, Ref, ClearBlock, InUse, Apart, FreeHasNoRefs, Clean, SetCell;
      ghost var s := Abs();
      var oldBlocks := files[f].size / BY2BLK + 1;
      var newBlocks := newsize / BY2BLK + 1;
      if newsize == 0 { newBlocks := 0; }
      if newBlocks <= NDIRECT {
        SetIndirectNull(s, f, newBlocks);
        WriteCell(f, IND, 0);
      }
      ghost var u := Abs();
      var bno := newBlocks;
      while bno < oldBlocks
        invariant Own(Abs()) && newBlocks <= bno
                  && ClearRange(Abs(), f, bno, oldBlocks) == ClearRange(u, f, newBlocks, oldBlocks)
      {
        ClearEffect(Abs(), f, bno);
        var r := FileClearBlock(f, bno);
        bno := bno + 1;
      }
      files[f] := files[f].(size := newsize);
    }

    method FileFlush(f: nat)
      requires Valid() && Own(Abs()) && f < files.Length
      modifies this, mem, mapped, dirty, disk, files, kept
      ensures Abs() == Flush(old(Abs()), f)
    {
      hide Free, Ref, MapFile, InUse, Apart, FreeHasNoRefs, Clean;
      ghost var s := Abs();
      var n := files[f].size / BY2BLK + 1;
      var bno := 0;
      while bno < n
        invariant Own(Abs()) && FlushFrom(Abs(), f, bno, n) == FlushFrom(s, f, 0, n)
      {
        MapEffect(Abs(), f, bno, false);
        FlushBlockEffect(Abs(), f, bno);
        var r := FileMapBlock(f, bno, false);
        if r > 0 {
          var d := BlockIsDirty(r);
          if d { WriteBlock(r); }
        }
        bno := bno + 1;
      }
    }

    method FileSetSize(f: nat, newsize: Word)
      requires Valid() && Own(Abs()) && f < files.Length
      modifies this, mem, mapped, dirty, disk, files, kept
      ensures Abs() == SetSize(old(Abs()), f, newsize)
    {
      hide Free, Ref, Truncate, Flush, InUse, Apart, FreeHasNoRefs, Clean, Truncated, SetTo;
      if files[f].size > newsize {
        TruncateEffect(Abs(), f, newsize);
        FileTruncate(f, newsize);
      }
      SizeEffect(Abs(), f, newsize);
      files[f] := files[f].(size := newsize);
      if 0 < files[f].dir < files.Length { FileFlush(files[f].dir); }
    }

    method FileClose(f: nat)
      requires Valid() && Own(Abs()) && f < files.Length
      modifies this, mem, mapped, dirty, disk, files, kept
      ensures Abs() == Close(old(Abs()), f)
    {
      hide Free, Ref, Flush, InUse, Apart, FreeHasNoRefs, Clean;
      FlushEffect(Abs(), f);
      FileFlush(f);
      if 0 < files[f].dir < files.Length { FileFlush(files[f].dir); }
    }

    /* ---------- directories ---------- */

    /** The inner loop over the records of block b. */
    method ScanRecords(b: nat, name: string) returns (j: nat)
      requires Valid() && b < mem.Length
      ensures j == ScanBlock(Abs(), b, name, 0)
    {
      j := 0;
      while j < FILE2BLK
        invariant j <= FILE2BLK && ScanBlock(Abs(), b, name, 0) == ScanBlock(Abs(), b, name, j)
      {
        if files[FILE2BLK * b + j].name == name { return; }
        j := j + 1;
      }
    }

    /** The outer loop, over the blocks of directory d. */
    method ScanBlocks(d: nat, name: string, n: nat) returns (r: int)
      requires Valid() && Own(Abs()) && d < files.Length && !Free(Abs(), d / FILE2BLK) && n == Blocks(Abs(), d)
      modifies this, mem, mapped, dirty, disk, files, kept
      ensures R(Abs(), r) == ScanDir(old(Abs()), d, name, 0, n)
    {
      hide Free, Ref, GetFile, InUse, Apart, FreeHasNoRefs, Clean, ScanBlock, FindFrom;
      ghost var s := Abs();
      var i := 0;
      while i < n
        invariant i <= n == Blocks(Abs(), d) && Own(Abs()) && !Free(Abs(), d / FILE2BLK)
        invariant ScanDir(Abs(), d, name, i, n) == ScanDir(s, d, name, 0, n)
      {
        GetFinds(Abs(), d, name, i, n);
        r := FileGetBlock(d, i);
        if r < 0 { return; }
        var j := ScanRecords(r, name);
        if j < FILE2BLK { return FILE2BLK * r + j; }
        i := i + 1;
      }
      r := NONE;
    }

    method DirLookup(d: nat, name: string) returns (r: int)
      requires Valid() && Own(Abs()) && d < files.Length && !Free(Abs(), d / FILE2BLK)
      modifies this, mem, mapped, dirty, disk, files, kept
      ensures R(Abs(), r) == Lookup(old(Abs()), d, name)
    {
      hide Free, Ref, ScanDir, InUse, Apart, FreeHasNoRefs, Clean;
      r := ScanBlocks(d, name, files[d].size / BY2BLK);
      if r >= 0 {
        files[r] := files[r].(dir := d);
      } else if r == NONE {
        r := -E_NOT_FOUND;
      }
    }

    method DirAllocFile(d: nat) returns (r: int)
      requires Valid() && FsInv(Abs()) && d < files.Length && !Free(Abs(), d / FILE2BLK) && files[d].typ == FTYPE_DIR
      modifies this, mem, mapped, dirty, disk, files, kept
      ensures R(Abs(), r) == DirAlloc(old(Abs()), d)
    {
      hide Free, Ref, ScanDir, FindFrom, GetFile, InUse, Apart, FreeHasNoRefs, Clean, Names;
      ghost var s := Abs();
      var n := files[d].size / BY2BLK;
      ScanFinds(s, d, "", 0, n);
      r := ScanBlocks(d, "", n);
      if r != NONE { return; }
      ExtendsKeeps(s, Abs());
      MissingNoEntry(Abs(), d, "", 0, n);
      SizeGrows(Abs(), d);
      files[d] := files[d].(size := (files[d].size + BY2BLK) % WORD);
      r := FileGetBlock(d, n);
      if r < 0 { return; }
      r := FILE2BLK * r;
    }

    /** walk_path. The path is scanned in place: pos is the pointer into it. */
    method WalkPath(path: string) returns (r: int, dir: nat, file: nat, last: string)
      requires Valid() && Own(Abs())
      modifies this, mem, mapped, dirty, disk, files, kept
      ensures W(Abs(), r, dir, file, last) == Walk(old(Abs()), path)
    {
      hide Free, Ref, Lookup, Find, InUse, Apart, FreeHasNoRefs, Clean, Components;
      ghost var s := Abs();
      var pos := SkipSlashes(path, 0);
      dir, file := 0, ROOT;
      assert path[0..] == path;
      while pos < |path|
        invariant 0 <= pos <= |path| && (pos < |path| ==> path[pos] != '/')
        invariant Own(Abs()) && 0 < file < files.Length && !Free(Abs(), file / FILE2BLK)
        invariant WalkFrom(Abs(), dir, file, Components(path[pos..])) == WalkFrom(s, 0, ROOT, Components(path))
      {
        dir := file;
        var start := pos;
        pos := SkipName(path, start);
        var name := path[start..pos];
        if pos - start >= MAXNAMELEN { return -E_BAD_PATH, 0, 0, ""; }
        pos := SkipSlashes(path, pos);
        if files[dir].typ != FTYPE_DIR { return -E_NOT_FOUND, 0, 0, ""; }
        LookupFinds(Abs(), dir, name);
        r := DirLookup(dir, name);
        if r < 0 {
          NoComponents(path[pos..]);
          if r == -E_NOT_FOUND && pos == |path| { return r, dir, 0, name; }
          return r, 0, 0, "";
        }
        file := r;
      }
      NoComponents(path[pos..]);
      return 0, dir, file, "";
    }

    method SkipSlashes(path: string, from: nat) returns (pos: nat)
      requires from <= |path|
      ensures from <= pos <= |path| && (pos < |path| ==> path[pos] != '/')
      ensures Components(path[pos..]) == Components(path[from..])
    {
      SkipComponents(path[from..]);
      pos := from;
      while pos < |path| && path[pos] == '/'
        invariant from <= pos <= |path| && SkipSlash(path[from..]) == SkipSlash(path[pos..])
      {
        assert path[pos..][1..] == path[pos + 1..];
        pos := pos + 1;
      }
    }

    method SkipName(path: string, start: nat) returns (pos: nat)
      requires start < |path| && path[start] != '/'
      ensures start < pos <= |path| && Components(path[start..]) == [path[start..pos]] + Components(path[pos..])
    {
      hide Components, TakeName;
      pos := start;
      while pos < |path| && path[pos] != '/'
        invariant start <= pos <= |path| && TakeName(path[start..]) == path[start..pos] + TakeName(path[pos..])
      {
        NameGrows(path, start, pos);
        pos := pos + 1;
      }
      ComponentsStep(path, start, pos);
    }

    /** The name goes on with the character at pos. */
    lemma NameGrows(path: string, start: nat, pos: nat)
      requires start <= pos < |path| && path[pos] != '/'
      ensures path[start..pos] + TakeName(path[pos..]) == path[start..pos + 1] + TakeName(path[pos + 1..])
    {
      assert path[start..pos + 1] == path[start..pos] + [path[pos]];
      assert path[pos..][1..] == path[pos + 1..];
    }

    lemma SkipComponents(p: string)
      ensures Components(SkipSlash(p)) == Components(p)
    {
      var q := SkipSlash(p);
      assert SkipSlash(q) == q;
    }

    lemma NoComponents(p: string)
      requires p == "" || p[0] != '/'
      ensures Components(p) == [] <==> p == ""
    {}

    lemma ComponentsStep(path: string, start: nat, pos: nat)
      requires start < pos <= |path| && path[start] != '/' && TakeName(path[start..]) == path[start..pos]
               + TakeName(path[pos..])
      requires pos == |path| || path[pos] == '/'
      ensures Components(path[start..]) == [path[start..pos]] + Components(path[pos..])
    {
      var p := path[start..];
      assert SkipSlash(p) == p;
      assert TakeName(path[pos..]) == "";
      assert TakeName(p) == path[start..pos];
      assert p[pos - start..] == path[pos..];
    }

    method FileOpen(path: string) returns (r: int, file: nat)
      requires Valid() && Own(Abs())
      modifies this, mem, mapped, dirty, disk, files, kept
      ensures var w := Walk(old(Abs()), path); Abs() == w.s && r == w.r && file == w.file
    {
      var dir, last;
      r, dir, file, last := WalkPath(path);
    }

    method FileCreate(path: string) returns (r: int)
      requires Valid() && FsInv(Abs())
      modifies this, mem, mapped, dirty, disk, files, kept
      ensures R(Abs(), r) == Create(old(Abs()), path)
    {
      hide Free, Ref, Walk, DirAlloc, Components, Resolve, Clean, InUse, Apart, FreeHasNoRefs, Names, Find, LeadsTo,
           WalkKnown;
      WalkEffect2(Abs(), path);
      ghost var names := Components(path);
      var dir, file, name;
      r, dir, file, name := WalkPath(path);
      if r == 0 { return -E_FILE_EXISTS; }
      if r != -E_NOT_FOUND || dir == 0 { return; }
      LeadsDir(Abs(), ROOT, names, dir);
      DirAllocEffect(Abs(), dir);
      var f := DirAllocFile(dir);
      if f < 0 { return; }
      files[f] := files[f].(name := name);
      r := f;
    }

    method FileRemove(path: string) returns (r: int)
      requires Valid() && FsInv(Abs())
      modifies this, mem, mapped, dirty, disk, files, kept
      ensures R(Abs(), r) == Remove(old(Abs()), path)
    {
      hide Free, Ref, Walk, Truncate, Close, Components, Resolve, Clean, InUse, Apart, FreeHasNoRefs, Names, Find,
           LeadsTo, WalkKnown;
      WalkEffect2(Abs(), path);
      var dir, f, last;
      r, dir, f, last := WalkPath(path);
      if r < 0 { return; }
      TruncateInv(Abs(), f);
      FileTruncate(f, 0);
      UnnameInv(Abs(), f);
      files[f] := files[f].(name := "");
      FileClose(f);
      r := 0;
    }
  }
}
