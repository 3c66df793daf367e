/** The image builder of tools/fsformat.c as it runs: the array of blocks and nextbno, updated in
    place. Every routine leaves the state of the function of FsFormat that specifies it. */
module FsFormatter {
  import opened FsDisk
  import opened FsFile
  import opened FsDir
  import opened FsFormat

  class Formatter {
    const disk: array<Block>
    const files: array<File>
    var nextbno: nat

    ghost predicate Valid()
      reads this
    {
      disk.Length == NBLOCK && files.Length == FILE2BLK * NBLOCK && nextbno <= NBLOCK
    }

    ghost function Abs(): (b: B)
      requires Valid()
      reads this, disk, files
      ensures Shape(b.s) && |b.s.mem| == NBLOCK && |b.s.files| == files.Length
    {
      B(S(false, disk[..], seq(NBLOCK, _ => true), seq(NBLOCK, _ => false), seq(NBLOCK, _ => ZeroBlock()), files[..],
          NoRecords(), []), nextbno)
    }

    /** init_disk. */
    constructor ()
      ensures Valid() && fresh(disk) && fresh(files) && Abs() == InitDisk()
    {
      disk := new Block[NBLOCK](_ => ZeroBlock());
      files := new File[FILE2BLK * NBLOCK](_ => NoFile());
      nextbno := 2 + (NBLOCK + BIT2BLK - 1) / BIT2BLK;
      new;
      files[ROOT] := RootRecord();
      disk[2] := InitBitmap();
      assert files[..] == InitDisk().s.files;
      assert disk[..] == InitDisk().s.mem;
    }

    method NextBlock() returns (r: nat)
      requires Valid() && nextbno < NBLOCK
      modifies this
      ensures Valid() && r == old(nextbno) && nextbno == r + 1
    {
      r := nextbno;
      nextbno := nextbno + 1;
    }

    method FlushBitmap()
      requires Valid()
      modifies disk
      ensures Valid() && Abs().s == FsFormat.FlushBitmap(old(Abs()).s, 0, nextbno)
    {
      ghost var s := Abs().s;
      for i := 0 to nextbno
        invariant FsFormat.FlushBitmap(Abs().s, i, nextbno) == FsFormat.FlushBitmap(s, 0, nextbno)
      {
        hide GetWord, PutWord, WordWithBit;
        var k := 2 + i / BIT2BLK;
        disk[k] := PutWord(disk[k], i % BIT2BLK / 32, WordWithBit(GetWord(disk[k], i % BIT2BLK / 32), i % 32, false));
      }
    }

    method SaveBlockLink(f: nat, k: nat, bno: Word)
      requires Valid() && f < files.Length && k < NINDIRECT && (k >= NDIRECT ==> files[f].indirect < NBLOCK)
      requires SaveLink(Abs(), f, k, bno).next <= NBLOCK
      modifies this, disk, files
      ensures Valid() && Abs() == SaveLink(old(Abs()), f, k, bno)
    {
      if k < NDIRECT {
        files[f] := files[f].(direct := files[f].direct[k := bno]);
      } else {
        if files[f].indirect == 0 {
          var n := NextBlock();
          files[f] := files[f].(indirect := n);
        }
        disk[files[f].indirect] := PutWord(disk[files[f].indirect], k, bno);
      }
    }

    method MakeLinkBlock(d: nat, k: nat) returns (r: nat)
      requires Valid() && d < files.Length && k < NINDIRECT && (k >= NDIRECT ==> files[d].indirect < NBLOCK)
      requires MakeLink(Abs(), d, k).0.next <= NBLOCK
      modifies this, disk, files
      ensures Valid() && (Abs(), r) == MakeLink(old(Abs()), d, k)
    {
      hide SaveLink;
      SaveBlockLink(d, k, nextbno);
      files[d] := files[d].(size := (files[d].size + BY2BLK) % WORD);
      r := NextBlock();
    }

    /** The first empty record of block b, or FILE2BLK. */
    method EmptyRecord(b: nat) returns (j: nat)
      requires Valid() && b < NBLOCK
      ensures j == ScanBlock(Abs().s, b, "", 0)
    {
      j := 0;
      while j < FILE2BLK
        invariant j <= FILE2BLK && ScanBlock(Abs().s, b, "", 0) == ScanBlock(Abs().s, b, "", j)
      {
        if files[FILE2BLK * b + j].name == "" { return; }
        j := j + 1;
      }
    }

    method CreateFile(d: nat) returns (r: nat)
      requires Valid() && Built(Abs()) && IsDir(Abs().s, d) && FsFormat.CreateFile(Abs(), d).0.next <= NBLOCK
      modifies this, disk, files
      ensures Valid() && (Abs(), r) == FsFormat.CreateFile(old(Abs()), d)
    {
      hide MakeLink, Ref, Unique, Apart, InitBitmap, ZeroBlock, ScanBlock;
      assert DirShape(Abs().s, d);
      var n := files[d].size / BY2BLK;
      if n > 0 {
        LastBlock(Abs(), d, n - 1);
        var last := files[d].direct[n - 1];
        var j := EmptyRecord(last);
        if j < FILE2BLK { return FILE2BLK * last + j; }
      }
      var bno := MakeLinkBlock(d, n);
      r := FILE2BLK * bno;
    }

    /** write_file; ghost n is the number of entries of the directory. */
    method WriteFile(d: nat, name: string, content: seq<Byte>, ghost n: nat) returns (target: nat)
      requires Valid() && Built(Abs()) && IsDir(Abs().s, d) && Dense(Abs().s, d, n) && n < FILE2BLK * NDIRECT
               && NoEntry(Abs().s, d, name)
      requires GoodNode(FileNode(name, content)) && FsFormat.WriteFile(Abs(), d, name, content).0.next <= NBLOCK
      modifies this, disk, files
      ensures Valid() && (Abs(), target) == FsFormat.WriteFile(old(Abs()), d, name, content)
    {
      hide FsFormat.CreateFile, Ref, Unique, Apart, DirShape, InitBitmap, ZeroBlock, NoEntry, Dense, Recorded,
           SaveLink, Added, BlocksOf, LinkData;
      ghost var b := Abs();
      NewRecord(b, d, n, name, |content| % WORD, FTYPE_REG);
      target := CreateFile(d);
      ContentFits(|content|);
      files[target] := files[target].(name := name, size := |content| % WORD, typ := FTYPE_REG);
      ghost var u := Abs();
      RecordedFile(b, u, d, n, target, name, |content| % WORD);
      LinkAll(target, content);
    }

    /** The read loop of write_file. */
    method LinkAll(target: nat, content: seq<Byte>)
      requires Valid() && Built(Abs()) && target < files.Length && IsReg(Abs().s, target) && BlocksOf(|content|) <= IND
      requires forall m | 0 <= m < IND :: Ref(Abs().s, target, m) == 0
      requires LinkData(Abs(), target, 0, content).next <= NBLOCK
      modifies this, disk, files
      ensures Valid() && Abs() == LinkData(old(Abs()), target, 0, content)
    {
      ghost var u := Abs();
      var iblk: nat, rest := 0, content;
      while rest != []
        invariant Valid() && Built(Abs()) && IsReg(Abs().s, target) && iblk + BlocksOf(|rest|) <= IND
        invariant forall m | iblk <= m < IND :: Ref(Abs().s, target, m) == 0
        invariant LinkData(Abs(), target, iblk, rest) == LinkData(u, target, 0, content)
        decreases |rest|
      {
        iblk, rest := LinkOne(target, iblk, rest);
      }
      NoBlocks();
    }

    method LinkOne(target: nat, iblk: nat, rest: seq<Byte>) returns (k: nat, left: seq<Byte>)
      requires Valid() && Built(Abs()) && target < files.Length && IsReg(Abs().s, target) && rest != []
               && iblk + BlocksOf(|rest|) <= IND
      requires forall m | iblk <= m < IND :: Ref(Abs().s, target, m) == 0
      requires LinkData(Abs(), target, iblk, rest).next <= NBLOCK
      modifies this, disk, files
      ensures Valid() && Built(Abs()) && IsReg(Abs().s, target) && k + BlocksOf(|left|) <= IND && |left| < |rest|
      ensures forall m | k <= m < IND :: Ref(Abs().s, target, m) == 0
      ensures LinkData(Abs(), target, k, left) == LinkData(old(Abs()), target, iblk, rest)
    {
      hide Ref, Unique, Apart, DirShape, InitBitmap, ZeroBlock, SaveLink, BlocksOf;
      ghost var b := Abs();
      var n := Min(|rest|, BY2BLK);
      MoreBlocks(|rest|);
      NextIsWord(b, target, iblk, rest);
      AppendBlock(b, target, iblk, rest[..n]);
      IndirectInside(b, target);
      disk[nextbno] := rest[..n] + disk[nextbno][n..];
      var bno := NextBlock();
      assert Abs() == PutData(b, rest[..n]);
      SaveBlockLink(target, iblk, bno);
      k, left := iblk + 1, rest[n..];
    }

    lemma IndirectInside(b: B, f: nat)
      requires Built(b) && f < |b.s.files|
      ensures b.s.files[f].indirect < NBLOCK
    {
      assert Ref(b.s, f, IND) == b.s.files[f].indirect;
    }

    /** write_directory, over the entries as readdir gives them. */
    method WriteDirectory(d: nat, children: seq<Node>, ghost n: nat)
      requires Valid() && Built(Abs()) && IsDir(Abs().s, d) && Dense(Abs().s, d, n)
               && n + |children| <= FILE2BLK * NDIRECT
      requires Distinct(children)
               && (forall i | 0 <= i < |children| :: GoodNode(children[i]) && NoEntry(Abs().s, d, children[i].name))
      requires FsFormat.WriteDirectory(Abs(), d, children).next <= NBLOCK
      modifies this, disk, files
      ensures Valid() && Abs() == FsFormat.WriteDirectory(old(Abs()), d, children)
      decreases children
    {
      hide Ref, Unique, Apart, InitBitmap, ZeroBlock, DirShape, StoredNode, NoEntry, Later, GoodNode, Dense, Others,
           WriteNode;
      ghost var b := Abs();
      assert children[0..] == children;
      var i := 0;
      while i < |children|
        invariant 0 <= i <= |children| && Valid() && Built(Abs()) && IsDir(Abs().s, d) && Dense(Abs().s, d, n + i)
        invariant forall j | i <= j < |children| :: NoEntry(Abs().s, d, children[j].name)
        invariant FsFormat.WriteDirectory(Abs(), d, children[i..]) == FsFormat.WriteDirectory(b, d, children)
      {
        assert children[i..][0] == children[i] && children[i..][1..] == children[i + 1..];
        ghost var e := WriteNodeEffect(Abs(), d, n + i, children[i]);
        forall j | i < j < |children|
          ensures children[j].name != children[i].name && children[j].name != "" { GoodName(children[j]); }
        WriteEntry(d, children[i], n + i);
        i := i + 1;
      }
    }

    /** One entry: a file, or a directory and everything below it. */
    method WriteEntry(d: nat, node: Node, ghost n: nat)
      requires Valid() && Built(Abs()) && IsDir(Abs().s, d) && Dense(Abs().s, d, n) && n < FILE2BLK * NDIRECT
      requires GoodNode(node) && NoEntry(Abs().s, d, node.name) && WriteNode(Abs(), d, node).next <= NBLOCK
      modifies this, disk, files
      ensures Valid() && Abs() == WriteNode(old(Abs()), d, node)
      decreases node
    {
      hide Ref, Unique, Apart, InitBitmap, ZeroBlock, DirShape, NoEntry, Dense, Recorded, FsFormat.CreateFile,
           FsFormat.WriteFile, FsFormat.WriteDirectory;
      match node {
        case FileNode(name, content) =>
          var f := WriteFile(d, name, content, n);
        case DirNode(name, below) =>
          ghost var b := Abs();
          NewRecord(b, d, n, name, 0, FTYPE_DIR);
          var e := CreateFile(d);
          files[e] := files[e].(typ := FTYPE_DIR);
          files[e] := files[e].(name := name);
          ghost var u := Abs();
          assert u.s.files == SetRecord(FsFormat.CreateFile(b, d).0, e, name, 0, FTYPE_DIR).s.files;
          EmptyDirectory(b, u, d, n, e, name, below);
          WriteDirectory(e, below, 0);
      }
    }
  }
}
