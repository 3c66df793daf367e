/** The image builder tools/fsformat.c, and what fs/fs.c reads back from the image. */
module FsFormat {
  import opened Numbers
  import opened FsDisk
  import opened FsFile
  import opened FsDir

  const NBLOCK := 1024
  const FTYPE_REG := 0

  /** The builder: its array of blocks (all in memory), the File records in them, and nextbno. */
  datatype B = B(s: S, next: nat)

  /** A source tree: what write_directory walks. */
  datatype Node = FileNode(name: string, content: seq<Byte>) | DirNode(name: string, children: seq<Node>)

  /* ---------- the code on values ---------- */

  // Stores past the last block are dropped; results are read only where all fits.

  function InitBitmap(): Block { seq(BY2BLK, i => if i < NBLOCK / 8 then 255 else 0) }

  function RootRecord(): File { NoFile().(name := "/", typ := FTYPE_DIR) }

  function NoRecords(): seq<File> { seq(FILE2BLK * NBLOCK, _ => NoFile()) }

  /** init_disk. */
  function InitDisk(): (b: B)
    ensures Shape(b.s) && |b.s.mem| == NBLOCK
  {
    B(S(false, seq(NBLOCK, _ => ZeroBlock())[2 := InitBitmap()], seq(NBLOCK, _ => true), seq(NBLOCK, _ => false),
        seq(NBLOCK, _ => ZeroBlock()), seq(FILE2BLK * NBLOCK, i => if i == ROOT then RootRecord() else NoFile()),
            NoRecords(), []), 3)
  }

  /** save_block_link. */
  function SaveLink(b: B, f: nat, k: nat, v: Word): (t: B)
    requires Shape(b.s) && f < |b.s.files| && k < IND
    ensures Shape(t.s) && |t.s.mem| == |b.s.mem| && b.next <= t.next
  {
    if k < NDIRECT then B(SetCell(b.s, f, k, v), b.next)
    else
      var c := if b.s.files[f].indirect == 0 then B(SetCell(b.s, f, IND, b.next % WORD), b.next + 1) else b;
      if c.s.files[f].indirect < |c.s.mem| then B(SetCell(c.s, f, k, v), c.next) else c
  }

  /** make_link_block: the link is stored before the block is taken. */
  function MakeLink(b: B, d: nat, k: nat): (r: (B, nat))
    requires Shape(b.s) && d < |b.s.files| && k < IND
    ensures Shape(r.0.s) && |r.0.s.mem| == |b.s.mem| && b.next < r.0.next
  {
    var l := SaveLink(b, d, k, b.next % WORD);
    var t := SetSizeField(l.s, d, (l.s.files[d].size + BY2BLK) % WORD);
    (B(t, l.next + 1), l.next)
  }

  /** create_file: an empty record in the last block of the directory, or in one more block. */
  function CreateFile(b: B, d: nat): (r: (B, nat))
    requires Shape(b.s) && d < |b.s.files|
    ensures Shape(r.0.s) && |r.0.s.mem| == |b.s.mem| && b.next <= r.0.next
  {
    var n := Blocks(b.s, d);
    var last := if 0 < n <= NDIRECT then b.s.files[d].direct[n - 1] as nat else 0;
    var j := if 0 < n && last < |b.s.mem| then ScanBlock(b.s, last, "", 0) else FILE2BLK;
    if j < FILE2BLK then (b, FILE2BLK * last + j)
    else if n < IND then
      var m := MakeLink(b, d, n);
      (m.0, FILE2BLK * m.1)
    else (b, 0)
  }

  function Min(a: nat, b: nat): nat { if a < b then a else b }

  /** The read loop of write_file: blocks of content from block k of f on. */
  function LinkData(b: B, f: nat, k: nat, content: seq<Byte>): (t: B)
    requires Shape(b.s) && f < |b.s.files|
    ensures Shape(t.s) && |t.s.mem| == |b.s.mem| && b.next <= t.next
    decreases |content|
  {
    if content == [] || k >= IND then b
    else
      var n := Min(|content|, BY2BLK);
      LinkData(SaveLink(PutData(b, content[..n]), f, k, b.next % WORD), f, k + 1, content[n..])
  }

  /** read into the next block, which is then taken: the front of the block is overwritten. */
  function PutData(b: B, data: seq<Byte>): (t: B)
    requires Shape(b.s) && |data| <= BY2BLK
    ensures Shape(t.s) && |t.s.mem| == |b.s.mem| && |t.s.files| == |b.s.files| && t.next == b.next + 1
  {
    if b.next < |b.s.mem| then B(b.s.(mem := b.s.mem[b.next := data + b.s.mem[b.next][|data|..]]), b.next + 1)
    else B(b.s, b.next + 1)
  }

  function SetRecord(b: B, f: nat, name: string, size: Word, typ: Word): (t: B)
    requires Shape(b.s) && f < |b.s.files|
    ensures Shape(t.s) && |t.s.mem| == |b.s.mem| && t.next == b.next
  {
    B(b.s.(files := b.s.files[f := b.s.files[f].(name := name, size := size, typ := typ)]), b.next)
  }

  /** write_file: the builder and the slot of the file. */
  function WriteFile(b: B, d: nat, name: string, content: seq<Byte>): (r: (B, nat))
    requires Shape(b.s) && d < |b.s.files|
    ensures Shape(r.0.s) && |r.0.s.mem| == |b.s.mem| && b.next <= r.0.next
  {
    var c := CreateFile(b, d);
    if c.1 >= |c.0.s.files| then c
    else (LinkData(SetRecord(c.0, c.1, name, |content| % WORD, FTYPE_REG), c.1, 0, content), c.1)
  }

  /** write_directory. */
  function WriteDirectory(b: B, d: nat, children: seq<Node>): (t: B)
    requires Shape(b.s) && d < |b.s.files|
    ensures Shape(t.s) && |t.s.mem| == |b.s.mem| && b.next <= t.next
    decreases children
  {
    if children == [] then b else WriteDirectory(WriteNode(b, d, children[0]), d, children[1..])
  }

  function WriteNode(b: B, d: nat, node: Node): (t: B)
    requires Shape(b.s) && d < |b.s.files|
    ensures Shape(t.s) && |t.s.mem| == |b.s.mem| && b.next <= t.next
    decreases node
  {
    match node
    case FileNode(name, content) => WriteFile(b, d, name, content).0
    case DirNode(name, children) =>
      var c := CreateFile(b, d);
      if c.1 >= |c.0.s.files| then c.0
      else WriteDirectory(SetRecord(c.0, c.1, name, c.0.s.files[c.1].size, FTYPE_DIR), c.1, children)
  }

  /** flush_bitmap, from block i on. */
  function FlushBitmap(s: S, i: nat, next: nat): (t: S)
    requires Shape(s) && next <= |s.mem|
    ensures Shape(t) && |t.mem| == |s.mem|
    decreases next - i
  {
    if i >= next then s
    else
      var w := WordWithBit(GetWord(s.mem[2 + i / BIT2BLK], i % BIT2BLK / 32), i % 32, false);
      FlushBitmap(s.(mem := s.mem[2 + i / BIT2BLK := PutWord(s.mem[2 + i / BIT2BLK], i % BIT2BLK / 32, w)]), i + 1,
          next)
  }

  /** finish_fs and then fs_init: the server's state on the finished image. check_write_block
      leaves a copy of the super block in the cached block 0. */
  function Mount(b: B, answers: seq<bool>): (t: S)
    requires Shape(b.s) && b.next <= |b.s.mem|
    ensures Shape(t) && |t.mem| == |b.s.mem|
  {
    var image := FlushBitmap(b.s, 0, b.next).mem;
    Booted(S(false, seq(|image|, _ => ZeroBlock()), seq(|image|, _ => false), seq(|image|, _ => false), image,
        b.s.files, b.s.files, answers))
  }

  /* ---------- what the builder keeps ---------- */

  ghost predicate Shaped(b: B) {
    && Shape(b.s) && !b.s.fix && |b.s.mem| == NBLOCK && 3 <= b.next <= NBLOCK
    && forall x | 0 <= x < NBLOCK :: b.s.mapped[x]
  }

  /** Every pointer goes to a block already taken, no two to the same; blocks not yet taken are zero
      and hold no record; an unnamed record is empty; a directory has exactly the direct blocks of
      its size; names in a directory are unique; the bitmap is still that of init_disk. */
  ghost predicate Built(b: B) {
    && Shaped(b) && Apart(b.s)
    && (forall g, m | 0 <= g < |b.s.files| && 0 <= m <= IND :: Ref(b.s, g, m) != 0 ==> 3 <= Ref(b.s, g, m) < b.next)
    && (forall x | b.next <= x < NBLOCK :: b.s.mem[x] == ZeroBlock())
    && (forall g | 0 <= g < |b.s.files| :: g / FILE2BLK >= b.next ==> b.s.files[g].name == "")
    && (forall g | 0 <= g < |b.s.files| :: b.s.files[g].name == "" ==> b.s.files[g] == NoFile())
    && (forall d | 0 <= d < |b.s.files| :: b.s.files[d].typ == FTYPE_DIR ==> DirShape(b.s, d))
    && Unique(b.s) && b.s.mem[2] == InitBitmap()
  }

  ghost predicate DirShape(s: S, d: nat)
    requires Shape(s) && d < |s.files|
  {
    && s.files[d].size % BY2BLK == 0 && Blocks(s, d) <= NDIRECT && s.files[d].indirect == 0
    && forall k | 0 <= k < NDIRECT :: k < Blocks(s, d) <==> Ref(s, d, k) != 0
  }

  /** From b to t nothing written before is lost: names and types stay, files keep their record,
      block map and contents, directories keep their blocks and only grow. */
  ghost predicate Later(b: B, t: B) {
    && Shape(b.s) && Shape(t.s) && |b.s.mem| == |t.s.mem| && b.next <= t.next
    && (forall g | 0 <= g < |b.s.files| && b.s.files[g].name != "" :: KeptRecord(b.s, t.s, g))
    && (forall g, m | 0 <= g < |b.s.files| && 0 <= m < IND && b.s.files[g].name != "" :: Ref(b.s, g, m) != 0 ==>
          KeptBlock(b.s, t.s, g, m))
    && (forall g, m | 0 <= g < |b.s.files| && 0 <= m < IND && IsReg(b.s, g) :: Ref(t.s, g, m) == Ref(b.s, g, m))
  }

  ghost predicate IsReg(s: S, g: nat)
    requires g < |s.files|
  {
    s.files[g].name != "" && s.files[g].typ != FTYPE_DIR
  }

  ghost predicate KeptRecord(s: S, t: S, g: nat)
    requires g < |s.files| && g < |t.files|
  {
    && t.files[g].name == s.files[g].name && t.files[g].typ == s.files[g].typ
    && (if s.files[g].typ == FTYPE_DIR then Blocks(t, g) >= Blocks(s, g) else t.files[g].size == s.files[g].size)
  }

  ghost predicate KeptBlock(s: S, t: S, g: nat, m: nat)
    requires Shape(s) && Shape(t) && |s.mem| == |t.mem| && g < |s.files| && m < IND
  {
    Ref(t, g, m) == Ref(s, g, m) && (Ref(s, g, m) < |s.mem| ==> View(t, Ref(s, g, m)) == View(s, Ref(s, g, m)))
  }

  lemma LaterTwice(b: B, c: B, t: B)
    requires Later(b, c) && Later(c, t)
    ensures Later(b, t)
  {
    hide Ref, View, Blocks;
    forall g, m | 0 <= g < |b.s.files| && 0 <= m < IND && b.s.files[g].name != "" && Ref(b.s, g, m) != 0
      ensures KeptBlock(b.s, t.s, g, m)
    {
      assert KeptRecord(b.s, c.s, g) && KeptBlock(b.s, c.s, g, m) && KeptBlock(c.s, t.s, g, m);
    }
    forall g, m | 0 <= g < |b.s.files| && 0 <= m < IND && IsReg(b.s, g) ensures Ref(t.s, g, m) == Ref(b.s, g, m) {
      assert KeptRecord(b.s, c.s, g);
    }
    forall g | 0 <= g < |b.s.files| && b.s.files[g].name != "" ensures KeptRecord(b.s, t.s, g) {
      assert KeptRecord(b.s, c.s, g) && KeptRecord(c.s, t.s, g);
    }
  }

  /* ---------- init_disk ---------- */

  lemma InitBuilt()
    ensures Built(InitDisk())
  {
    hide InitBitmap, ZeroBlock, Unique;
    var b := InitDisk();
    forall g | 0 <= g < |b.s.files|
      ensures b.s.files[g] == (if g == ROOT then RootRecord() else NoFile()) && b.s.files[g].direct == NoFile().direct
              && b.s.files[g].indirect == 0
    {
    }
    forall g, m | 0 <= g < |b.s.files| && 0 <= m <= IND ensures Ref(b.s, g, m) == 0 {}
    assert Blocks(b.s, ROOT) == 0;
    hide Ref;
    assert DirShape(b.s, ROOT);
    NoPresent(b.s);
  }

  lemma NoPresent(s: S)
    requires Shape(s) && forall g | 0 <= g < |s.files| :: s.files[g].typ == FTYPE_DIR ==> Blocks(s, g) == 0
    ensures Unique(s)
  {
    hide Ref;
  }

  /* ---------- save_block_link ---------- */

  /** One link stored in a null pointer of file f, and possibly a fresh indirect block, the next one;
      every block but the indirect one keeps its contents. */
  ghost predicate Linked(b: B, t: B, f: nat, k: nat, v: Word) {
    && Shape(b.s) && Shape(t.s) && |b.s.mem| == |t.s.mem| && b.s.fix == t.s.fix && f < |b.s.files| && k < IND
    && b.next <= t.next
    && t.s.mapped == b.s.mapped
    && (forall g | 0 <= g < |b.s.files| && g != f :: t.s.files[g] == b.s.files[g])
    && t.s.files[f] == b.s.files[f].(direct := t.s.files[f].direct, indirect := t.s.files[f].indirect)
    && (forall g, m | 0 <= g < |b.s.files| && 0 <= m < IND ::
          Ref(t.s, g, m) == if g == f && m == k then v else Ref(b.s, g, m))
    && (forall g | 0 <= g < |b.s.files| && g != f :: Ref(t.s, g, IND) == Ref(b.s, g, IND))
    && (if t.next == b.next then Ref(t.s, f, IND) == Ref(b.s, f, IND)
        else t.next == b.next + 1 && Ref(t.s, f, IND) == b.next)
    && (forall x | 0 <= x < |b.s.mem| && x != Ref(t.s, f, IND) :: t.s.mem[x] == b.s.mem[x])
  }

  lemma SaveLinkEffect(b: B, f: nat, k: nat, v: Word)
    requires Built(b) && f < |b.s.files| && k < IND && Ref(b.s, f, k) == 0 && IsReg(b.s, f)
    requires 3 <= v < b.next && forall g, m | 0 <= g < |b.s.files| && 0 <= m <= IND :: Ref(b.s, g, m) != v
    requires SaveLink(b, f, k, v).next <= NBLOCK
    ensures var t := SaveLink(b, f, k, v); Built(t) && Linked(b, t, f, k, v)
  {
    hide ZeroBlock, InitBitmap, Unique;
    assert Ref(b.s, f, IND) == b.s.files[f].indirect;
    var t := SaveLink(b, f, k, v);
    if k >= NDIRECT && b.s.files[f].indirect == 0 {
      FreshIndirect(b, f, k, v);
    } else {
      SetCellRefs(b.s, f, k, v);
      assert Linked(b, t, f, k, v);
    }
    hide Ref;
    LinkBuilt(b, t, f, k, v);
  }

  lemma FreshIndirect(b: B, f: nat, k: nat, v: Word)
    requires Built(b) && f < |b.s.files| && NDIRECT <= k < IND && b.s.files[f].indirect == 0 && b.next < NBLOCK
    ensures Linked(b, SaveLink(b, f, k, v), f, k, v)
  {
    hide ZeroBlock, InitBitmap, Unique, Ref, SetCell, SaveLink, Linked, Apart, DirShape;
    var c := SetCell(b.s, f, IND, b.next);
    FreshIs(b, f, k, v);
    SetIndirectRefs(b.s, f, b.next);
    FreshApart(b, c, f);
    SetCellRefs(c, f, k, v);
    FreshLinked(b, c, SetCell(c, f, k, v), f, k, v);
  }

  lemma FreshIs(b: B, f: nat, k: nat, v: Word)
    requires Shape(b.s) && f < |b.s.files| && NDIRECT <= k < IND && b.s.files[f].indirect == 0 && 0 < b.next < |b.s.mem|
             && |b.s.mem| == NBLOCK
    ensures var c := SetCell(b.s, f, IND, b.next);
            && Shape(c) && c.files[f].indirect == b.next && c.mapped == b.s.mapped && |c.mem| == |b.s.mem|
            && |c.files| == |b.s.files|
            && SaveLink(b, f, k, v) == B(SetCell(c, f, k, v), b.next + 1) && Ref(b.s, f, IND) == 0
  {}

  lemma FreshApart(b: B, c: S, f: nat)
    requires Built(b) && f < |b.s.files| && Shape(c) && |c.mem| == |b.s.mem| && b.next < NBLOCK && Ref(b.s, f, IND) == 0
             && RefsBut(b.s, c, f, IND, b.next)
    ensures Apart(c)
  {
    hide Ref, ZeroBlock, InitBitmap, Unique, DirShape;
  }

  lemma FreshLinked(b: B, c: S, t: S, f: nat, k: nat, v: Word)
    requires Built(b) && f < |b.s.files| && NDIRECT <= k < IND && b.next < NBLOCK
    requires Shape(c) && |c.mem| == |b.s.mem| && RefsBut(b.s, c, f, IND, b.next) && Shape(t) && |t.mem| == |c.mem|
             && RefsBut(c, t, f, k, v)
    requires c == SetCell(b.s, f, IND, b.next) && c.files[f].indirect == b.next && t == SetCell(c, f, k, v)
    ensures Linked(b, B(t, b.next + 1), f, k, v)
  {
    hide Ref, ZeroBlock, InitBitmap, Unique, DirShape, Apart;
  }

  /** A stored link keeps the builder's invariant. */
  lemma LinkBuilt(b: B, t: B, f: nat, k: nat, v: Word)
    requires Built(b) && Linked(b, t, f, k, v) && IsReg(b.s, f) && Ref(b.s, f, k) == 0 && t.next <= NBLOCK
    requires 3 <= v < b.next && forall g, m | 0 <= g < |b.s.files| && 0 <= m <= IND :: Ref(b.s, g, m) != v
    ensures Built(t)
  {
    hide Ref, ZeroBlock, InitBitmap;
    assert Apart(t.s);
    forall d | 0 <= d < |t.s.files| && t.s.files[d].typ == FTYPE_DIR ensures DirShape(t.s, d) {
      assert DirShape(b.s, d);
    }
    SameDirsUnique(b.s, t.s);
  }

  /** Directories with the same records and blocks, and the same names, stay unique. */
  lemma SameDirsUnique(s: S, t: S)
    requires Shape(s) && Shape(t) && |s.mem| == |t.mem| && Unique(s)
    requires forall g | 0 <= g < |s.files| :: t.files[g].name == s.files[g].name
    requires forall g, m | 0 <= g < |s.files| && 0 <= m < IND && t.files[g].typ == FTYPE_DIR ::
             Ref(t, g, m) == Ref(s, g, m)
    requires forall g | 0 <= g < |s.files| && t.files[g].typ == FTYPE_DIR ::
               s.files[g].typ == FTYPE_DIR && Blocks(t, g) == Blocks(s, g)
    ensures Unique(t)
  {
    hide Ref, Blocks;
    forall g, i, j | 0 <= g < |t.files| && 0 <= i && 0 <= j && Present(t, g, i, j) && t.files[g].typ == FTYPE_DIR
      ensures Present(s, g, i, j) && Entry(s, g, i, j) == Entry(t, g, i, j)
    {
    }
  }

  /* ---------- write_file ---------- */

  function BlocksOf(n: nat): nat { (n + BY2BLK - 1) / BY2BLK }

  /** Content sits in the blocks of f from block k on. */
  ghost predicate Holds(s: S, f: nat, k: nat, content: seq<Byte>)
    requires Shape(s) && f < |s.files|
  {
    forall i | 0 <= i < |content| :: HoldsAt(s, f, k + i / BY2BLK, i % BY2BLK, content[i])
  }

  ghost predicate HoldsAt(s: S, f: nat, m: nat, o: nat, c: Byte)
    requires Shape(s) && f < |s.files|
  {
    m < IND && o < BY2BLK && 0 < Ref(s, f, m) < |s.mem| && View(s, Ref(s, f, m))[o] == c
  }

  /** Only blocks k to n - 1 of f, which were missing, were added. */
  ghost predicate Added(b: B, t: B, f: nat, k: nat, n: nat) {
    && Shape(b.s) && Shape(t.s) && |b.s.mem| == |t.s.mem| && f < |b.s.files| && b.next <= t.next
    && (forall g | 0 <= g < |b.s.files| && g != f :: t.s.files[g] == b.s.files[g])
    && t.s.files[f] == b.s.files[f].(direct := t.s.files[f].direct, indirect := t.s.files[f].indirect)
    && (forall g, m | 0 <= g < |b.s.files| && 0 <= m < IND && (g != f || m < k) :: Ref(t.s, g, m) == Ref(b.s, g, m))
    && (forall m | n <= m < IND :: Ref(t.s, f, m) == 0)
    && (forall g, m | 0 <= g < |b.s.files| && 0 <= m < IND && Ref(b.s, g, m) != 0 && (g != f || m < k) ::
          KeptBlock(b.s, t.s, g, m))
  }

  /** Filling the next block and taking it. */
  lemma PutDataBuilt(b: B, data: seq<Byte>)
    requires Built(b) && |data| <= BY2BLK && b.next < NBLOCK
    ensures var t := PutData(b, data);
            && Built(t) && t.s.files == b.s.files && t.s.mapped == b.s.mapped
            && SameRefs(b.s, t.s) && (forall x | 0 <= x < NBLOCK && x != b.next :: t.s.mem[x] == b.s.mem[x])
            && t.s.mem[b.next][..|data|] == data
            && (forall g, m | 0 <= g < |t.s.files| && 0 <= m <= IND :: Ref(t.s, g, m) != b.next)
  {
    hide ZeroBlock, InitBitmap;
    var t := PutData(b, data);
    forall g, m | 0 <= g < |b.s.files| && 0 <= m <= IND ensures Ref(t.s, g, m) == Ref(b.s, g, m) {
      assert Ref(b.s, g, IND) == b.s.files[g].indirect;
    }
    hide Ref;
    forall d | 0 <= d < |t.s.files| && t.s.files[d].typ == FTYPE_DIR ensures DirShape(t.s, d) {
      assert DirShape(b.s, d);
    }
    SameDirsUnique(b.s, t.s);
  }

  /** One block of content appended to f. */
  lemma AppendBlock(b: B, f: nat, k: nat, data: seq<Byte>)
    requires Built(b) && f < |b.s.files| && IsReg(b.s, f) && k < IND && |data| <= BY2BLK && b.next < NBLOCK
    requires forall m | k <= m < IND :: Ref(b.s, f, m) == 0
    requires SaveLink(PutData(b, data), f, k, b.next).next <= NBLOCK
    ensures var t := SaveLink(PutData(b, data), f, k, b.next);
            && Built(t) && Added(b, t, f, k, k + 1) && IsReg(t.s, f)
            && 0 < Ref(t.s, f, k) < NBLOCK && View(t.s, Ref(t.s, f, k))[..|data|] == data
  {
    hide ZeroBlock, InitBitmap, Unique, Ref, SaveLink;
    PutDataBuilt(b, data);
    var p := PutData(b, data);
    var t := SaveLink(p, f, k, b.next);
    SaveLinkEffect(p, f, k, b.next);
    assert Ref(t.s, f, IND) != b.next;
    forall g, m | 0 <= g < |b.s.files| && 0 <= m < IND && Ref(b.s, g, m) != 0 && (g != f || m < k)
      ensures KeptBlock(b.s, t.s, g, m)
    {
      assert Ref(t.s, g, m) == Ref(b.s, g, m) != b.next;
      assert Ref(t.s, g, m) != Ref(t.s, f, IND);
    }
  }

  lemma AddedTwice(b: B, c: B, t: B, f: nat, k: nat, n: nat)
    requires Added(b, c, f, k, k + 1) && Added(c, t, f, k + 1, n)
    ensures Added(b, t, f, k, n)
  {
    hide Ref, View;
    forall g, m | 0 <= g < |b.s.files| && 0 <= m < IND && Ref(b.s, g, m) != 0 && (g != f || m < k)
      ensures KeptBlock(b.s, t.s, g, m)
    {
      assert KeptBlock(b.s, c.s, g, m) && KeptBlock(c.s, t.s, g, m);
    }
  }

  /** The read loop puts the content, all of it and in order, behind the block map of f. */
  lemma {:induction false} LinkDataEffect(b: B, f: nat, k: nat, content: seq<Byte>)
    requires Built(b) && f < |b.s.files| && IsReg(b.s, f) && k + BlocksOf(|content|) <= IND
    requires forall m | k <= m < IND :: Ref(b.s, f, m) == 0
    requires LinkData(b, f, k, content).next <= NBLOCK
    ensures var t := LinkData(b, f, k, content);
            Built(t) && Added(b, t, f, k, k + BlocksOf(|content|)) && Holds(t.s, f, k, content)
    decreases |content|
  {
    hide ZeroBlock, InitBitmap, Unique, Apart, Ref, SaveLink, PutData, View, BlocksOf;
    if content == [] {
      NoBlocks();
      AddedNothing(b, f, k);
    } else {
      var n := Min(|content|, BY2BLK);
      MoreBlocks(|content|);
      var c := SaveLink(PutData(b, content[..n]), f, k, b.next % WORD);
      NextIsWord(b, f, k, content);
      AppendBlock(b, f, k, content[..n]);
      LinkDataEffect(c, f, k + 1, content[n..]);
      var t := LinkData(b, f, k, content);
      AddedTwice(b, c, t, f, k, k + BlocksOf(|content|));
      HoldsMore(c, t, f, k, content, n);
    }
  }

  lemma NoBlocks()
    ensures BlocksOf(0) == 0
  {}

  lemma MoreBlocks(n: nat)
    requires n > 0
    ensures BlocksOf(n) == 1 + BlocksOf(n - Min(n, BY2BLK))
  {}

  lemma AddedNothing(b: B, f: nat, k: nat)
    requires Built(b) && f < |b.s.files| && forall m | k <= m < IND :: Ref(b.s, f, m) == 0
    ensures Added(b, b, f, k, k)
  {
    hide Ref, View;
  }

  lemma NextIsWord(b: B, f: nat, k: nat, content: seq<Byte>)
    requires Built(b) && f < |b.s.files| && content != [] && k < IND && LinkData(b, f, k, content).next <= NBLOCK
    ensures b.next < NBLOCK && b.next % WORD == b.next
    ensures SaveLink(PutData(b, content[..Min(|content|, BY2BLK)]), f, k, b.next).next <= NBLOCK
  {
    hide Ref, SaveLink, PutData;
  }

  lemma HoldsMore(c: B, t: B, f: nat, k: nat, content: seq<Byte>, n: nat)
    requires n == Min(|content|, BY2BLK) && n > 0 && k < IND && Shape(c.s) && f < |c.s.files|
    requires 0 < Ref(c.s, f, k) < |c.s.mem| && View(c.s, Ref(c.s, f, k))[..n] == content[..n]
    requires Shape(t.s) && |t.s.mem| == |c.s.mem| && KeptBlock(c.s, t.s, f, k) && Holds(t.s, f, k + 1, content[n..])
    ensures Holds(t.s, f, k, content)
  {
    hide Ref, View;
    forall i | 0 <= i < |content| ensures HoldsAt(t.s, f, k + i / BY2BLK, i % BY2BLK, content[i]) {
      if i < n {
        assert i / BY2BLK == 0 && i % BY2BLK == i;
        assert View(c.s, Ref(c.s, f, k))[..n][i] == content[..n][i];
      } else {
        var j := i - n;
        assert content[n..][j] == content[i];
        assert i / BY2BLK == 1 + j / BY2BLK && i % BY2BLK == j % BY2BLK;
        assert HoldsAt(t.s, f, k + 1 + j / BY2BLK, j % BY2BLK, content[n..][j]);
      }
    }
  }

  /* ---------- create_file ---------- */

  ghost predicate IsDir(s: S, d: nat)
    requires Shape(s)
  {
    d < |s.files| && s.files[d].name != "" && s.files[d].typ == FTYPE_DIR
  }

  /** The directory holds n records, without a gap. */
  ghost predicate Dense(s: S, d: nat, n: nat)
    requires Shape(s) && d < |s.files|
  {
    && Blocks(s, d) == (n + FILE2BLK - 1) / FILE2BLK
    && Packed(s, d, n)
  }

  ghost predicate Packed(s: S, d: nat, n: nat)
    requires Shape(s) && d < |s.files|
  {
    forall i, j | 0 <= i && 0 <= j && Present(s, d, i, j) :: s.files[Entry(s, d, i, j)].name != "" <==>
        FILE2BLK * i + j < n
  }

  /** Slot e of t is the free record at position n of directory d, which may have gained a block for it. */
  ghost predicate Opened(b: B, t: B, d: nat, n: nat, e: nat) {
    && Shape(b.s) && Shape(t.s) && |b.s.mem| == |t.s.mem| && d < |b.s.files| && b.next <= t.next && t.s.mem == b.s.mem
    && t.s.mapped == b.s.mapped
    && (forall g | 0 <= g < |b.s.files| && g != d :: t.s.files[g] == b.s.files[g])
    && t.s.files[d] == b.s.files[d].(direct := t.s.files[d].direct, size := t.s.files[d].size)
    && (forall g, m | 0 <= g < |b.s.files| && 0 <= m < IND && (g != d || m != n / FILE2BLK || Ref(b.s, g, m) != 0) ::
          Ref(t.s, g, m) == Ref(b.s, g, m))
    && Blocks(t.s, d) == n / FILE2BLK + 1 && Packed(t.s, d, n)
    && Present(t.s, d, n / FILE2BLK, n % FILE2BLK) && e == Entry(t.s, d, n / FILE2BLK, n % FILE2BLK) && e < |t.s.files|
  }

  lemma CreateFileEffect(b: B, d: nat, n: nat)
    requires Built(b) && IsDir(b.s, d) && Dense(b.s, d, n) && n < FILE2BLK * NDIRECT
    requires CreateFile(b, d).0.next <= NBLOCK
    ensures var c := CreateFile(b, d); Built(c.0) && Opened(b, c.0, d, n, c.1)
  {
    hide Unique, Ref, MakeLink, ZeroBlock, InitBitmap;
    assert DirShape(b.s, d);
    var q := Blocks(b.s, d);
    Position(n);
    if n % FILE2BLK == 0 {
      if q > 0 { FullBlock(b, d, n, q - 1); }
      GrowDirectory(b, d, n);
    } else {
      OpenBlock(b, d, n, q - 1);
    }
  }

  lemma Position(n: nat)
    ensures (n + FILE2BLK - 1) / FILE2BLK == if n % FILE2BLK == 0 then n / FILE2BLK else n / FILE2BLK + 1
    ensures n == FILE2BLK * (n / FILE2BLK) + n % FILE2BLK
  {}

  lemma LastBlock(b: B, d: nat, k: nat)
    requires Built(b) && IsDir(b.s, d) && k < Blocks(b.s, d)
    ensures k < NDIRECT && b.s.files[d].direct[k] == Ref(b.s, d, k) && 3 <= Ref(b.s, d, k) < b.next
  {
    assert DirShape(b.s, d);
    assert Ref(b.s, d, k) == b.s.files[d].direct[k];
    hide Ref;
  }

  lemma FullBlock(b: B, d: nat, n: nat, k: nat)
    requires Built(b) && IsDir(b.s, d) && Dense(b.s, d, n) && k + 1 == Blocks(b.s, d) && n == FILE2BLK * (k + 1)
    ensures k < NDIRECT && b.s.files[d].direct[k] as nat < |b.s.mem|
            && ScanBlock(b.s, b.s.files[d].direct[k] as nat, "", 0) == FILE2BLK
  {
    LastBlock(b, d, k);
    hide Ref;
    forall j | 0 <= j < FILE2BLK ensures NameAt(b.s, Ref(b.s, d, k), j) != "" {
      assert Present(b.s, d, k, j) && Entry(b.s, d, k, j) == FILE2BLK * Ref(b.s, d, k) + j;
    }
  }

  lemma OpenBlock(b: B, d: nat, n: nat, k: nat)
    requires Built(b) && IsDir(b.s, d) && Dense(b.s, d, n) && k + 1 == Blocks(b.s, d) && k == n / FILE2BLK
             && n % FILE2BLK != 0
    ensures var c := CreateFile(b, d); c.0 == b && Opened(b, b, d, n, c.1)
  {
    hide Ref, MakeLink, ZeroBlock, InitBitmap, Unique, DirShape, Apart;
    LastBlock(b, d, k);
    var last, j := Ref(b.s, d, k), n % FILE2BLK;
    Position(n);
    forall l | 0 <= l < FILE2BLK ensures NameAt(b.s, last, l) == "" <==> l >= j {
      assert Present(b.s, d, k, l) && Entry(b.s, d, k, l) == FILE2BLK * last + l;
    }
    var r := ScanBlock(b.s, last, "", 0);
    assert NameAt(b.s, last, j) == "";
    assert r == j;
    assert Present(b.s, d, k, j) && Entry(b.s, d, k, j) == FILE2BLK * last + j;
  }

  lemma GrowDirectory(b: B, d: nat, n: nat)
    requires Built(b) && IsDir(b.s, d) && Dense(b.s, d, n) && n < FILE2BLK * NDIRECT && n % FILE2BLK == 0
             && b.next < NBLOCK
    ensures var m := MakeLink(b, d, n / FILE2BLK);
            Built(m.0) && Opened(b, m.0, d, n, FILE2BLK * m.1) && m.0.next == b.next + 1
  {
    hide Unique, ZeroBlock, InitBitmap;
    var k := n / FILE2BLK;
    var m := MakeLink(b, d, k);
    assert DirShape(b.s, d);
    Position(n);
    assert Blocks(b.s, d) == k;
    NextSize(b.s.files[d].size);
    SetCellRefs(b.s, d, k, b.next);
    var c := SetCell(b.s, d, k, b.next);
    var t := m.0;
    assert t.s == SetSizeField(c, d, b.s.files[d].size + BY2BLK);
    forall g, l | 0 <= g < |b.s.files| && 0 <= l <= IND ensures Ref(t.s, g, l) == Ref(c, g, l) {}
    GrowBuilt(b, t, d, n);
  }

  lemma GrowApart(b: B, t: B, d: nat, k: nat)
    requires Built(b) && d < |b.s.files| && k < IND && Shape(t.s) && |t.s.mem| == |b.s.mem| && b.next < NBLOCK
             && RefsBut(b.s, t.s, d, k, b.next)
    ensures Apart(t.s)
  {
    hide Ref, ZeroBlock, InitBitmap, Unique, DirShape;
  }

  lemma GrowBuilt(b: B, t: B, d: nat, n: nat)
    requires Built(b) && IsDir(b.s, d) && Dense(b.s, d, n) && n < FILE2BLK * NDIRECT && n % FILE2BLK == 0
    requires Shape(t.s) && |t.s.mem| == |b.s.mem| && t.s.mem == b.s.mem && t.s.mapped == b.s.mapped && !t.s.fix
             && t.next == b.next + 1 <= NBLOCK
    requires RefsBut(b.s, t.s, d, n / FILE2BLK, b.next)
    requires forall g | 0 <= g < |b.s.files| && g != d :: t.s.files[g] == b.s.files[g]
    requires t.s.files[d] == b.s.files[d].(direct := t.s.files[d].direct, size := t.s.files[d].size)
    requires t.s.files[d].size % BY2BLK == 0 && Blocks(t.s, d) == n / FILE2BLK + 1
    ensures Built(t) && Opened(b, t, d, n, FILE2BLK * b.next)
  {
    hide Ref, ZeroBlock, InitBitmap, Blocks;
    var k := n / FILE2BLK;
    Position(n);
    assert DirShape(b.s, d);
    GrowApart(b, t, d, k);
    forall g | 0 <= g < |t.s.files| && t.s.files[g].typ == FTYPE_DIR ensures DirShape(t.s, g) {
      assert DirShape(b.s, g);
      if g != d { BlocksIs(b.s, g); BlocksIs(t.s, g); }
    }
    forall j | 0 <= j < FILE2BLK ensures NameAt(t.s, b.next, j) == "" { SlotBlock(b.next, j); }
    forall g, i, j | 0 <= g < |t.s.files| && 0 <= i && 0 <= j && Present(t.s, g, i, j) && t.s.files[g].typ == FTYPE_DIR
      ensures if g == d && i == k then t.s.files[Entry(t.s, g, i, j)].name == ""
              else Present(b.s, g, i, j) && Entry(b.s, g, i, j) == Entry(t.s, g, i, j)
    {
      if g != d { BlocksIs(b.s, g); BlocksIs(t.s, g); }
      if g == d && i == k { assert t.s.files[Entry(t.s, g, i, j)].name == NameAt(t.s, b.next, j); }
    }
    assert Unique(t.s);
    assert Packed(t.s, d, n);
  }

  /** Every directory but d is as it was, with the names in it. */
  ghost predicate Others(b: B, t: B, d: nat)
    requires Shape(b.s) && Shape(t.s) && |b.s.mem| == |t.s.mem|
  {
    forall g | 0 <= g < |b.s.files| && g != d && IsDir(b.s, g) :: SameDir(b.s, t.s, g)
  }

  ghost predicate SameDir(s: S, t: S, g: nat)
    requires Shape(s) && Shape(t) && |s.mem| == |t.mem| && g < |s.files|
  {
    && t.files[g] == s.files[g]
    && (forall i, j | 0 <= i && 0 <= j && Present(s, g, i, j) :: Ref(t, g, i) == Ref(s, g, i)
          && t.files[Entry(s, g, i, j)].name == s.files[Entry(s, g, i, j)].name)
  }

  /** Slot e is record p of directory d. */
  ghost predicate At(s: S, d: nat, p: nat, e: nat)
    requires Shape(s) && d < |s.files|
  {
    Present(s, d, p / FILE2BLK, p % FILE2BLK) && e == Entry(s, d, p / FILE2BLK, p % FILE2BLK)
  }

  /** A new record, named, at position n of directory d. */
  ghost predicate Recorded(b: B, t: B, d: nat, n: nat, e: nat, name: string, size: Word, typ: Word) {
    && Built(t) && Later(b, t) && Shape(b.s) && |b.s.mem| == |t.s.mem| && Others(b, t, d) && d < |b.s.files|
    && IsDir(t.s, d) && Dense(t.s, d, n + 1) && e < |t.s.files| && At(t.s, d, n, e) && e != d
    && e < |b.s.files| && b.s.files[e].name == "" && t.s.files[e] == NoFile().(name := name, size := size, typ := typ)
    && (forall m | 0 <= m <= IND :: Ref(t.s, e, m) == 0)
    && (forall c | c != name && c != "" :: NoEntry(b.s, d, c) ==> NoEntry(t.s, d, c))
  }

  /** Creating a record and naming it. */
  lemma NewRecord(b: B, d: nat, n: nat, name: string, size: Word, typ: Word)
    requires Built(b) && IsDir(b.s, d) && Dense(b.s, d, n) && n < FILE2BLK * NDIRECT && name != ""
             && NoEntry(b.s, d, name)
    requires typ == FTYPE_DIR ==> size == 0
    requires CreateFile(b, d).0.next <= NBLOCK
    ensures var c := CreateFile(b, d);
            c.1 < |c.0.s.files| && c.0.s.files[c.1].size == 0
                && Recorded(b, SetRecord(c.0, c.1, name, size, typ), d, n, c.1, name, size, typ)
  {
    CreateFileEffect(b, d, n);
    hide CreateFile, Built, Opened, Recorded, NoEntry;
    NameRecord(b, CreateFile(b, d).0, d, n, CreateFile(b, d).1, name, size, typ);
  }

  lemma NameRecord(b: B, t: B, d: nat, n: nat, e: nat, name: string, size: Word, typ: Word)
    requires Built(b) && Built(t) && IsDir(b.s, d) && Opened(b, t, d, n, e) && Dense(b.s, d, n) && name != ""
             && NoEntry(b.s, d, name)
    requires typ == FTYPE_DIR ==> size == 0
    ensures e < |t.s.files| && t.s.files[e].size == 0
    ensures Recorded(b, SetRecord(t, e, name, size, typ), d, n, e, name, size, typ)
  {
    hide Unique, ZeroBlock, InitBitmap, Ref;
    Position(n);
    assert At(t.s, d, n, e) && t.s.files[e].name == "";
    assert t.s.files[e] == NoFile();
    var u := SetRecord(t, e, name, size, typ);
    SetRecordRefs(t, e, name, size, typ);
    NoFileRefs(t.s, e);
    OpenedLater(b, t, u, d, n, e);
    OpenedNames(b, t, d, n, e);
    NamedBuilt(t, u, d, n, e, name, size, typ);
    NamedDense(t, u, d, n, e, name);
  }

  lemma SetRecordRefs(t: B, e: nat, name: string, size: Word, typ: Word)
    requires Shape(t.s) && e < |t.s.files|
    ensures var u := SetRecord(t, e, name, size, typ);
            SameRefs(t.s, u.s) && forall x | 0 <= x < |t.s.mem| :: View(u.s, x) == View(t.s, x)
  {}

  lemma NoFileRefs(s: S, e: nat)
    requires Shape(s) && e < |s.files| && s.files[e] == NoFile()
    ensures forall m | 0 <= m <= IND :: Ref(s, e, m) == 0
  {}

  lemma OpenedLater(b: B, t: B, u: B, d: nat, n: nat, e: nat)
    requires Built(b) && Built(t) && IsDir(b.s, d) && Opened(b, t, d, n, e) && Dense(b.s, d, n)
    requires Shape(u.s) && |u.s.mem| == |t.s.mem| && u.next == t.next && SameRefs(t.s, u.s) && t.s.files[e].name == ""
    requires forall g | 0 <= g < |t.s.files| && g != e :: u.s.files[g] == t.s.files[g]
    requires forall x | 0 <= x < |t.s.mem| :: View(u.s, x) == View(t.s, x)
    ensures Later(b, u) && Others(b, u, d) && e != d && b.s.files[e].name == ""
  {
    hide Ref, ZeroBlock, InitBitmap, Unique, Blocks;
    Position(n);
    assert e != d && b.s.files[e].name == "";
    forall g | 0 <= g < |b.s.files| && b.s.files[g].name != "" ensures KeptRecord(b.s, u.s, g) {
      if g != d { BlocksIs(b.s, g); BlocksIs(u.s, g); } else { BlocksIs(t.s, d); BlocksIs(u.s, d); }
    }
    forall g | 0 <= g < |b.s.files| && g != d && IsDir(b.s, g) ensures SameDir(b.s, u.s, g) {
      forall i, j | 0 <= i && 0 <= j && Present(b.s, g, i, j)
        ensures Ref(u.s, g, i) == Ref(b.s, g, i)
                && u.s.files[Entry(b.s, g, i, j)].name == b.s.files[Entry(b.s, g, i, j)].name
      {
        assert Ref(t.s, g, i) == Ref(b.s, g, i);
        if Entry(b.s, g, i, j) == e { SameBlock(Ref(t.s, g, i), j, Ref(t.s, d, n / FILE2BLK), n % FILE2BLK); }
      }
    }
  }

  lemma OpenedNames(b: B, t: B, d: nat, n: nat, e: nat)
    requires Built(b) && IsDir(b.s, d) && Opened(b, t, d, n, e) && Dense(b.s, d, n)
    ensures forall c | c != "" :: NoEntry(b.s, d, c) ==> NoEntry(t.s, d, c)
  {
    hide Ref, ZeroBlock, InitBitmap, Unique, Blocks;
    Position(n);
    assert DirShape(b.s, d);
    forall i, j | 0 <= i && 0 <= j && Present(t.s, d, i, j) && t.s.files[Entry(t.s, d, i, j)].name != ""
      ensures Present(b.s, d, i, j) && Entry(b.s, d, i, j) == Entry(t.s, d, i, j)
    {
      assert FILE2BLK * i + j < n;
      assert i < Blocks(b.s, d);
      assert Ref(b.s, d, i) != 0;
    }
  }

  lemma NamedBuilt(t: B, u: B, d: nat, n: nat, e: nat, name: string, size: Word, typ: Word)
    requires Built(t) && IsDir(t.s, d) && d < |t.s.files| && At(t.s, d, n, e) && e < |t.s.files|
             && t.s.files[e] == NoFile() && name != "" && NoEntry(t.s, d, name)
    requires u == SetRecord(t, e, name, size, typ) && SameRefs(t.s, u.s) && (typ == FTYPE_DIR ==> size == 0)
    requires forall m | 0 <= m <= IND :: Ref(t.s, e, m) == 0
    ensures Built(u)
  {
    hide Ref, ZeroBlock, InitBitmap, Blocks;
    SlotBlock(Ref(t.s, d, n / FILE2BLK), n % FILE2BLK);
    forall g | 0 <= g < |u.s.files|
      ensures Blocks(u.s, g) == (if g == e then size / BY2BLK else Blocks(t.s, g)) { BlocksIs(u.s, g); BlocksIs(t.s,
              g); }
    forall g | 0 <= g < |u.s.files| && u.s.files[g].typ == FTYPE_DIR ensures DirShape(u.s, g) {
      if g != e { assert DirShape(t.s, g); }
    }
    forall g, m, l, p, q | 0 <= g < |u.s.files| && 0 <= m && 0 <= l && 0 <= p && 0 <= q && Present(u.s, g, m, l)
        && Present(u.s, g, p, q)
        && u.s.files[g].typ == FTYPE_DIR
        && u.s.files[Entry(u.s, g, m, l)].name == u.s.files[Entry(u.s, g, p, q)].name != ""
      ensures m == p && l == q
    {
      assert g != e;
      assert Present(t.s, g, m, l) && Present(t.s, g, p, q);
      BuiltNameAlone(t, d, e, name, n / FILE2BLK, n % FILE2BLK, g, m, l, p, q);
    }
    assert Unique(u.s);
  }

  lemma BuiltNameAlone(b: B, d: nat, e: nat, name: string, k: nat, j: nat, g: nat, m: nat, l: nat, p: nat, q: nat)
    requires Built(b) && d < |b.s.files| && e < |b.s.files| && NoEntry(b.s, d, name)
    requires Present(b.s, d, k, j) && Entry(b.s, d, k, j) == e
    requires g < |b.s.files| && Present(b.s, g, m, l) && Present(b.s, g, p, q) && b.s.files[g].typ == FTYPE_DIR
    requires var x, y := Entry(b.s, g, m, l), Entry(b.s, g, p, q);
             x < |b.s.files| && y < |b.s.files| && (if x == e then name else b.s.files[x].name)
                 == (if y == e then name else b.s.files[y].name) != ""
    ensures m == p && l == q
  {
    hide Ref, ZeroBlock, InitBitmap, DirShape;
    var x, y := Entry(b.s, g, m, l), Entry(b.s, g, p, q);
    if x == e { SameBlock(Ref(b.s, g, m), l, Ref(b.s, d, k), j); }
    if y == e { SameBlock(Ref(b.s, g, p), q, Ref(b.s, d, k), j); }
  }

  lemma NamedDense(t: B, u: B, d: nat, n: nat, e: nat, name: string)
    requires Built(t) && IsDir(t.s, d) && Packed(t.s, d, n) && Blocks(t.s, d) == n / FILE2BLK + 1 && At(t.s, d, n, e)
             && e < |t.s.files| && e != d
    requires Shape(u.s) && |u.s.mem| == |t.s.mem| && SameRefs(t.s, u.s) && name != "" && u.s.files[e].name == name
    requires forall g | 0 <= g < |t.s.files| && g != e :: u.s.files[g] == t.s.files[g]
    ensures Dense(u.s, d, n + 1) && IsDir(u.s, d) && At(u.s, d, n, e)
    ensures forall c | c != name :: NoEntry(t.s, d, c) ==> NoEntry(u.s, d, c)
  {
    hide Ref, ZeroBlock, InitBitmap, DirShape, Unique, Blocks;
    BlocksIs(t.s, d);
    BlocksIs(u.s, d);
    Position(n);
    Position(n + 1);
    forall i, j | 0 <= i && 0 <= j && Present(u.s, d, i, j)
      ensures u.s.files[Entry(u.s, d, i, j)].name != "" <==> FILE2BLK * i + j < n + 1
    {
      assert Present(t.s, d, i, j);
      if Entry(t.s, d, i, j) == e { SameBlock(Ref(t.s, d, i), j, Ref(t.s, d, n / FILE2BLK), n % FILE2BLK); }
    }
    forall i, j | 0 <= i && 0 <= j && Present(u.s, d, i, j) ensures Present(t.s, d, i, j) {}
  }

  /* ---------- the tree on the disk ---------- */

  ghost predicate InDir(s: S, d: nat, e: nat)
    requires Shape(s) && d < |s.files|
  {
    exists p :: At(s, d, p, e)
  }

  /** Slot e of directory d stores this node, with everything below it. */
  ghost predicate StoredNode(s: S, d: nat, node: Node, e: nat)
    requires Shape(s) && d < |s.files|
    decreases node
  {
    && e < |s.files| && InDir(s, d, e) && s.files[e].name == node.name != ""
    && match node
       case FileNode(_, content) => s.files[e].typ == FTYPE_REG && s.files[e].size == |content|
           && Holds(s, e, 0, content)
       case DirNode(_, children) => s.files[e].typ == FTYPE_DIR && Stored(s, e, children)
  }

  ghost predicate Stored(s: S, d: nat, children: seq<Node>)
    requires Shape(s) && d < |s.files|
    decreases children
  {
    children == [] || ((exists e :: StoredNode(s, d, children[0], e)) && Stored(s, d, children[1..]))
  }

  /** A tree as a file system gives it, that fits: names are not empty, short enough and different
      in one directory; at most 160 entries a directory; file contents at most MAXFILESIZE. */
  ghost predicate GoodNode(node: Node)
    decreases node
  {
    0 < |node.name| < MAXNAMELEN
    && match node
       case FileNode(_, content) => |content| <= IND * BY2BLK
       case DirNode(_, children) => GoodTree(children)
  }

  ghost predicate GoodTree(children: seq<Node>)
    decreases children
  {
    |children| <= FILE2BLK * NDIRECT && Distinct(children) && forall i | 0 <= i < |children| :: GoodNode(children[i])
  }

  ghost predicate Distinct(children: seq<Node>) {
    forall i, j | 0 <= i < j < |children| :: children[i].name != children[j].name
  }

  /** A node written at position n of directory d. */
  ghost predicate Written(b: B, t: B, d: nat, n: nat, name: string) {
    && Built(t) && Later(b, t) && Others(b, t, d) && d < |b.s.files| && IsDir(t.s, d) && Dense(t.s, d, n + 1)
    && (forall c | c != name && c != "" :: NoEntry(b.s, d, c) ==> NoEntry(t.s, d, c))
  }

  lemma AddedLater(b: B, u: B, t: B, d: nat, n: nat, e: nat, k: nat, name: string, size: Word)
    requires Recorded(b, u, d, n, e, name, size, FTYPE_REG) && Added(u, t, e, 0, k) && Built(t) && name != ""
    ensures Written(b, t, d, n, name) && At(t.s, d, n, e)
  {
    hide Ref, View, ZeroBlock, InitBitmap, Unique, Apart, DirShape, Blocks;
    forall g | 0 <= g < |u.s.files| ensures Blocks(t.s, g) == Blocks(u.s, g) { BlocksIs(t.s, g); BlocksIs(u.s, g); }
    forall g, m | 0 <= g < |b.s.files| && 0 <= m < IND && b.s.files[g].name != "" && Ref(b.s, g, m) != 0
      ensures KeptBlock(b.s, t.s, g, m)
    {
      assert KeptBlock(b.s, u.s, g, m) && KeptBlock(u.s, t.s, g, m);
    }
    forall g | 0 <= g < |b.s.files| && b.s.files[g].name != "" ensures KeptRecord(b.s, t.s, g) {
      assert KeptRecord(b.s, u.s, g);
    }
    forall g | 0 <= g < |b.s.files| && g != d && IsDir(b.s, g) ensures SameDir(b.s, t.s, g) {
      assert SameDir(b.s, u.s, g);
    }
    forall i, j | 0 <= i && 0 <= j && Present(t.s, d, i, j)
      ensures Present(u.s, d, i, j) && Entry(u.s, d, i, j) == Entry(t.s, d, i, j) {}
    forall c | c != name && c != "" && NoEntry(b.s, d, c) ensures NoEntry(t.s, d, c) {
      assert NoEntry(u.s, d, c);
    }
  }

  /** write_file: the file is in its directory and holds the content. */
  lemma WriteFileEffect(b: B, d: nat, n: nat, name: string, content: seq<Byte>)
    requires Built(b) && IsDir(b.s, d) && Dense(b.s, d, n) && n < FILE2BLK * NDIRECT && NoEntry(b.s, d, name)
    requires GoodNode(FileNode(name, content)) && WriteFile(b, d, name, content).0.next <= NBLOCK
    ensures var w := WriteFile(b, d, name, content);
            Written(b, w.0, d, n, name) && StoredNode(w.0.s, d, FileNode(name, content), w.1)
  {
    hide CreateFile, LinkData, Recorded, Ref, Holds, Added, Written, BlocksOf, Unique, Apart, DirShape, InitBitmap,
         ZeroBlock;
    var c := CreateFile(b, d);
    NewRecord(b, d, n, name, |content| % WORD, FTYPE_REG);
    var u := SetRecord(c.0, c.1, name, |content| % WORD, FTYPE_REG);
    RecordedFile(b, u, d, n, c.1, name, |content| % WORD);
    ContentFits(|content|);
    LinkDataEffect(u, c.1, 0, content);
    var t := LinkData(u, c.1, 0, content);
    AddedLater(b, u, t, d, n, c.1, BlocksOf(|content|), name, |content| % WORD);
    AddedRecord(u, t, c.1, BlocksOf(|content|));
    assert InDir(t.s, d, c.1);
  }

  lemma ContentFits(n: nat)
    requires n <= IND * BY2BLK
    ensures BlocksOf(n) <= IND && n % WORD == n
  {}

  lemma RecordedFile(b: B, u: B, d: nat, n: nat, e: nat, name: string, size: Word)
    requires Recorded(b, u, d, n, e, name, size, FTYPE_REG) && name != ""
    ensures Built(u) && Shape(u.s) && e < |u.s.files| && IsReg(u.s, e) && u.s.files[e].name == name
            && u.s.files[e].size == size && u.s.files[e].typ == FTYPE_REG
    ensures forall m | 0 <= m < IND :: Ref(u.s, e, m) == 0
  {
    hide Ref, Unique, Apart;
  }

  lemma AddedRecord(u: B, t: B, e: nat, k: nat)
    requires Added(u, t, e, 0, k)
    ensures e < |t.s.files| && t.s.files[e].name == u.s.files[e].name && t.s.files[e].size == u.s.files[e].size
            && t.s.files[e].typ == u.s.files[e].typ
  {
    hide Ref, KeptBlock;
  }

  /* ---------- write_directory ---------- */

  lemma {:induction false} HoldsStays(b: B, t: B, e: nat, content: seq<Byte>)
    requires Built(b) && Later(b, t) && e < |b.s.files| && b.s.files[e].name != "" && Holds(b.s, e, 0, content)
    ensures Holds(t.s, e, 0, content)
  {
    hide Ref, View, Unique, Apart, InitBitmap, ZeroBlock, DirShape;
    forall i | 0 <= i < |content| ensures HoldsAt(t.s, e, 0 + i / BY2BLK, i % BY2BLK, content[i]) {
      assert HoldsAt(b.s, e, 0 + i / BY2BLK, i % BY2BLK, content[i]);
      assert KeptBlock(b.s, t.s, e, i / BY2BLK);
    }
  }

  lemma InDirStays(b: B, t: B, d: nat, e: nat)
    requires Built(b) && Later(b, t) && IsDir(b.s, d) && InDir(b.s, d, e)
    ensures d < |t.s.files| && InDir(t.s, d, e)
  {
    hide Ref, View, Unique, Apart, InitBitmap, ZeroBlock, DirShape, Blocks;
    var p: nat :| At(b.s, d, p, e);
    assert KeptRecord(b.s, t.s, d) && KeptBlock(b.s, t.s, d, p / FILE2BLK);
    assert At(t.s, d, p, e);
  }

  /** What is stored stays stored while the builder goes on. */
  lemma {:induction false} NodeStays(b: B, t: B, d: nat, node: Node, e: nat)
    requires Built(b) && Later(b, t) && IsDir(b.s, d) && StoredNode(b.s, d, node, e)
    ensures d < |t.s.files| && StoredNode(t.s, d, node, e)
    decreases node
  {
    hide Ref, View, Unique, Apart, InitBitmap, ZeroBlock, DirShape, InDir, Holds;
    InDirStays(b, t, d, e);
    assert KeptRecord(b.s, t.s, e);
    match node
    case FileNode(_, content) => HoldsStays(b, t, e, content);
    case DirNode(_, children) => StoredStays(b, t, e, children);
  }

  lemma {:induction false} StoredStays(b: B, t: B, d: nat, children: seq<Node>)
    requires Built(b) && Later(b, t) && IsDir(b.s, d) && Stored(b.s, d, children)
    ensures d < |t.s.files| && Stored(t.s, d, children)
    decreases children
  {
    hide Built, Later, IsDir;
    LaterShape(b, t, d);
    if children != [] {
      var e :| StoredNode(b.s, d, children[0], e);
      NodeStays(b, t, d, children[0], e);
      StoredStays(b, t, d, children[1..]);
    }
  }

  lemma LaterShape(b: B, t: B, d: nat)
    requires Later(b, t) && Built(b) && IsDir(b.s, d)
    ensures Shape(b.s) && Shape(t.s) && |b.s.files| == |t.s.files| && d < |t.s.files|
  {}

  /** A whole list of nodes written into directory d. */
  ghost predicate WrittenTree(b: B, t: B, d: nat, children: seq<Node>) {
    && Built(t) && Later(b, t) && Others(b, t, d) && d < |b.s.files| && IsDir(t.s, d) && Stored(t.s, d, children)
  }

  /** write_directory stores the whole tree. */
  lemma {:induction false} WriteTree(b: B, d: nat, n: nat, children: seq<Node>)
    requires Built(b) && IsDir(b.s, d) && Dense(b.s, d, n) && n + |children| <= FILE2BLK * NDIRECT
    requires Distinct(children)
             && (forall i | 0 <= i < |children| :: GoodNode(children[i]) && NoEntry(b.s, d, children[i].name))
    requires WriteDirectory(b, d, children).next <= NBLOCK
    ensures WrittenTree(b, WriteDirectory(b, d, children), d, children)
    decreases children, 1
  {
    hide Ref, Unique, Apart, InitBitmap, ZeroBlock, DirShape, StoredNode, NoEntry, Later, GoodNode, Dense, SameDir,
         WriteNode, Shaped;
    BuiltShape(b);
    if children == [] {
      NothingWritten(b, d);
    } else {
      var c := WriteNode(b, d, children[0]);
      assert children[0].name != "" by { GoodName(children[0]); }
      var e := WriteNodeEffect(b, d, n, children[0]);
      forall i | 0 <= i < |children[1..]| ensures GoodNode(children[1..][i]) && NoEntry(c.s, d, children[1..][i].name) {
        assert children[1..][i] == children[i + 1];
        GoodName(children[i + 1]);
      }
      WriteTree(c, d, n + 1, children[1..]);
      var t := WriteDirectory(b, d, children);
      NodeStays(c, t, d, children[0], e);
      LaterTwice(b, c, t);
      OthersTwice(b, c, t, d);
    }
  }

  lemma GoodName(node: Node)
    requires GoodNode(node)
    ensures node.name != ""
  {}

  lemma BuiltShape(b: B)
    requires Built(b)
    ensures Shape(b.s) && |b.s.mem| == NBLOCK
  {}

  lemma NothingWritten(b: B, d: nat)
    requires Built(b) && d < |b.s.files|
    ensures Later(b, b) && Others(b, b, d)
  {
    hide Ref, View;
  }

  lemma OthersTwice(b: B, c: B, t: B, d: nat)
    requires Shape(b.s) && Shape(c.s) && Shape(t.s) && |b.s.mem| == |c.s.mem| == |t.s.mem| && d < |b.s.files|
    requires Later(b, c) && Others(b, c, d) && Others(c, t, d)
    ensures Others(b, t, d)
  {
    hide Ref, View;
    forall g | 0 <= g < |b.s.files| && g != d && IsDir(b.s, g) ensures SameDir(b.s, t.s, g) {
      assert SameDir(b.s, c.s, g) && SameDir(c.s, t.s, g);
      SameDirTwice(b.s, c.s, t.s, g);
    }
  }

  lemma SameDirTwice(b: S, c: S, t: S, g: nat)
    requires Shape(b) && Shape(c) && Shape(t) && |b.mem| == |c.mem| == |t.mem| && g < |b.files| && SameDir(b, c, g)
             && SameDir(c, t, g)
    ensures SameDir(b, t, g)
  {
    hide Ref;
    forall i, j | 0 <= i && 0 <= j && Present(b, g, i, j)
      ensures Ref(t, g, i) == Ref(b, g, i) && t.files[Entry(b, g, i, j)].name == b.files[Entry(b, g, i, j)].name
    {
      assert Present(c, g, i, j);
    }
  }

  lemma {:induction false} WriteNodeEffect(b: B, d: nat, n: nat, node: Node) returns (e: nat)
    requires Built(b) && IsDir(b.s, d) && Dense(b.s, d, n) && n < FILE2BLK * NDIRECT && GoodNode(node)
             && NoEntry(b.s, d, node.name)
    requires WriteNode(b, d, node).next <= NBLOCK
    ensures var t := WriteNode(b, d, node); Written(b, t, d, n, node.name) && StoredNode(t.s, d, node, e)
    decreases node, 0
  {
    BuiltShape(b);
    match node
    case FileNode(name, content) =>
      WriteFileEffect(b, d, n, name, content);
      e := WriteFile(b, d, name, content).1;
    case DirNode(name, children) =>
      e := WriteSubdirectory(b, d, n, name, children);
  }

  lemma {:induction false} WriteSubdirectory(b: B, d: nat, n: nat, name: string, children: seq<Node>) returns (e: nat)
    requires Built(b) && IsDir(b.s, d) && Dense(b.s, d, n) && n < FILE2BLK * NDIRECT
             && GoodNode(DirNode(name, children)) && NoEntry(b.s, d, name)
    requires WriteNode(b, d, DirNode(name, children)).next <= NBLOCK
    ensures var t := WriteNode(b, d, DirNode(name, children));
            Written(b, t, d, n, name) && StoredNode(t.s, d, DirNode(name, children), e)
    decreases children, 2
  {
    hide CreateFile, WriteDirectory, Recorded, Ref, Written, Unique, Apart, DirShape, InitBitmap, ZeroBlock, Stored;
    var c := CreateFile(b, d);
    e := c.1;
    NewRecord(b, d, n, name, 0, FTYPE_DIR);
    var u := SetRecord(c.0, e, name, 0, FTYPE_DIR);
    EmptyDirectory(b, u, d, n, e, name, children);
    WriteTree(u, e, 0, children);
    var t := WriteDirectory(u, e, children);
    SubdirectoryWritten(b, u, t, d, n, e, name, children);
  }

  lemma EmptyDirectory(b: B, u: B, d: nat, n: nat, e: nat, name: string, children: seq<Node>)
    requires Recorded(b, u, d, n, e, name, 0, FTYPE_DIR) && name != "" && GoodNode(DirNode(name, children))
    ensures Built(u) && Shape(u.s) && IsDir(u.s, e) && Dense(u.s, e, 0)
    ensures |children| <= FILE2BLK * NDIRECT && Distinct(children)
            && forall i | 0 <= i < |children| :: GoodNode(children[i]) && NoEntry(u.s, e, children[i].name)
  {
    hide Ref, Unique, Apart, DirShape;
    assert Blocks(u.s, e) == 0;
    assert GoodTree(children);
  }

  lemma SubdirectoryWritten(b: B, u: B, t: B, d: nat, n: nat, e: nat, name: string, children: seq<Node>)
    requires Recorded(b, u, d, n, e, name, 0, FTYPE_DIR) && name != "" && WrittenTree(u, t, e, children)
    ensures Written(b, t, d, n, name) && StoredNode(t.s, d, DirNode(name, children), e)
  {
    hide Ref, View, Unique, Apart, DirShape, Stored, Blocks;
    LaterTwice(b, u, t);
    assert SameDir(u.s, t.s, d);
    assert u.s.files[d].indirect == 0 by { NoIndirect(u, d); }
    SameDirDense(u.s, t.s, d, n + 1);
    assert At(t.s, d, n, e);
    assert InDir(t.s, d, e);
    assert KeptRecord(u.s, t.s, e);
    forall c | c != name && c != "" && NoEntry(b.s, d, c) ensures NoEntry(t.s, d, c) { SameDirNoEntry(u.s, t.s, d, c); }
    forall g | 0 <= g < |b.s.files| && g != d && IsDir(b.s, g) ensures SameDir(b.s, t.s, g) {
      assert SameDir(b.s, u.s, g) && IsDir(u.s, g) && SameDir(u.s, t.s, g);
      SameDirTwice(b.s, u.s, t.s, g);
    }
  }

  lemma NoIndirect(b: B, d: nat)
    requires Built(b) && IsDir(b.s, d)
    ensures b.s.files[d].indirect == 0
  {
    assert DirShape(b.s, d);
  }

  lemma SameDirDense(s: S, t: S, d: nat, n: nat)
    requires Shape(s) && Shape(t) && |s.mem| == |t.mem| && d < |s.files| && SameDir(s, t, d) && Dense(s, d, n)
             && s.files[d].indirect == 0
    ensures Dense(t, d, n) && Blocks(t, d) == Blocks(s, d)
  {
    DirRefs(s, t, d);
    hide Ref;
    forall i, j | 0 <= i && 0 <= j && Present(t, d, i, j) ensures Present(s, d, i, j) {}
  }

  lemma DirRefs(s: S, t: S, d: nat)
    requires Shape(s) && Shape(t) && |s.mem| == |t.mem| && d < |s.files| && t.files[d] == s.files[d]
             && s.files[d].indirect == 0
    ensures forall k | 0 <= k < IND :: Ref(t, d, k) == Ref(s, d, k)
  {}

  lemma SameDirNoEntry(s: S, t: S, d: nat, c: string)
    requires Shape(s) && Shape(t) && |s.mem| == |t.mem| && d < |s.files| && SameDir(s, t, d) && NoEntry(s, d, c)
             && s.files[d].indirect == 0
    ensures NoEntry(t, d, c)
  {
    DirRefs(s, t, d);
    hide Ref;
    forall i, j | 0 <= i && 0 <= j && Present(t, d, i, j) ensures Present(s, d, i, j) {}
  }

  /* ---------- the finished image ---------- */

  lemma {:induction false} AllOnes(n: nat, k: nat)
    requires k < n
    ensures BitOf(Power(n) - 1, k)
    decreases n
  {
    var p := Power(n - 1);
    assert Power(n) == 2 * p && p > 0;
    assert (2 * p - 1) % 2 == 1 && (2 * p - 1) / 2 == p - 1;
    if k > 0 { AllOnes(n - 1, k - 1); }
    hide Power;
  }

  lemma {:induction false} AllZeros(k: nat)
    ensures !BitOf(0, k)
    decreases k
  {
    if k > 0 { AllZeros(k - 1); }
  }

  lemma InitWords(i: nat)
    requires i < 1024
    ensures GetWord(InitBitmap(), i) == if i < NBLOCK / 32 then WORD - 1 else 0
  {}

  /** The bitmap of init_disk: exactly the blocks of the disk are free. */
  lemma InitBits(x: nat)
    requires x < BIT2BLK
    ensures BitOf(GetWord(InitBitmap(), x / 32), x % 32) == (x < NBLOCK)
  {
    InitWords(x / 32);
    if x < NBLOCK {
      PowerAt32();
      AllOnes(32, x % 32);
    } else {
      AllZeros(x % 32);
    }
    hide BitOf, GetWord, InitBitmap, Power;
  }

  /** flush_bitmap clears the bits of the blocks taken, and nothing else changes. */
  lemma {:induction false} FlushBits(s: S, i: nat, next: nat, x: nat)
    requires Shape(s) && next <= |s.mem| && x < BIT2BLK
    ensures var t := FlushBitmap(s, i, next);
            && BitOf(GetWord(t.mem[2], x / 32), x % 32)
                  == (BitOf(GetWord(s.mem[2], x / 32), x % 32) && !(i <= x < next))
            && t.mem == s.mem[2 := t.mem[2]]
    decreases next - i
  {
    hide BitOf, GetWord, PutWord, WordWithBit, WithBit;
    if i < next {
      var c := s.(mem := s.mem[2 := PutWord(s.mem[2], i / 32, WordWithBit(GetWord(s.mem[2], i / 32), i % 32, false))]);
      assert i / BIT2BLK == 0 && i % BIT2BLK == i;
      FlushBit(s.mem[2], i, x);
      FlushBits(c, i + 1, next, x);
    }
  }

  lemma FlushBit(m: Block, i: nat, x: nat)
    requires i < BIT2BLK && x < BIT2BLK
    ensures var w := WordWithBit(GetWord(m, i / 32), i % 32, false);
            BitOf(GetWord(PutWord(m, i / 32, w), x / 32), x % 32) == (BitOf(GetWord(m, x / 32), x % 32) && x != i)
  {
    var was := GetWord(m, i / 32);
    GetPut(m, i / 32, WordWithBit(was, i % 32, false), x / 32);
    WithBitBits(was, i % 32, false, x % 32);
    assert x / 32 == i / 32 && x % 32 == i % 32 ==> x == i;
    hide GetWord, PutWord, BitOf, WithBit;
  }

  /** Bit x of the finished bitmap is set, which block_is_free reads as free, exactly for the blocks
      never taken. */
  lemma BitmapRight(b: B, answers: seq<bool>, x: nat)
    requires Built(b)
    ensures Free(Mount(b, answers), x) <==> b.next <= x < NBLOCK
  {
    hide BitOf, GetWord, InitBitmap, FlushBitmap, Ref, Unique, Apart, DirShape, ZeroBlock;
    if x < NBLOCK {
      FlushBits(b.s, 0, b.next, x);
      InitBits(x);
    }
  }

  /** The mounted server sees the builder's files: same records, pointers and contents. */
  lemma MountSees(b: B, answers: seq<bool>)
    requires Built(b)
    ensures var s := Mount(b, answers);
            && Shape(s) && s.files == b.s.files && |s.mem| == |b.s.mem| && SameRefs(b.s, s)
            && (forall x | 3 <= x < NBLOCK :: View(s, x) == View(b.s, x) == s.disk[x])
  {
    var s := Mount(b, answers);
    FlushBits(b.s, 0, b.next, 0);
    assert forall x | 3 <= x < NBLOCK :: View(s, x) == View(b.s, x) by { hide FlushBitmap, InitBitmap; }
    hide GetWord, FlushBitmap, InitBitmap, ZeroBlock, BitOf;
    forall g, m | 0 <= g < |b.s.files| && 0 <= m <= IND ensures Ref(s, g, m) == Ref(b.s, g, m) {
      assert Ref(b.s, g, IND) == b.s.files[g].indirect;
    }
  }

  /** A server started on a finished image starts safe: ownership, directories and cache are in order. */
  lemma MountSafe(b: B, answers: seq<bool>)
    requires Built(b)
    ensures var s := Mount(b, answers); FsInv(s) && Clean(s) && Complete(s)
  {
    var s := Mount(b, answers);
    MountSees(b, answers);
    forall x: nat ensures Free(s, x) <==> b.next <= x < NBLOCK { BitmapRight(b, answers, x); }
    assert (forall x | 0 <= x < NBLOCK :: s.mapped[x] == (x < 3)) && !s.fix;
    hide Mount, Ref, Free, View, InitBitmap, ZeroBlock;
    MountOwn(b, s);
    MountNames(b, s);
    MountClean(b, s);
  }

  lemma MountOwn(b: B, s: S)
    requires Built(b) && Shape(s) && |s.mem| == NBLOCK && s.files == b.s.files && SameRefs(b.s, s)
    requires (forall x | 0 <= x < NBLOCK :: s.mapped[x] == (x < 3))
             && forall x: nat :: Free(s, x) <==> b.next <= x < NBLOCK
    ensures Own(s)
  {
    hide Ref, Free, Unique, InitBitmap, ZeroBlock, DirShape;
    forall g, m | 0 <= g < |s.files| && 0 <= m <= IND && Free(s, g / FILE2BLK) ensures Ref(s, g, m) == 0 {
      NoFileRefs(b.s, g);
    }
  }

  lemma MountNames(b: B, s: S)
    requires Built(b) && Shape(s) && |s.mem| == NBLOCK && s.files == b.s.files && SameRefs(b.s, s)
    requires forall x: nat :: Free(s, x) <==> b.next <= x < NBLOCK
    ensures Names(s) && Complete(s)
  {
    hide Free, InitBitmap, ZeroBlock, Ref;
    forall d, k | 0 <= d < |s.files| && 0 <= k < IND && s.files[d].typ == FTYPE_DIR
      ensures (k >= Blocks(s, d) ==> Ref(s, d, k) == 0) && (k < Blocks(s, d) ==> Ref(s, d, k) != 0)
    {
      assert DirShape(b.s, d);
      DirectOnly(b.s, d, k);
    }
    assert Complete(s) by {
      forall d, k | 0 <= d < |s.files| && 0 <= k < Blocks(s, d) && s.files[d].typ == FTYPE_DIR
        ensures FsDir.Filled(s, d, k)
      {
        assert DirShape(b.s, d);
      }
    }
    SameDirsUnique(b.s, s);
  }

  lemma DirectOnly(s: S, d: nat, k: nat)
    requires Shape(s) && d < |s.files| && k < IND && s.files[d].indirect == 0
    ensures k >= NDIRECT ==> Ref(s, d, k) == 0
  {}

  lemma MountClean(b: B, s: S)
    requires Built(b) && Own(s) && !s.fix && |s.mem| == NBLOCK && (forall x | 0 <= x < NBLOCK :: s.mapped[x] == (x < 3))
    requires (forall x: nat :: Free(s, x) <==> b.next <= x < NBLOCK)
             && forall x | 3 <= x < NBLOCK :: View(b.s, x) == s.disk[x]
    ensures Clean(s)
  {
    hide Ref, Free, Unique, InitBitmap, ZeroBlock, DirShape;
  }

  /* ---------- reading it back ---------- */

  /** The names lead through the tree to a file with this content. */
  ghost predicate Leads(children: seq<Node>, names: seq<string>, content: seq<Byte>)
    decreases |names|
  {
    names != []
    && exists i | 0 <= i < |children| :: children[i].name == names[0] && LeadsNode(children[i], names, content)
  }

  ghost predicate LeadsNode(node: Node, names: seq<string>, content: seq<Byte>)
    requires names != []
    decreases |names|, 0
  {
    match node
    case FileNode(_, c) => |names| == 1 && c == content
    case DirNode(_, children) => Leads(children, names[1..], content)
  }

  /** A stored record is the one its directory gives for its name. */
  lemma StoredFinds(s: S, d: nat, node: Node, e: nat)
    requires FsInv(s) && Complete(s) && IsDir(s, d) && StoredNode(s, d, node, e)
    ensures Find(s, d, node.name) == Slot(e)
  {
    hide Ref, Free, FindFrom, ScanBlock, Stored, Holds, Complete;
    var name, n := node.name, Blocks(s, d);
    var p: nat :| At(s, d, p, e);
    CompleteAnswers(s, d, name, 0, n);
    if FindFrom(s, d, name, 0, n) == Missing {
      MissingNoEntry(s, d, name, 0, n);
    } else {
      var k, j := FoundAt(s, d, name, 0, n);
      assert Present(s, d, k, j) && s.files[Entry(s, d, k, j)].name == NameAt(s, Ref(s, d, k), j) == name;
    }
  }

  lemma {:induction false} StoredGet(s: S, d: nat, children: seq<Node>, i: nat) returns (e: nat)
    requires Shape(s) && d < |s.files| && Stored(s, d, children) && i < |children|
    ensures StoredNode(s, d, children[i], e)
    decreases i
  {
    hide StoredNode;
    if i == 0 {
      e :| StoredNode(s, d, children[0], e);
    } else {
      e := StoredGet(s, d, children[1..], i - 1);
    }
  }

  /** Following names through the directories follows them through the tree. */
  lemma {:induction false} TreeResolves(s: S, d: nat, children: seq<Node>, names: seq<string>, content: seq<Byte>)
        returns (e: nat)
    requires FsInv(s) && Complete(s) && IsDir(s, d) && Stored(s, d, children) && GoodTree(children)
             && Leads(children, names, content)
    ensures Resolve(s, d, names) == Slot(e) && e < |s.files| && s.files[e].size == |content| && Holds(s, e, 0, content)
    decreases |names|
  {
    hide Find, Complete, Names, InUse, Apart, FreeHasNoRefs, Holds, InDir, Ref, Free;
    GoodNames(children);
    var i: nat :| i < |children| && children[i].name == names[0] && LeadsNode(children[i], names, content);
    var f := StoredGet(s, d, children, i);
    StoredFinds(s, d, children[i], f);
    match children[i]
    case FileNode(_, _) =>
      e := f;
      assert names[1..] == [];
    case DirNode(_, below) =>
      assert GoodNode(children[i]);
      e := TreeResolves(s, f, below, names[1..], content);
  }

  lemma GoodNames(children: seq<Node>)
    requires GoodTree(children)
    ensures forall i | 0 <= i < |children| :: 0 < |children[i].name| < MAXNAMELEN && GoodNode(children[i])
  {
    assert forall i | 0 <= i < |children| :: GoodNode(children[i]);
  }

  /** The image of a whole tree. */
  function Image(tree: seq<Node>): (b: B)
    ensures Shape(b.s) && |b.s.mem| == NBLOCK
  {
    WriteDirectory(InitDisk(), ROOT, tree)
  }

  /* ---------- how many blocks a tree takes ---------- */

  /** The data blocks, and the index block of a file with more than ten of them. */
  function FileBlocks(n: nat): nat { BlocksOf(n) + (if BlocksOf(n) > NDIRECT then 1 else 0) }

  function DirBlocks(n: nat): nat { (n + FILE2BLK - 1) / FILE2BLK }

  function NodeBlocks(node: Node): nat
    decreases node
  {
    match node
    case FileNode(_, content) => FileBlocks(|content|)
    case DirNode(_, children) => DirBlocks(|children|) + SumBlocks(children)
  }

  function SumBlocks(children: seq<Node>): nat
    decreases children
  {
    if children == [] then 0 else NodeBlocks(children[0]) + SumBlocks(children[1..])
  }

  /** The reserved blocks, the root directory, and everything below it. */
  function TreeBlocks(tree: seq<Node>): nat { 3 + DirBlocks(|tree|) + SumBlocks(tree) }

  /** The tree fits on the disk. */
  predicate Fits(tree: seq<Node>) { TreeBlocks(tree) <= NBLOCK }

  lemma SaveLinkNext(b: B, f: nat, k: nat, v: Word)
    requires Shape(b.s) && f < |b.s.files| && k < IND && 0 < b.next < WORD
    ensures var t := SaveLink(b, f, k, v);
            && t.next == b.next + (if k >= NDIRECT && b.s.files[f].indirect == 0 then 1 else 0)
            && (t.s.files[f].indirect == 0 <==> k < NDIRECT && b.s.files[f].indirect == 0)
  {
    hide PutWord;
  }

  lemma {:induction false} LinkDataNext(b: B, f: nat, k: nat, content: seq<Byte>)
    requires Shape(b.s) && f < |b.s.files| && k + BlocksOf(|content|) <= IND && 0 < b.next
             && b.next + 2 * |content| < WORD
    requires b.s.files[f].indirect == 0 <==> k <= NDIRECT
    ensures LinkData(b, f, k, content).next
         == b.next + BlocksOf(|content|) + (if k <= NDIRECT < k + BlocksOf(|content|) then 1 else 0)
    decreases |content|
  {
    hide SaveLink, BlocksOf, PutData;
    if content == [] {
      NoBlocks();
    } else {
      MoreBlocks(|content|);
      var p := PutData(b, content[..Min(|content|, BY2BLK)]);
      PutDataRecords(b, content[..Min(|content|, BY2BLK)]);
      SaveLinkNext(p, f, k, b.next % WORD);
      LinkDataNext(SaveLink(p, f, k, b.next % WORD), f, k + 1, content[Min(|content|, BY2BLK)..]);
    }
  }

  lemma PutDataRecords(b: B, data: seq<Byte>)
    requires Shape(b.s) && |data| <= BY2BLK
    ensures PutData(b, data).s.files == b.s.files
  {}

  lemma CreateFileNext(b: B, d: nat, n: nat)
    requires Built(b) && IsDir(b.s, d) && Dense(b.s, d, n) && n < FILE2BLK * NDIRECT
    ensures CreateFile(b, d).0.next == b.next + (if n % FILE2BLK == 0 then 1 else 0)
  {
    hide Unique, Ref, ZeroBlock, InitBitmap;
    assert DirShape(b.s, d);
    Position(n);
    if n % FILE2BLK == 0 {
      if n > 0 { FullBlock(b, d, n, Blocks(b.s, d) - 1); }
    } else {
      OpenBlock(b, d, n, Blocks(b.s, d) - 1);
    }
  }

  lemma NextDirBlock(n: nat)
    ensures DirBlocks(n + 1) == DirBlocks(n) + (if n % FILE2BLK == 0 then 1 else 0)
  {
    Position(n);
    Position(n + 1);
  }

  /** If the blocks are there, the builder takes just as many as the sum says; and it ends within the
      disk only if they are. */
  lemma {:induction false} WriteNodeNext(b: B, d: nat, n: nat, node: Node)
    requires Built(b) && IsDir(b.s, d) && Dense(b.s, d, n) && n < FILE2BLK * NDIRECT && GoodNode(node)
             && NoEntry(b.s, d, node.name)
    requires WriteNode(b, d, node).next <= NBLOCK || b.next + DirBlocks(n + 1) - DirBlocks(n)
             + NodeBlocks(node) <= NBLOCK
    ensures WriteNode(b, d, node).next == b.next + DirBlocks(n + 1) - DirBlocks(n) + NodeBlocks(node)
    decreases node, 0
  {
    hide CreateFile, LinkData, WriteDirectory, Recorded, Ref, BlocksOf, DirBlocks, Dense, Unique, Apart, DirShape,
         InitBitmap, ZeroBlock;
    BuiltShape(b);
    NextDirBlock(n);
    CreateFileNext(b, d, n);
    NextInDisk(b, d, node);
    var c := CreateFile(b, d);
    match node
    case FileNode(name, content) =>
      NewRecord(b, d, n, name, |content| % WORD, FTYPE_REG);
      var u := SetRecord(c.0, c.1, name, |content| % WORD, FTYPE_REG);
      RecordedEmpty(b, u, d, n, c.1, name, |content| % WORD, FTYPE_REG);
      ContentFits(|content|);
      LinkDataNext(u, c.1, 0, content);
    case DirNode(name, children) =>
      NewRecord(b, d, n, name, 0, FTYPE_DIR);
      var u := SetRecord(c.0, c.1, name, 0, FTYPE_DIR);
      RecordedEmpty(b, u, d, n, c.1, name, 0, FTYPE_DIR);
      EmptyDirectory(b, u, d, n, c.1, name, children);
      WriteTreeNext(u, c.1, 0, children);
      NoDirBlocks();
  }

  lemma NoDirBlocks()
    ensures DirBlocks(0) == 0
  {}

  /** create_file is within the disk if the whole node is. */
  lemma NextInDisk(b: B, d: nat, node: Node)
    requires Shape(b.s) && d < |b.s.files|
    ensures CreateFile(b, d).0.next <= WriteNode(b, d, node).next
  {
    hide CreateFile, LinkData, WriteDirectory;
  }

  lemma RecordedEmpty(b: B, u: B, d: nat, n: nat, e: nat, name: string, size: Word, typ: Word)
    requires Recorded(b, u, d, n, e, name, size, typ)
    ensures Shape(u.s) && 3 <= u.next <= NBLOCK && e < |u.s.files| && u.s.files[e].indirect == 0
  {
    hide Ref, Unique, Apart, DirShape, InitBitmap, ZeroBlock;
  }

  lemma {:induction false} WriteTreeNext(b: B, d: nat, n: nat, children: seq<Node>)
    requires Built(b) && IsDir(b.s, d) && Dense(b.s, d, n) && n + |children| <= FILE2BLK * NDIRECT
    requires Distinct(children)
             && (forall i | 0 <= i < |children| :: GoodNode(children[i]) && NoEntry(b.s, d, children[i].name))
    requires WriteDirectory(b, d, children).next <= NBLOCK
             || b.next + DirBlocks(n + |children|) - DirBlocks(n) + SumBlocks(children) <= NBLOCK
    ensures WriteDirectory(b, d, children).next == b.next + DirBlocks(n + |children|) - DirBlocks(n)
            + SumBlocks(children)
    decreases children, 1
  {
    hide Ref, Unique, Apart, InitBitmap, ZeroBlock, DirShape, NoEntry, Later, GoodNode, Dense, SameDir, WriteNode,
         Shaped, DirBlocks, StoredNode;
    BuiltShape(b);
    if children != [] {
      var c := WriteNode(b, d, children[0]);
      assert children[0].name != "" by { GoodName(children[0]); }
      DirBlocksGrow(n + 1, n + |children|);
      WriteNodeNext(b, d, n, children[0]);
      var e := WriteNodeEffect(b, d, n, children[0]);
      forall i | 0 <= i < |children[1..]| ensures GoodNode(children[1..][i]) && NoEntry(c.s, d, children[1..][i].name) {
        assert children[1..][i] == children[i + 1];
        GoodName(children[i + 1]);
      }
      WriteTreeNext(c, d, n + 1, children[1..]);
    }
  }

  lemma DirBlocksGrow(m: nat, n: nat)
    requires m <= n
    ensures DirBlocks(m) <= DirBlocks(n)
  {}

  /** The image fits exactly when the tree's blocks do, and then it takes just these. */
  lemma ImageFitsIff(tree: seq<Node>)
    requires GoodTree(tree)
    ensures Image(tree).next <= NBLOCK <==> Fits(tree)
    ensures Fits(tree) ==> Image(tree).next == TreeBlocks(tree)
  {
    hide Ref, Unique, Apart, DirShape, WriteDirectory, NoEntry, InitBitmap, ZeroBlock;
    InitBuilt();
    RootEmpty(InitDisk(), tree);
    NoDirBlocks();
    if Image(tree).next <= NBLOCK || Fits(tree) { WriteTreeNext(InitDisk(), ROOT, 0, tree); }
  }

  lemma ImageBuilt(tree: seq<Node>, answers: seq<bool>)
    requires GoodTree(tree) && Fits(tree)
    ensures var b := Image(tree);
            && b.next <= NBLOCK
            && var s := Mount(b, answers);
               Built(b) && FsInv(s) && Clean(s) && Complete(s) && IsDir(s, ROOT) && Stored(s, ROOT, tree)
  {
    ImageFitsIff(tree);
    hide Ref, Unique, Apart, DirShape, Stored, WriteDirectory, NoEntry, View, Names, Own, Clean, Complete, InitBitmap,
         ZeroBlock;
    InitBuilt();
    var i := InitDisk();
    RootEmpty(i, tree);
    WriteTree(i, ROOT, 0, tree);
    var b := Image(tree);
    var s := Mount(b, answers);
    MountSafe(b, answers);
    MountSees(b, answers);
    MountLater(b, s);
    StoredStays(b, B(s, b.next), ROOT, tree);
  }

  lemma RootEmpty(b: B, tree: seq<Node>)
    requires b == InitDisk() && GoodTree(tree)
    ensures IsDir(b.s, ROOT) && Dense(b.s, ROOT, 0)
    ensures Distinct(tree) && |tree| <= FILE2BLK * NDIRECT
    ensures forall i | 0 <= i < |tree| :: GoodNode(tree[i]) && NoEntry(b.s, ROOT, tree[i].name)
  {
    hide Ref, InitBitmap, ZeroBlock;
    assert b.s.files[ROOT] == RootRecord();
    assert Blocks(b.s, ROOT) == 0;
  }

  lemma MountLater(b: B, s: S)
    requires Built(b) && Shape(s) && |s.mem| == |b.s.mem| && s.files == b.s.files && SameRefs(b.s, s)
    requires forall x | 3 <= x < NBLOCK :: View(s, x) == View(b.s, x)
    ensures Later(b, B(s, b.next))
  {
    hide Ref, View, Unique, Apart, DirShape, InitBitmap, ZeroBlock;
  }

  /** Image round trip: for every tree that fits on the disk, the mounted server opens every path of
      the tree, finds the file with its size, and reads through file_map_block, without allocating,
      exactly the bytes of its content. */
  lemma ImageReadBack(tree: seq<Node>, path: string, content: seq<Byte>, answers: seq<bool>, i: nat)
    requires GoodTree(tree) && Fits(tree) && Leads(tree, Components(path), content) && i < |content|
    ensures Image(tree).next <= NBLOCK
    ensures var o := Walk(Mount(Image(tree), answers), path);
            && o.r == 0 && o.s.files[o.file].size == |content|
            && var m := MapFile(o.s, o.file, i / BY2BLK, false);
               0 < m.r < NBLOCK && View(m.s, m.r)[i % BY2BLK] == content[i]
  {
    hide Ref, View, Free, Mount, Image, Walk, WalkKnown, Resolve, Components, Leads, Names, InUse, Apart,
         FreeHasNoRefs, Clean, Complete, Stored, MapFile, Find, LeadsTo;
    ImageBuilt(tree, answers);
    var s := Mount(Image(tree), answers);
    BuiltShape(Image(tree));
    var e := TreeResolves(s, ROOT, tree, Components(path), content);
    WalkEffect2(s, path);
    WalkTo(s, Walk(s, path), ROOT, Components(path), e);
    var o := Walk(s, path).s;
    assert HoldsAt(s, e, 0 + i / BY2BLK, i % BY2BLK, content[i]);
    MapEffect(o, e, i / BY2BLK, false);
    var m := MapFile(o, e, i / BY2BLK, false);
    assert Ref(o, e, i / BY2BLK) == Ref(s, e, i / BY2BLK);
  }

  lemma WalkTo(s: S, w: W, f: nat, names: seq<string>, e: nat)
    requires Shape(s) && f < |s.files| && WalkKnown(s, w, f, names) && Resolve(s, f, names) == Slot(e)
    ensures w.r == 0 && w.file == e
  {}

  /** make_link_block stores the link before it takes the block, so a fresh index block takes the
      number that was stored: the link is right exactly when no index block is made. */
  lemma MakeLinkIff(b: B, d: nat, k: nat)
    requires Built(b) && d < |b.s.files| && k < IND && Ref(b.s, d, k) == 0 && b.next + 1 < NBLOCK
    ensures var m := MakeLink(b, d, k);
            Ref(m.0.s, d, k) == m.1 <==> k < NDIRECT || b.s.files[d].indirect != 0
  {
    hide ZeroBlock, InitBitmap, Unique, DirShape, Free, GetWord, PutWord;
    var l, m := SaveLink(b, d, k, b.next % WORD), MakeLink(b, d, k);
    assert Ref(m.0.s, d, k) == Ref(l.s, d, k);
    assert Ref(b.s, d, IND) == b.s.files[d].indirect;
    if k < NDIRECT || b.s.files[d].indirect != 0 {
      SetCellRefs(b.s, d, k, b.next);
    } else {
      FreshIndirect(b, d, k, b.next);
    }
  }
}
