/** Blocks, the free-block bitmap and the write-back block cache of the file server (fs/fs.c). */
module FsDisk {
  import opened Numbers

  const BY2BLK := 4096
  const BIT2BLK := 32768
  const NDIRECT := 10
  const NINDIRECT := 1024
  const FILE2BLK := 16
  const MAXBLOCKS := 2048
  const FTYPE_DIR := 1
  const WORD := 0x1_0000_0000

  const E_INVAL := 3
  const E_NO_MEM := 4
  const E_NO_DISK := 7
  const E_NOT_FOUND := 9
  const PANIC := -1000

  type Byte = x: int | 0 <= x < 256
  type Word = x: int | 0 <= x < WORD
  type Block = s: seq<Byte> | |s| == BY2BLK witness seq(BY2BLK, _ => 0)

  /* ---------- little-endian words of a block ---------- */

  function GetWord(b: Block, i: nat): (w: Word)
    requires i < 1024
  {
    b[4 * i] as int + 256 * (b[4 * i + 1] as int) + 65536 * (b[4 * i + 2] as int) + 16777216 * (b[4 * i + 3] as int)
  }

  function PutWord(b: Block, i: nat, w: Word): (r: Block)
    requires i < 1024
  {
    b[4 * i := w % 256][4 * i + 1 := w / 256 % 256][4 * i + 2 := w / 65536 % 256][4 * i + 3 := w / 16777216]
  }

  function ZeroBlock(): (b: Block) { seq(BY2BLK, _ => 0) }

  lemma WordSplit(w: Word)
    ensures w == w % 256 + 256 * (w / 256 % 256) + 65536 * (w / 65536 % 256) + 16777216 * (w / 16777216)
  {
    assert w / 65536 == w / 256 / 256 && w / 16777216 == w / 65536 / 256;
  }

  /** A word written is the word read; its neighbours are untouched. */
  lemma GetPut(b: Block, i: nat, w: Word, j: nat)
    requires i < 1024 && j < 1024
    ensures GetWord(PutWord(b, i, w), j) == if i == j then w else GetWord(b, j)
  {
    var c := PutWord(b, i, w);
    WordSplit(w);
    if i != j {
      assert c[4 * j] == b[4 * j] && c[4 * j + 1] == b[4 * j + 1] && c[4 * j + 2] == b[4 * j + 2]
             && c[4 * j + 3] == b[4 * j + 3];
    }
  }

  lemma ZeroWords(j: nat)
    requires j < 1024
    ensures GetWord(ZeroBlock(), j) == 0
  {}

  /* ---------- bits of a word ---------- */

  /** w & (1 << k). */
  predicate BitOf(w: nat, k: nat)
    decreases k
  {
    if k == 0 then w % 2 == 1 else BitOf(w / 2, k - 1)
  }

  /** w & ~(1 << k) or w | (1 << k). */
  function WithBit(w: nat, k: nat, on: bool): (r: nat)
    decreases k
  {
    if k == 0 then w - w % 2 + (if on then 1 else 0) else 2 * WithBit(w / 2, k - 1, on) + w % 2
  }

  lemma {:induction false} WithBitBits(w: nat, k: nat, on: bool, j: nat)
    ensures BitOf(WithBit(w, k, on), j) == if j == k then on else BitOf(w, j)
    decreases k
  {
    if k > 0 {
      var r := WithBit(w / 2, k - 1, on);
      assert (2 * r + w % 2) / 2 == r && (2 * r + w % 2) % 2 == w % 2;
      if j > 0 { WithBitBits(w / 2, k - 1, on, j - 1); }
    } else {
      var r := WithBit(w, 0, on);
      assert r / 2 == w / 2 && r % 2 == if on then 1 else 0;
    }
  }

  lemma {:induction false} WithBitBound(w: nat, k: nat, on: bool, n: nat)
    requires k < n && w < Power(n)
    ensures WithBit(w, k, on) < Power(n)
    decreases k
  {
    var p := Power(n - 1);
    assert Power(n) == 2 * p;
    if k > 0 {
      WithBitBound(w / 2, k - 1, on, n - 1);
    } else {
      EvenBound(w, p);
    }
    hide Power;
  }

  lemma EvenBound(w: nat, p: nat)
    requires w < 2 * p
    ensures w - w % 2 + 1 < 2 * p
  {}

  function WordWithBit(w: Word, k: nat, on: bool): (r: Word)
    requires k < 32
  {
    PowerAt32();
    WithBitBound(w, k, on, 32);
    WithBit(w, k, on)
  }

  /* ---------- the state ---------- */

  type Direct = s: seq<Word> | |s| == NDIRECT witness seq(NDIRECT, _ => 0)

  /** A directory record. name is the text before the NUL; dir is the slot of the parent, 0 for none. */
  datatype File = File(name: string, size: Word, typ: Word, direct: Direct, indirect: Word, dir: nat)

  function NoFile(): File { File("", 0, 0, seq(NDIRECT, _ => 0), 0, 0) }

  /** The server: cached blocks (valid where mapped), the disk, the File records of each block
      (slots 16b to 16b + 15 of block b, the root in slot 16) as the server sees them, their copies
      on the disk, and the kernel's answers to its coming page requests. fix = false is the code as
      written; fix = true repairs free_block. */
  datatype S = S(fix: bool, mem: seq<Block>, mapped: seq<bool>, dirty: seq<bool>, disk: seq<Block>,
                 files: seq<File>, kept: seq<File>, grants: seq<bool>)

  datatype R = R(s: S, r: int)

  const ROOT := 16

  ghost predicate Shape(s: S) {
    3 < |s.mem| == |s.mapped| == |s.dirty| == |s.disk| <= MAXBLOCKS && |s.files| == |s.kept| == FILE2BLK * |s.mem|
  }

  /** A block as the server sees it: memory if mapped, else disk. */
  function View(s: S, b: nat): Block
    requires Shape(s) && b < |s.mem|
  {
    if s.mapped[b] then s.mem[b] else s.disk[b]
  }

  /** block_is_free, for block numbers of the disk. */
  predicate Free(s: S, b: nat)
    requires Shape(s)
  {
    b < |s.mem| && BitOf(GetWord(s.mem[2], b / 32), b % 32)
  }

  /* ---------- the cache ---------- */

  /** The page of a block, read in if it is not there. */
  function Load(s: S, b: nat): (t: S)
    requires Shape(s) && b < |s.mem|
    ensures Shape(t)
  {
    if s.mapped[b] then s else s.(mem := s.mem[b := s.disk[b]], mapped := s.mapped[b := true])
  }

  /** read_block: it panics outside the disk and on a free block. */
  function ReadBlock(s: S, b: nat): (r: R)
    requires Shape(s)
    ensures Shape(r.s) && |r.s.mem| == |s.mem| && (r.r == 0 ==> b < |s.mem|) && r.s.files == s.files
  {
    if b >= |s.mem| || Free(s, b) then R(s, PANIC) else R(Load(s, b), 0)
  }

  /** The records on the disk once block b is written. */
  function KeptWith(s: S, b: nat): (k: seq<File>)
    requires Shape(s)
    ensures |k| == |s.kept|
    ensures forall g | 0 <= g < |k| :: k[g] == if g / FILE2BLK == b then s.files[g] else s.kept[g]
  {
    seq(|s.kept|, g requires 0 <= g < |s.kept| => if g / FILE2BLK == b then s.files[g] else s.kept[g])
  }

  /** write_block: the page goes to the disk with the records in it. */
  function WriteBlock(s: S, b: nat): (t: S)
    requires Shape(s) && b < |s.mem|
    ensures Shape(t)
  {
    s.(disk := s.disk[b := s.mem[b]], kept := KeptWith(s, b), dirty := s.dirty[b := false])
  }

  function WriteIfDirty(s: S, b: nat): (t: S)
    requires Shape(s) && b < |s.mem|
    ensures Shape(t)
  {
    if s.mapped[b] && s.dirty[b] then WriteBlock(s, b) else s
  }

  function SyncFrom(s: S, b: nat): (t: S)
    requires Shape(s) && b <= |s.mem|
    ensures Shape(t)
    decreases |s.mem| - b
  {
    if b == |s.mem| then s else SyncFrom(WriteIfDirty(s, b), b + 1)
  }

  /** fs_sync. */
  function Sync(s: S): (t: S)
    requires Shape(s)
    ensures Shape(t)
  {
    SyncFrom(s, 0)
  }

  /** fs_init: the super block and the bitmap are read; check_write_block writes the super block
      back and leaves a copy of it in the cached block 0. */
  function Booted(s: S): (t: S)
    requires Shape(s)
    ensures Shape(t) && |t.mem| == |s.mem|
  {
    s.(mem := s.mem[0 := s.disk[1]][1 := s.disk[1]][2 := s.disk[2]],
        mapped := s.mapped[0 := true][1 := true][2 := true],
       dirty := seq(|s.dirty|, _ => false), kept := KeptWith(s, 1))
  }

  /* ---------- the bitmap ---------- */

  function MarkBlock(s: S, b: nat, free: bool): (t: S)
    requires Shape(s) && b < |s.mem|
    ensures Shape(t)
  {
    var w := WordWithBit(GetWord(s.mem[2], b / 32), b % 32, free);
    s.(mem := s.mem[2 := PutWord(s.mem[2], b / 32, w)])
  }

  /** unmap_block of a free block: the page goes, and the records it held are gone for good,
      since the next use of the block starts from a zeroed page. */
  function Unmap(s: S, b: nat): (t: S)
    requires Shape(s) && b < |s.mem|
    ensures Shape(t)
  {
    s.(mapped := s.mapped[b := false],
       files := s.files[..FILE2BLK * b] + seq(FILE2BLK, _ => NoFile()) + s.files[FILE2BLK * b + FILE2BLK..])
  }

  /** free_block. As written it clears the bit, where set means free: the block is leaked.
      Repaired, it sets the bit. */
  function FreeBlock(s: S, b: nat): (t: S)
    requires Shape(s) && b < |s.mem|
    ensures Shape(t)
  {
    MarkBlock(s, b, s.fix)
  }

  /** The least free block from b on, or the number of blocks. */
  function FirstFree(s: S, b: nat): (r: nat)
    requires Shape(s) && b <= |s.mem|
    decreases |s.mem| - b
  {
    if b == |s.mem| || Free(s, b) then b else FirstFree(s, b + 1)
  }

  function AllocBlockNum(s: S): (r: R)
    requires Shape(s)
    ensures Shape(r.s) && r.r < |r.s.mem| == |s.mem| && r.s.files == s.files
  {
    var b := FirstFree(s, 3);
    FirstFreeIs(s, 3);
    if b == |s.mem| then R(s, -E_NO_DISK) else R(WriteBlock(MarkBlock(s, b, false), b / BIT2BLK), b)
  }

  function MapBlock(s: S, b: nat): (r: R)
    requires Shape(s) && b < |s.mem|
    ensures Shape(r.s) && r.r <= 0 && |r.s.mem| == |s.mem| && r.s.files == s.files
  {
    if s.mapped[b] then R(s, 0)
    else
      var t := s.(grants := if s.grants == [] then [] else s.grants[1..]);
      if s.grants == [] || !s.grants[0] then R(t, -E_NO_MEM)
      else R(t.(mem := s.mem[b := ZeroBlock()], mapped := s.mapped[b := true]), 0)
  }

  function AllocBlock(s: S): (r: R)
    requires Shape(s)
    ensures Shape(r.s) && r.r < |r.s.mem| == |s.mem| && (r.r >= 0 ==> r.s.files == s.files)
  {
    var a := AllocBlockNum(s);
    if a.r < 0 then a
    else
      var m := MapBlock(a.s, a.r);
      if m.r < 0 then R(FreeBlock(m.s, a.r), m.r) else R(m.s, a.r)
  }

  lemma {:induction false} FirstFreeIs(s: S, b: nat)
    requires Shape(s) && b <= |s.mem|
    ensures b <= FirstFree(s, b) <= |s.mem|
    ensures FirstFree(s, b) < |s.mem| ==> Free(s, FirstFree(s, b))
    ensures forall x :: b <= x < FirstFree(s, b) ==> !Free(s, x)
    decreases |s.mem| - b
  {
    hide Free;
    if b < |s.mem| && !Free(s, b) { FirstFreeIs(s, b + 1); }
  }

  /** Marking a block changes its bit and no other. */
  lemma MarkEffect(s: S, b: nat, free: bool, x: nat)
    requires Shape(s) && b < |s.mem|
    ensures Free(MarkBlock(s, b, free), x) == if x == b then free else Free(s, x)
  {
    if x < |s.mem| {
      var was := GetWord(s.mem[2], b / 32);
      var w := WordWithBit(was, b % 32, free);
      GetPut(s.mem[2], b / 32, w, x / 32);
      WithBitBits(was, b % 32, free, x % 32);
      assert x / 32 == b / 32 && x % 32 == b % 32 ==> x == b;
      hide GetWord, PutWord, BitOf, WithBit;
    }
  }

  /* ---------- what the block operations do ---------- */

  /** The cache is set up: the reserved blocks are in memory and in use, and no free block is mapped. */
  ghost predicate Ready(s: S) {
    && Shape(s)
    && (forall b :: 0 <= b < 3 ==> s.mapped[b] && !Free(s, b))
    && (forall b :: 0 <= b < |s.mem| && s.mapped[b] ==> !Free(s, b))
  }

  /** From s to t the File records, also those kept on the disk, and all blocks from 3 on stay,
      except that block b (if any) may be mapped. */
  ghost predicate SameBut(s: S, t: S, b: int) {
    && Shape(s) && Shape(t) && |s.mem| == |t.mem| && s.fix == t.fix && s.files == t.files
    && (forall x :: 0 <= x < |s.mem| && x != b ==> s.mapped[x] == t.mapped[x])
    && (forall x :: 3 <= x < |s.mem| && x != b ==> s.mem[x] == t.mem[x])
    && Unwritten(s, t)
  }

  /** Nothing from block 3 on was written back or marked dirty. */
  ghost predicate Unwritten(s: S, t: S) {
    && Shape(s) && Shape(t) && |s.mem| == |t.mem|
    && (forall x :: 3 <= x < |s.mem| ==> s.disk[x] == t.disk[x] && s.dirty[x] == t.dirty[x])
    && (forall g :: 3 * FILE2BLK <= g < |s.kept| ==> s.kept[g] == t.kept[g])
  }

  /** alloc_block returns the least free block, zeroed, cached and marked in use; on failure no
      block is gained, and the disk is full or the kernel had no page. */
  lemma AllocEffect(s: S)
    requires Ready(s)
    ensures var a := AllocBlock(s);
            && Ready(a.s) && SameBut(s, a.s, a.r)
            && (a.r >= 0 ==>
                  && 3 <= a.r && Free(s, a.r) && (forall x :: 3 <= x < a.r ==> !Free(s, x))
                  && a.s.mapped[a.r] && a.s.mem[a.r] == ZeroBlock()
                  && (forall x :: Free(a.s, x) == (Free(s, x) && x != a.r)))
            && (a.r < 0 ==>
                  && (a.r == -E_NO_DISK || a.r == -E_NO_MEM)
                  && (a.r == -E_NO_DISK ==> a.s == s && forall x :: 3 <= x < |s.mem| ==> !Free(s, x))
                  && (forall x :: Free(a.s, x) ==> Free(s, x))
                  && (s.fix ==> forall x :: Free(a.s, x) == Free(s, x)))
  {
    hide Free, FirstFree, GetWord, PutWord, WordWithBit, KeptWith, ZeroBlock;
    FirstFreeIs(s, 3);
    var b := FirstFree(s, 3);
    if b < |s.mem| {
      var m := MarkBlock(s, b, false);
      forall x: nat ensures Free(m, x) == (Free(s, x) && x != b) { MarkEffect(s, b, false, x); }
      var w := WriteBlock(m, b / BIT2BLK);
      assert b / BIT2BLK == 0;
      var p := MapBlock(w, b);
      SameBitmap(m, p.s);
      if p.r < 0 {
        forall x: nat ensures Free(FreeBlock(p.s, b), x) == if x == b then s.fix else Free(p.s, x) {
          MarkEffect(p.s, b, s.fix, x);
        }
      }
    }
  }

  lemma SameBitmap(s: S, t: S)
    requires Shape(s) && Shape(t) && s.mem[2] == t.mem[2] && |s.mem| == |t.mem|
    ensures forall x :: Free(s, x) == Free(t, x)
  {}

  /* ---------- the view ---------- */

  /** Same records, bitmap and views: only the cache moved. */
  ghost predicate SameView(s: S, t: S) {
    && Shape(s) && Shape(t) && |s.mem| == |t.mem| && s.fix == t.fix && s.files == t.files && s.grants == t.grants
    && s.mem[2] == t.mem[2]
    && (forall b :: 0 <= b < |s.mem| ==> View(s, b) == View(t, b))
    && (forall b :: 0 <= b < |s.mem| && s.mapped[b] ==> t.mapped[b])
  }

  /** read_block keeps every view and leaves the block in memory. */
  lemma LoadKeepsView(s: S, b: nat)
    requires Shape(s) && b < |s.mem| && s.mapped[2]
    ensures SameView(s, Load(s, b)) && Load(s, b).mapped[b] && Load(s, b).mem[b] == View(s, b)
  {}

  /** write_block keeps every view. */
  lemma WriteKeepsView(s: S, b: nat)
    requires Shape(s) && b < |s.mem| && s.mapped[b]
    ensures SameView(s, WriteBlock(s, b)) && WriteBlock(s, b).disk[b] == View(s, b)
  {}

  /** Memory and disk agree on block b unless it is marked dirty. */
  ghost predicate Coherent(s: S, b: nat)
    requires Shape(s) && b < |s.mem|
  {
    s.mapped[b] && !s.dirty[b] ==> s.mem[b] == s.disk[b]
  }

  /** From s to t the dirty blocks of memory numbered in [lo, hi), with their records, were written back. */
  ghost predicate WroteBack(s: S, t: S, lo: nat, hi: nat) {
    && SameView(s, t) && t.mapped == s.mapped && t.mem == s.mem
    && (forall x :: 0 <= x < |s.mem| ==>
          if lo <= x < hi && s.mapped[x] && s.dirty[x] then t.disk[x] == s.mem[x] && !t.dirty[x]
          else t.disk[x] == s.disk[x] && t.dirty[x] == s.dirty[x])
    && (forall g | 0 <= g < |s.files| ::
          t.kept[g] == if lo <= g / FILE2BLK < hi && s.mapped[g / FILE2BLK] && s.dirty[g / FILE2BLK] then s.files[g]
              else s.kept[g])
  }

  lemma WriteIfDirtyEffect(s: S, b: nat)
    requires Shape(s) && b < |s.mem|
    ensures WroteBack(s, WriteIfDirty(s, b), b, b + 1)
  {}

  lemma WroteBackTwice(s: S, t: S, u: S, lo: nat, mid: nat, hi: nat)
    requires WroteBack(s, t, lo, mid) && WroteBack(t, u, mid, hi) && lo <= mid <= hi
    ensures WroteBack(s, u, lo, hi)
  {}

  lemma {:induction false} SyncFromEffect(s: S, b: nat)
    requires Shape(s) && b <= |s.mem|
    ensures WroteBack(s, SyncFrom(s, b), b, |s.mem|)
    decreases |s.mem| - b
  {
    if b < |s.mem| {
      hide WriteIfDirty, WroteBack;
      WriteIfDirtyEffect(s, b);
      WroteBackMem(s, WriteIfDirty(s, b), b, b + 1);
      SyncFromEffect(WriteIfDirty(s, b), b + 1);
      WroteBackTwice(s, WriteIfDirty(s, b), SyncFrom(s, b), b, b + 1, |s.mem|);
    }
  }

  lemma WroteBackMem(s: S, t: S, lo: nat, hi: nat)
    requires WroteBack(s, t, lo, hi)
    ensures |t.mem| == |s.mem|
  {}

  /** After fs_sync nothing in memory is dirty, no view has changed, every block that was
      coherent now reads the same from the disk, and the disk has the records of exactly the
      blocks that were dirty. */
  lemma SyncWritesAll(s: S)
    requires Shape(s)
    ensures var t := Sync(s);
            && SameView(s, t)
            && (forall b :: 0 <= b < |s.mem| && t.mapped[b] ==> !t.dirty[b])
            && (forall b :: 0 <= b < |s.mem| && Coherent(s, b) ==> Coherent(t, b) && t.disk[b] == View(s, b))
            && (forall g | 0 <= g < |s.files| ::
                  t.kept[g] == if s.mapped[g / FILE2BLK] && s.dirty[g / FILE2BLK] then s.files[g] else s.kept[g])
  {
    SyncFromEffect(s, 0);
  }

  /** alloc_block_num writes back block b / BIT2BLK, which is block 0, and the bitmap is never marked
      dirty: an allocation does not reach the bitmap on the disk, not even with fs_sync. */
  lemma AllocationNotOnDisk(s: S)
    requires Ready(s) && !s.dirty[2]
    ensures Sync(AllocBlock(s).s).disk[2] == s.disk[2]
  {
    FirstFreeIs(s, 3);
    var a := AllocBlock(s);
    assert !a.s.dirty[2] && a.s.disk[2] == s.disk[2] by { hide Free, FirstFree; }
    hide AllocBlock;
    SyncFromEffect(a.s, 0);
  }
}
