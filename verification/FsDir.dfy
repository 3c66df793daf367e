/** Directories as name maps (fs/fs.c): lookup, path walking, create and remove. */
module FsDir {
  import opened FsDisk
  import opened FsFile

  const MAXNAMELEN := 128
  const E_BAD_PATH := 10
  const E_FILE_EXISTS := 11
  const NONE := -2000

  /* ---------- the code on values ---------- */

  function Blocks(s: S, d: nat): nat
    requires d < |s.files|
  {
    s.files[d].size / BY2BLK
  }

  function NameAt(s: S, b: nat, j: nat): string
    requires Shape(s) && b < |s.mem| && j < FILE2BLK
  {
    s.files[FILE2BLK * b + j].name
  }

  /** The first record from j on in block b with this name, or FILE2BLK. (An empty record has an empty name.) */
  function ScanBlock(s: S, b: nat, name: string, j: nat): (r: nat)
    requires Shape(s) && b < |s.mem| && j <= FILE2BLK
    ensures j <= r <= FILE2BLK
    ensures r < FILE2BLK ==> NameAt(s, b, r) == name
    ensures forall k :: j <= k < r ==> NameAt(s, b, k) != name
    decreases FILE2BLK - j
  {
    if j == FILE2BLK || NameAt(s, b, j) == name then j else ScanBlock(s, b, name, j + 1)
  }

  /** The loop of dir_lookup and dir_alloc_file: the slot with this name, an error, or NONE. */
  function ScanDir(s: S, d: nat, name: string, i: nat, n: nat): (r: R)
    requires Shape(s) && d < |s.files|
    ensures Shape(r.s) && |r.s.mem| == |s.mem| && r.r < |s.files|
    decreases n - i
  {
    if i >= n then R(s, NONE)
    else
      var g := GetFile(s, d, i);
      if g.r < 0 then g
      else
        var j := ScanBlock(g.s, g.r, name, 0);
        if j < FILE2BLK then R(g.s, FILE2BLK * g.r + j) else ScanDir(g.s, d, name, i + 1, n)
  }

  /** dir_lookup: a found record remembers its directory. */
  function Lookup(s: S, d: nat, name: string): (r: R)
    requires Shape(s) && d < |s.files|
    ensures Shape(r.s) && |r.s.mem| == |s.mem| && r.r < |s.files|
  {
    var l := ScanDir(s, d, name, 0, Blocks(s, d));
    if l.r >= 0 then R(l.s.(files := l.s.files[l.r := l.s.files[l.r].(dir := d)]), l.r)
    else if l.r == NONE then R(l.s, -E_NOT_FOUND)
    else l
  }

  /** dir_alloc_file: the first empty record, else the first record of one more block. */
  function DirAlloc(s: S, d: nat): (r: R)
    requires Shape(s) && d < |s.files|
    ensures Shape(r.s) && |r.s.mem| == |s.mem| && r.r < |s.files|
  {
    var n := Blocks(s, d);
    var a := ScanDir(s, d, "", 0, n);
    if a.r != NONE then a
    else
      var u := SetSizeField(a.s, d, (a.s.files[d].size + BY2BLK) % WORD);
      var g := GetFile(u, d, n);
      if g.r < 0 then g else R(g.s, FILE2BLK * g.r)
  }

  function SetName(s: S, f: nat, name: string): (t: S)
    requires Shape(s) && f < |s.files|
    ensures Shape(t) && |t.mem| == |s.mem|
  {
    s.(files := s.files[f := s.files[f].(name := name)])
  }

  /* ---------- paths ---------- */

  function SkipSlash(p: string): (r: string)
    ensures |r| <= |p| && (r == "" || r[0] != '/')
  {
    if p != "" && p[0] == '/' then SkipSlash(p[1..]) else p
  }

  function TakeName(p: string): (r: string)
    ensures |r| <= |p| && (p != "" && p[0] != '/' ==> |r| > 0)
  {
    if p == "" || p[0] == '/' then "" else [p[0]] + TakeName(p[1..])
  }

  /** The non-empty components of a path. */
  function Components(p: string): seq<string>
    decreases |p|
  {
    var q := SkipSlash(p);
    if q == "" then [] else [TakeName(q)] + Components(q[|TakeName(q)|..])
  }

  /** The outcome of walk_path: result, *pdir, *pfile and lastelem (0 for null). */
  datatype W = W(s: S, r: int, dir: nat, file: nat, last: string)

  function WalkFrom(s: S, dir: nat, file: nat, names: seq<string>): (w: W)
    requires Shape(s) && file < |s.files|
    ensures Shape(w.s) && |w.s.mem| == |s.mem|
    ensures w.r == 0 ==> w.file < |s.files|
    ensures w.r < 0 && w.dir != 0 ==> w.dir < |s.files|
    decreases |names|
  {
    if names == [] then W(s, 0, dir, file, "")
    else if |names[0]| >= MAXNAMELEN then W(s, -E_BAD_PATH, 0, 0, "")
    else if s.files[file].typ != FTYPE_DIR then W(s, -E_NOT_FOUND, 0, 0, "")
    else
      var l := Lookup(s, file, names[0]);
      if l.r >= 0 then WalkFrom(l.s, file, l.r, names[1..])
      else if l.r == -E_NOT_FOUND && |names| == 1 then W(l.s, l.r, file, 0, names[0])
      else W(l.s, l.r, 0, 0, "")
  }

  /** walk_path, a left fold of dir_lookup over the components; file_open. */
  function Walk(s: S, path: string): (w: W)
    requires Shape(s)
    ensures Shape(w.s) && |w.s.mem| == |s.mem|
    ensures w.r == 0 ==> w.file < |s.files|
    ensures w.r < 0 && w.dir != 0 ==> w.dir < |s.files|
  {
    WalkFrom(s, 0, ROOT, Components(path))
  }

  /** file_create: the new slot or an error. When the directory cannot grow, the error is that of the walk. */
  function Create(s: S, path: string): (r: R)
    requires Shape(s)
    ensures Shape(r.s) && |r.s.mem| == |s.mem|
  {
    var w := Walk(s, path);
    if w.r == 0 then R(w.s, -E_FILE_EXISTS)
    else if w.r != -E_NOT_FOUND || w.dir == 0 then R(w.s, w.r)
    else
      var a := DirAlloc(w.s, w.dir);
      if a.r < 0 then R(a.s, w.r) else R(SetName(a.s, a.r, w.last), a.r)
  }

  /** file_remove. */
  function Remove(s: S, path: string): (r: R)
    requires Shape(s)
    ensures Shape(r.s) && |r.s.mem| == |s.mem|
  {
    var w := Walk(s, path);
    if w.r < 0 then R(w.s, w.r)
    else if w.r > 0 then R(w.s, w.r)
    else R(Close(SetName(Truncate(w.s, w.file, 0), w.file, ""), w.file), 0)
  }

  /* ---------- directories as name maps ---------- */

  datatype Found = Slot(f: nat) | Missing | Hole

  /** What a directory says of a name, without touching the cache: the first record of that name,
      or nothing, or a missing block on the way. */
  function FindFrom(s: S, d: nat, name: string, i: nat, n: nat): (r: Found)
    requires Shape(s) && d < |s.files|
    ensures r.Slot? ==> r.f < |s.files|
    decreases n - i
  {
    if i >= n then Missing
    else if i >= IND || Ref(s, d, i) == 0 || Ref(s, d, i) >= |s.mem| then Hole
    else
      var j := ScanBlock(s, Ref(s, d, i), name, 0);
      if j < FILE2BLK then Slot(FILE2BLK * Ref(s, d, i) + j) else FindFrom(s, d, name, i + 1, n)
  }

  function Find(s: S, d: nat, name: string): (r: Found)
    requires Shape(s) && d < |s.files|
    ensures r.Slot? ==> r.f < |s.files|
  {
    FindFrom(s, d, name, 0, Blocks(s, d))
  }

  /** Record j of block i of directory d is in slot Entry. */
  ghost predicate Present(s: S, d: nat, i: nat, j: nat)
    requires Shape(s) && d < |s.files|
  {
    i < Blocks(s, d) && i < IND && 0 < Ref(s, d, i) < |s.mem| && j < FILE2BLK
  }

  function Entry(s: S, d: nat, i: nat, j: nat): nat
    requires Shape(s) && d < |s.files| && i < IND
  {
    FILE2BLK * Ref(s, d, i) + j
  }

  /** Records of free blocks are empty; a directory has no block past its size; names are unique. */
  ghost predicate Names(s: S)
    requires Shape(s)
  {
    && (forall g | 0 <= g < |s.files| :: Free(s, g / FILE2BLK) ==> s.files[g].name == "")
    && (forall d, k | 0 <= d < |s.files| && 0 <= k < IND :: s.files[d].typ == FTYPE_DIR && k >= Blocks(s, d) ==>
          Ref(s, d, k) == 0)
    && (forall d | 0 <= d < |s.files| :: s.files[d].typ == FTYPE_DIR ==> s.files[d].size % BY2BLK == 0)
    && Unique(s)
  }

  ghost predicate Unique(s: S)
    requires Shape(s)
  {
    forall d, i, j, k, l | 0 <= d < |s.files| && 0 <= i && 0 <= j && 0 <= k && 0 <= l && Present(s, d, i, j)
        && Present(s, d, k, l) ::
      s.files[d].typ == FTYPE_DIR && s.files[Entry(s, d, i, j)].name == s.files[Entry(s, d, k, l)].name != "" ==>
          i == k && j == l
  }

  ghost predicate FsInv(s: S) { Own(s) && !s.fix && Names(s) }

  /** From s to t the name maps only gained empty blocks. */
  ghost predicate Extends(s: S, t: S) {
    && Shape(s) && Shape(t) && |s.mem| == |t.mem| && s.fix == t.fix
    && (forall g | 0 <= g < |s.files| :: t.files[g].name == s.files[g].name && t.files[g].size == s.files[g].size
          && t.files[g].typ == s.files[g].typ)
    && (forall g, m | 0 <= g < |s.files| && 0 <= m < IND :: Ref(t, g, m) == Ref(s, g, m)
          || (Ref(s, g, m) == 0 && Free(s, Ref(t, g, m)) && (s.files[g].typ == FTYPE_DIR ==> m < Blocks(s, g))))
    && (forall x :: Free(t, x) ==> Free(s, x))
  }

  lemma ExtendsTwice(s: S, t: S, u: S)
    requires Extends(s, t) && Extends(t, u)
    ensures Extends(s, u)
  {
    hide Ref, Free;
  }

  lemma SameDataTwice(s: S, t: S, u: S)
    requires Own(s) && Extends(s, t) && Shape(u) && |t.mem| == |u.mem| && SameData(s, t) && SameData(t, u)
    ensures SameData(s, u)
  {
    hide Ref, Free, View;
    forall g, m | 0 <= g < |s.files| && 0 <= m < IND && 0 < Ref(s, g, m) < |s.mem|
      ensures View(u, Ref(s, g, m)) == View(s, Ref(s, g, m))
    {
      assert !Free(s, Ref(s, g, m));
      assert Ref(t, g, m) == Ref(s, g, m);
    }
  }

  lemma ExtendsKeeps(s: S, t: S)
    requires FsInv(s) && Own(t) && Extends(s, t)
    ensures FsInv(t)
  {
    hide Ref, Free;
    forall d, i, j, k, l | 0 <= d < |t.files| && 0 <= i && 0 <= j && 0 <= k && 0 <= l && Present(t, d, i, j)
        && Present(t, d, k, l)
      ensures
        t.files[d].typ == FTYPE_DIR && t.files[Entry(t, d, i, j)].name == t.files[Entry(t, d, k, l)].name != "" ==>
          i == k && j == l
    {
      if t.files[Entry(t, d, i, j)].name == t.files[Entry(t, d, k, l)].name != "" {
        NamedStays(s, t, d, i, j);
        NamedStays(s, t, d, k, l);
      }
    }
  }

  /** A record with a name was there before. */
  lemma NamedStays(s: S, t: S, d: nat, i: nat, j: nat)
    requires FsInv(s) && Extends(s, t) && d < |s.files| && Present(t, d, i, j) && t.files[Entry(t, d, i, j)].name != ""
    ensures Present(s, d, i, j) && Entry(s, d, i, j) == Entry(t, d, i, j)
  {
    hide Ref, Free;
    assert Entry(t, d, i, j) / FILE2BLK == Ref(t, d, i);
  }

  /* ---------- lookup against the name map ---------- */

  lemma MapsExtends(s: S, t: S, f: nat, k: nat)
    requires Own(s) && Own(t) && f < |s.files| && MapsBut(s, t, f, k)
             && (k < IND && s.files[f].typ == FTYPE_DIR ==> k < Blocks(s, f))
    requires k < IND ==> Ref(t, f, k) == Ref(s, f, k) || Free(s, Ref(t, f, k))
    ensures Extends(s, t)
  {
    hide Ref, Free;
  }

  /** Same pointers, names, sizes and types. */
  lemma SameExtends(s: S, t: S)
    requires Own(s) && Shape(t) && |s.mem| == |t.mem| && s.fix == t.fix && s.mem == t.mem && s.mapped == t.mapped
             && s.dirty == t.dirty && s.disk == t.disk
    requires forall g | 0 <= g < |s.files| :: t.files[g] == s.files[g].(dir := t.files[g].dir)
    ensures Own(t) && Extends(s, t) && SameRefs(s, t) && SameData(s, t) && (Clean(s) ==> Clean(t))
  {
    SameBitmap(s, t);
    assert SameRefs(s, t) by { hide Free; }
    hide Ref, Free;
    OwnShrinks(s, t);
    if Clean(s) { CleanKept(s, t, -1); }
  }

  lemma GetExtends(s: S, d: nat, i: nat)
    requires Own(s) && d < |s.files| && !Free(s, d / FILE2BLK) && (s.files[d].typ == FTYPE_DIR ==> i < Blocks(s, d))
    ensures var g := GetFile(s, d, i);
            Own(g.s) && Extends(s, g.s) && SameData(s, g.s) && (Clean(s) ==> Clean(g.s))
                && Blocks(g.s, d) == Blocks(s, d)
  {
    GetEffect(s, d, i);
    hide GetFile, Ref, Free, SameData;
    MapsExtends(s, GetFile(s, d, i).s, d, i);
  }

  lemma {:induction false} ScanBlockSame(s: S, t: S, b: nat, name: string, j: nat)
    requires Extends(s, t) && b < |s.mem| && j <= FILE2BLK
    ensures ScanBlock(t, b, name, j) == ScanBlock(s, b, name, j)
    decreases FILE2BLK - j
  {
    hide Ref, Free;
    if j < FILE2BLK { ScanBlockSame(s, t, b, name, j + 1); }
  }

  /** A present block decides the same in s and in an extension t. */
  lemma FindStep(s: S, t: S, d: nat, name: string, i: nat, n: nat)
    requires Extends(s, t) && d < |s.files| && i < n && i < IND && 0 < Ref(s, d, i) < |s.mem|
    ensures Ref(t, d, i) == Ref(s, d, i)
    ensures var j := ScanBlock(s, Ref(s, d, i), name, 0);
            if j < FILE2BLK then
              FindFrom(s, d, name, i, n) == FindFrom(t, d, name, i, n) == Slot(FILE2BLK * Ref(s, d, i) + j)
            else
              FindFrom(s, d, name, i, n) == FindFrom(s, d, name, i + 1, n)
                  && FindFrom(t, d, name, i, n) == FindFrom(t, d, name, i + 1, n)
  {
    assert Ref(t, d, i) == Ref(s, d, i) by { hide Free; }
    ScanBlockSame(s, t, Ref(s, d, i), name, 0);
    hide ScanBlock, Ref, Free, Extends;
  }

  /** The scan answers as the name map does once it is done; where the map had an answer before,
      it is that one. It fails only at a block that is missing and cannot be allocated. */
  lemma {:induction false} ScanFinds(s: S, d: nat, name: string, i: nat, n: nat)
    requires Own(s) && d < |s.files| && !Free(s, d / FILE2BLK) && n == Blocks(s, d)
    ensures var l := ScanDir(s, d, name, i, n);
            && Own(l.s) && Extends(s, l.s) && SameData(s, l.s) && (Clean(s) ==> Clean(l.s))
            && (l.r >= 0 ==> FindFrom(l.s, d, name, i, n) == Slot(l.r) && l.s.files[l.r].name == name
                             && !Free(l.s, l.r / FILE2BLK) && l.r >= 3 * FILE2BLK)
            && (l.r == NONE ==> FindFrom(l.s, d, name, i, n) == Missing)
            && (l.r < 0 && l.r != NONE ==>
                  FindFrom(s, d, name, i, n) == Hole && (l.r == -E_NO_DISK || l.r == -E_NO_MEM || l.r == -E_INVAL))
            && (FindFrom(s, d, name, i, n) != Hole ==> FindFrom(l.s, d, name, i, n) == FindFrom(s, d, name, i, n))
    decreases n - i
  {
    hide GetFile, Free, Ref, Clean, FindFrom, ScanBlock, InUse, Apart, FreeHasNoRefs, SameData;
    var l := ScanDir(s, d, name, i, n);
    if i >= n {
      SameExtends(s, s);
      FindEnd(s, d, name, i, n);
    } else {
      var g := GetFile(s, d, i);
      GetFinds(s, d, name, i, n);
      if g.r >= 0 && ScanBlock(g.s, g.r, name, 0) < FILE2BLK {
        SlotBlock(g.r, ScanBlock(g.s, g.r, name, 0));
      } else if g.r >= 0 {
        ScanFinds(g.s, d, name, i + 1, n);
        ScanPast(s, g.s, l.s, d, name, i, n);
      }
    }
  }

  lemma SlotBlock(b: nat, j: nat)
    requires j < FILE2BLK
    ensures (FILE2BLK * b + j) / FILE2BLK == b
  {}

  lemma FindEnd(s: S, d: nat, name: string, i: nat, n: nat)
    requires Shape(s) && d < |s.files| && i >= n
    ensures FindFrom(s, d, name, i, n) == Missing
  {}

  /** Extending a directory changes no answer the name map gave. */
  lemma {:induction false} FindStays(s: S, t: S, d: nat, name: string, i: nat, n: nat)
    requires Extends(s, t) && d < |s.files|
    ensures FindFrom(s, d, name, i, n) != Hole ==> FindFrom(t, d, name, i, n) == FindFrom(s, d, name, i, n)
    decreases n - i
  {
    hide Ref, Free, ScanBlock;
    if i < n && i < IND && 0 < Ref(s, d, i) < |s.mem| {
      FindStep(s, t, d, name, i, n);
      FindStays(s, t, d, name, i + 1, n);
    }
  }

  lemma ScanPast(s: S, g: S, l: S, d: nat, name: string, i: nat, n: nat)
    requires Own(s) && Own(g) && Extends(s, g) && Extends(g, l) && d < |s.files| && i < n && i < IND
    requires 0 < Ref(g, d, i) < |g.mem| && ScanBlock(g, Ref(g, d, i), name, 0) == FILE2BLK
    requires SameData(s, g) && SameData(g, l)
    ensures Extends(s, l) && SameData(s, l) && FindFrom(l, d, name, i, n) == FindFrom(l, d, name, i + 1, n)
    ensures FindFrom(s, d, name, i, n) == Hole || FindFrom(s, d, name, i, n) == FindFrom(g, d, name, i + 1, n)
  {
    hide Free, ScanBlock, Ref, SameData;
    ExtendsTwice(s, g, l);
    SameDataTwice(s, g, l);
    FindStep(g, l, d, name, i, n);
    FindStays(s, g, d, name, i, n);
    FindStep(g, g, d, name, i, n);
  }

  lemma FindAt(s: S, d: nat, name: string, i: nat, n: nat)
    requires Shape(s) && d < |s.files| && i < n
    ensures i >= IND || Ref(s, d, i) == 0 ==> FindFrom(s, d, name, i, n) == Hole
    ensures i < IND && 0 < Ref(s, d, i) < |s.mem| ==>
              var j := ScanBlock(s, Ref(s, d, i), name, 0);
              FindFrom(s, d, name, i, n) == if j < FILE2BLK then Slot(FILE2BLK * Ref(s, d, i) + j)
                  else FindFrom(s, d, name, i + 1, n)
  {}

  lemma GetFinds(s: S, d: nat, name: string, i: nat, n: nat)
    requires Own(s) && d < |s.files| && !Free(s, d / FILE2BLK) && n == Blocks(s, d) && i < n
    ensures var g := GetFile(s, d, i);
            && Own(g.s) && Extends(s, g.s) && SameData(s, g.s) && (Clean(s) ==> Clean(g.s)) && Blocks(g.s, d) == n
            && !Free(g.s, d / FILE2BLK)
            && (g.r < 0 ==>
                  FindFrom(s, d, name, i, n) == Hole && (g.r == -E_NO_DISK || g.r == -E_NO_MEM || g.r == -E_INVAL))
            && (g.r >= 0 ==>
                  && i < IND && Ref(g.s, d, i) == g.r && 3 <= g.r && !Free(g.s, g.r)
                  && var j := ScanBlock(g.s, g.r, name, 0);
                  && j < FILE2BLK ==>
                       && FindFrom(g.s, d, name, i, n) == Slot(FILE2BLK * g.r + j)
                       && (FindFrom(s, d, name, i, n) == Hole
                             || FindFrom(s, d, name, i, n) == Slot(FILE2BLK * g.r + j)))
  {
    hide GetFile, Free, Ref, Clean, ScanBlock, FindFrom, Apart, FreeHasNoRefs, Blocks, SameData;
    var g := GetFile(s, d, i);
    GetEffect(s, d, i);
    GetExtends(s, d, i);
    InUseStays(s, g.s, d);
    FindAt(s, d, name, i, n);
    if g.r >= 0 {
      FindAt(g.s, d, name, i, n);
      FindStays(s, g.s, d, name, i, n);
    }
  }

  /** dir_lookup is the name map: what it finds is what the map says once it is done, and any
      answer the map gave before stands. */
  lemma LookupFinds(s: S, d: nat, name: string)
    requires Own(s) && d < |s.files| && !Free(s, d / FILE2BLK)
    ensures var l := Lookup(s, d, name);
            && Own(l.s) && Extends(s, l.s) && SameData(s, l.s) && (Clean(s) ==> Clean(l.s))
            && (l.r >= 0 ==>
                  && Find(l.s, d, name) == Slot(l.r) && !Free(l.s, l.r / FILE2BLK) && l.r >= 3 * FILE2BLK
                  && l.s.files[l.r].dir == d)
            && (l.r == -E_NOT_FOUND ==> Find(l.s, d, name) == Missing)
            && (l.r < 0 && l.r != -E_NOT_FOUND ==>
                  Find(s, d, name) == Hole && (l.r == -E_NO_DISK || l.r == -E_NO_MEM || l.r == -E_INVAL))
            && (Find(s, d, name) != Hole ==> Find(l.s, d, name) == Find(s, d, name))
  {
    ScanFinds(s, d, name, 0, Blocks(s, d));
    var c := ScanDir(s, d, name, 0, Blocks(s, d));
    var l := Lookup(s, d, name);
    hide ScanDir, FindFrom, Free, Ref, SameData;
    if c.r >= 0 {
      SameExtends(c.s, l.s);
      SameDataTwice(s, c.s, l.s);
      ExtendsTwice(s, c.s, l.s);
      FindStays(c.s, l.s, d, name, 0, Blocks(s, d));
      FindStays(s, l.s, d, name, 0, Blocks(s, d));
    }
  }

  /* ---------- path walking against the name maps ---------- */

  /** The record a list of names leads to. */
  function Resolve(s: S, f: nat, names: seq<string>): (r: Found)
    requires Shape(s) && f < |s.files|
    decreases |names|
  {
    if names == [] then Slot(f)
    else if |names[0]| >= MAXNAMELEN || s.files[f].typ != FTYPE_DIR then Missing
    else
      var e := Find(s, f, names[0]);
      if e.Slot? then Resolve(s, e.f, names[1..]) else e
  }

  lemma {:induction false} ResolveStays(s: S, t: S, f: nat, names: seq<string>)
    requires Extends(s, t) && f < |s.files|
    ensures Resolve(s, f, names).Slot? ==> Resolve(t, f, names) == Resolve(s, f, names)
    decreases |names|
  {
    hide Ref, Free, FindFrom;
    if names != [] {
      FindStays(s, t, f, names[0], 0, Blocks(s, f));
      if Find(s, f, names[0]).Slot? { ResolveStays(s, t, Find(s, f, names[0]).f, names[1..]); }
    }
  }

  function Init(names: seq<string>): seq<string>
    requires names != []
  {
    names[..|names| - 1]
  }

  function Last(names: seq<string>): string
    requires names != []
  {
    names[|names| - 1]
  }

  /** All names but the last lead from f to directory d, where the last may be looked up. */
  predicate LeadsTo(s: S, f: nat, names: seq<string>, d: nat)
    requires Shape(s) && f < |s.files|
  {
    names != [] && d < |s.files| && Resolve(s, f, Init(names)) == Slot(d) && s.files[d].typ == FTYPE_DIR
        && |Last(names)| < MAXNAMELEN
  }

  lemma LeadsStays(s: S, t: S, f: nat, names: seq<string>, d: nat)
    requires Extends(s, t) && f < |s.files| && LeadsTo(s, f, names, d)
    ensures LeadsTo(t, f, names, d)
  {
    ResolveStays(s, t, f, Init(names));
    hide Ref, Free, Resolve;
  }

  lemma LeadsStep(s: S, f: nat, names: seq<string>, d: nat)
    requires Shape(s) && f < |s.files| && names != []
    ensures |names| == 1 ==>
            (LeadsTo(s, f, names, d) <==> d == f && s.files[f].typ == FTYPE_DIR && |names[0]| < MAXNAMELEN)
    ensures |names| > 1 && |names[0]| < MAXNAMELEN && s.files[f].typ == FTYPE_DIR && Find(s, f, names[0]).Slot? ==>
              (LeadsTo(s, f, names, d) <==> LeadsTo(s, Find(s, f, names[0]).f, names[1..], d))
    ensures |names| > 1 && !(|names[0]| < MAXNAMELEN && s.files[f].typ == FTYPE_DIR && Find(s, f, names[0]).Slot?) ==>
            !LeadsTo(s, f, names, d)
  {
    hide Find;
    if |names| > 1 {
      assert Init(names)[0] == names[0] && Init(names)[1..] == Init(names[1..]) && Last(names) == Last(names[1..]);
    } else {
      assert Init(names) == [];
    }
  }

  ghost predicate WalkGood(s: S, w: W, file: nat, names: seq<string>)
    requires Shape(s) && file < |s.files|
  {
    && Own(w.s) && Extends(s, w.s) && SameData(s, w.s) && (Clean(s) ==> Clean(w.s)) && -E_BAD_PATH <= w.r <= 0
    && (w.r == 0 ==>
          && 0 < w.file < |s.files| && !Free(w.s, w.file / FILE2BLK) && Resolve(w.s, file, names) == Slot(w.file)
          && (names != [] ==>
                && w.file >= 3 * FILE2BLK && LeadsTo(w.s, file, names, w.dir)
                && Find(w.s, w.dir, Last(names)) == Slot(w.file)))
    && (w.r < 0 && w.dir != 0 ==>
          && w.r == -E_NOT_FOUND && LeadsTo(w.s, file, names, w.dir) && w.last == Last(names)
          && Find(w.s, w.dir, w.last) == Missing && !Free(w.s, w.dir / FILE2BLK))
  }

  ghost predicate WalkKnown(s: S, w: W, file: nat, names: seq<string>)
    requires Shape(s) && file < |s.files|
  {
    && (Resolve(s, file, names).Slot? ==> w.r == 0 && w.file == Resolve(s, file, names).f)
    && (forall d :: LeadsTo(s, file, names, d) && Find(s, d, Last(names)) == Missing ==>
          w.r == -E_NOT_FOUND && w.dir == d)
  }

  lemma WalkGoodStep(s: S, l: S, e: nat, w: W, file: nat, names: seq<string>)
    requires Own(s) && Extends(s, l) && SameData(s, l) && file < |s.files| && e < |s.files| && names != []
             && !Free(l, file / FILE2BLK)
    requires Find(l, file, names[0]) == Slot(e) && |names[0]| < MAXNAMELEN && l.files[file].typ == FTYPE_DIR
             && (Clean(s) ==> Clean(l))
    requires e >= 3 * FILE2BLK && WalkGood(l, w, e, names[1..]) && (|names| == 1 ==> w == W(l, 0, file, e, ""))
    ensures WalkGood(s, w, file, names)
  {
    hide Ref, Free, FindFrom, InUse, Apart, FreeHasNoRefs, Clean, SameData;
    ExtendsTwice(s, l, w.s);
    SameDataTwice(s, l, w.s);
    FindStays(l, w.s, file, names[0], 0, Blocks(l, file));
    hide Find;
    if w.dir < |s.files| { LeadsStep(w.s, file, names, w.dir); }
    assert |names| > 1 ==> Last(names) == Last(names[1..]);
  }

  lemma WalkKnownStep(s: S, l: S, e: nat, w: W, file: nat, names: seq<string>)
    requires Shape(s) && Extends(s, l) && file < |s.files| && e < |s.files| && names != []
    requires Find(s, file, names[0]) != Hole ==> Find(s, file, names[0]) == Slot(e)
    requires |names[0]| < MAXNAMELEN && l.files[file].typ == FTYPE_DIR && WalkKnown(l, w, e, names[1..])
    ensures WalkKnown(s, w, file, names)
  {
    hide Ref, Free, Find;
    ResolveStays(s, l, e, names[1..]);
    forall d | LeadsTo(s, file, names, d) && Find(s, d, Last(names)) == Missing
      ensures w.r == -E_NOT_FOUND && w.dir == d
    {
      LeadsStep(s, file, names, d);
      assert |names| > 1;
      assert Last(names) == Last(names[1..]);
      LeadsStays(s, l, e, names[1..], d);
      FindMissing(s, l, d, Last(names));
    }
  }

  lemma InUseStays(s: S, t: S, f: nat)
    requires Extends(s, t) && !Free(s, f / FILE2BLK)
    ensures !Free(t, f / FILE2BLK)
  {
    hide Ref, Free;
  }

  /** The walk ends at a name that is not found. */
  lemma WalkEnds(s: S, l: S, r: int, w: W, file: nat, names: seq<string>)
    requires Own(s) && Own(l) && Extends(s, l) && SameData(s, l) && 0 < file < |s.files| && !Free(s, file / FILE2BLK)
             && names != [] && (Clean(s) ==> Clean(l))
    requires |names[0]| < MAXNAMELEN && s.files[file].typ == FTYPE_DIR && -E_BAD_PATH <= r < 0
    requires r == -E_NOT_FOUND ==> Find(l, file, names[0]) == Missing
    requires r != -E_NOT_FOUND ==> Find(s, file, names[0]) == Hole
    requires Find(s, file, names[0]) != Hole ==> Find(l, file, names[0]) == Find(s, file, names[0])
    requires w == if r == -E_NOT_FOUND && |names| == 1 then W(l, r, file, 0, names[0]) else W(l, r, 0, 0, "")
    ensures WalkGood(s, w, file, names) && WalkKnown(s, w, file, names)
  {
    InUseStays(s, l, file);
    hide Ref, Free, Find;
    LeadsStep(l, file, names, file);
    forall d | LeadsTo(s, file, names, d) && Find(s, d, Last(names)) == Missing
      ensures w.r == -E_NOT_FOUND && w.dir == d
    {
      LeadsStep(s, file, names, d);
    }
  }

  /** The walk stops before looking anything up. */
  lemma WalkStops(s: S, dir: nat, file: nat, names: seq<string>)
    requires Own(s) && Extends(s, s) && SameData(s, s) && 0 < file < |s.files| && !Free(s, file / FILE2BLK)
    requires names == [] || |names[0]| >= MAXNAMELEN || s.files[file].typ != FTYPE_DIR
    ensures var w := WalkFrom(s, dir, file, names); WalkGood(s, w, file, names) && WalkKnown(s, w, file, names)
  {
    hide Ref, Free, Find;
    forall d: nat ensures !LeadsTo(s, file, names, d) {
      if names != [] { LeadsStep(s, file, names, d); }
    }
  }

  lemma FindMissing(s: S, t: S, d: nat, name: string)
    requires Extends(s, t) && d < |s.files| && Find(s, d, name) == Missing
    ensures Find(t, d, name) == Missing
  {
    hide Ref, Free, FindFrom;
    FindStays(s, t, d, name, 0, Blocks(s, d));
  }

  /** walk_path as a fold of the name maps. On success it found what the names lead to, and the
      directory of the last; *pdir is set on failure exactly when only the last name is missing.
      What the name maps already said before the walk is what it finds. */
  lemma {:induction false} WalkFinds(s: S, dir: nat, file: nat, names: seq<string>)
    requires Own(s) && 0 < file < |s.files| && !Free(s, file / FILE2BLK)
    ensures var w := WalkFrom(s, dir, file, names); WalkGood(s, w, file, names) && WalkKnown(s, w, file, names)
    decreases |names|
  {
    hide Lookup, Find, Ref, Free, Clean, InUse, Apart, FreeHasNoRefs, WalkKnown, SameData;
    var w := WalkFrom(s, dir, file, names);
    if names != [] && |names[0]| < MAXNAMELEN && s.files[file].typ == FTYPE_DIR {
      var l := Lookup(s, file, names[0]);
      LookupFinds(s, file, names[0]);
      if l.r >= 0 {
        WalkFinds(l.s, file, l.r, names[1..]);
        InUseStays(s, l.s, file);
        WalkGoodStep(s, l.s, l.r, w, file, names);
        WalkKnownStep(s, l.s, l.r, w, file, names);
      } else {
        WalkEnds(s, l.s, l.r, w, file, names);
      }
    } else {
      SameExtends(s, s);
      WalkStops(s, dir, file, names);
    }
  }

  /* ---------- creating ---------- */

  /** No record present in d has this name. */
  ghost predicate NoEntry(s: S, d: nat, name: string)
    requires Shape(s) && d < |s.files|
  {
    forall i, j | 0 <= i && 0 <= j && Present(s, d, i, j) :: s.files[Entry(s, d, i, j)].name != name
  }

  lemma {:induction false} MissingNoEntry(s: S, d: nat, name: string, i: nat, n: nat)
    requires Shape(s) && d < |s.files| && FindFrom(s, d, name, i, n) == Missing && n == Blocks(s, d)
    ensures forall k, j | i <= k && 0 <= j && Present(s, d, k, j) :: s.files[Entry(s, d, k, j)].name != name
    ensures n > i ==> n <= IND
    decreases n - i
  {
    hide Ref;
    if i < n {
      MissingNoEntry(s, d, name, i + 1, n);
      forall j | 0 <= j && Present(s, d, i, j) ensures s.files[Entry(s, d, i, j)].name != name {
        assert NameAt(s, Ref(s, d, i), j) != name;
      }
    }
  }

  lemma NoEntryStays(s: S, t: S, d: nat, name: string)
    requires FsInv(s) && Extends(s, t) && d < |s.files| && NoEntry(s, d, name) && name != ""
    ensures NoEntry(t, d, name)
  {
    hide Ref, Free;
    forall i, j | 0 <= i && 0 <= j && Present(t, d, i, j) && t.files[Entry(t, d, i, j)].name == name ensures false {
      NamedStays(s, t, d, i, j);
    }
  }

  /** What the names of d say is kept where it says something: found names stay, and so do absent ones. */
  ghost predicate NamesKept(s: S, t: S) {
    && Shape(s) && Shape(t) && |s.mem| == |t.mem|
    && (forall g | 0 <= g < |s.files| :: t.files[g].typ == s.files[g].typ)
    && (forall d, c | 0 <= d < |s.files| && c != "" :: Find(s, d, c).Slot? ==> Find(t, d, c) == Find(s, d, c))
    && (forall d, c | 0 <= d < |s.files| && c != "" :: NoEntry(s, d, c) ==> NoEntry(t, d, c))
    && (forall x :: Free(t, x) ==> Free(s, x))
  }

  lemma ExtendsNamesKept(s: S, t: S)
    requires FsInv(s) && Extends(s, t)
    ensures NamesKept(s, t)
  {
    hide Ref, Free, FindFrom, NoEntry;
    forall d, c | 0 <= d < |s.files| && c != "" && Find(s, d, c).Slot? ensures Find(t, d, c) == Find(s, d, c) {
      FindStays(s, t, d, c, 0, Blocks(s, d));
    }
    forall d, c | 0 <= d < |s.files| && c != "" && NoEntry(s, d, c) ensures NoEntry(t, d, c) {
      NoEntryStays(s, t, d, c);
    }
  }

  /** One more block, still missing, in directory d. */
  lemma SizeGrows(s: S, d: nat)
    requires FsInv(s) && d < |s.files| && s.files[d].typ == FTYPE_DIR && Blocks(s, d) <= IND
    ensures var t := SetSizeField(s, d, (s.files[d].size + BY2BLK) % WORD);
            && FsInv(t) && SameRefs(s, t) && (Clean(s) ==> Clean(t)) && Blocks(t, d) == Blocks(s, d) + 1
            && (forall x :: Free(t, x) == Free(s, x))
  {
    var size := (s.files[d].size + BY2BLK) % WORD;
    var t := SetSizeField(s, d, size);
    SizeEffect(s, d, size);
    NextSize(s.files[d].size);
    hide Ref, Free, Blocks;
    assert Blocks(t, d) == Blocks(s, d) + 1 by { BlocksIs(s, d); BlocksIs(t, d); }
    forall g | 0 <= g < |s.files| && g != d ensures Blocks(t, g) == Blocks(s, g) { BlocksIs(s, g); BlocksIs(t, g); }
    GrownNames(s, t, d);
  }

  lemma NextSize(x: Word)
    requires x % BY2BLK == 0 && x / BY2BLK <= IND
    ensures (x + BY2BLK) % WORD == x + BY2BLK && (x + BY2BLK) / BY2BLK == x / BY2BLK + 1 && (x + BY2BLK) % BY2BLK == 0
  {}

  lemma BlocksIs(s: S, d: nat)
    requires d < |s.files|
    ensures Blocks(s, d) == s.files[d].size / BY2BLK
  {}

  lemma GrownNames(s: S, t: S, d: nat)
    requires FsInv(s) && Own(t) && |s.mem| == |t.mem| && !t.fix && d < |s.files| && SameRefs(s, t)
    requires forall g | 0 <= g < |s.files| ::
               && t.files[g].name == s.files[g].name && t.files[g].typ == s.files[g].typ
               && t.files[g].size % BY2BLK == s.files[g].size % BY2BLK
    requires forall g | 0 <= g < |s.files| :: Blocks(t, g) == Blocks(s, g) + (if g == d then 1 else 0)
    requires s.files[d].typ == FTYPE_DIR && forall x :: Free(t, x) == Free(s, x)
    ensures FsInv(t)
  {
    hide Ref, Free, Blocks;
    forall e, i, j | 0 <= e < |s.files| && 0 <= i && 0 <= j && Present(t, e, i, j)
      ensures Present(s, e, i, j) && Entry(s, e, i, j) == Entry(t, e, i, j)
    {
    }
  }

  lemma {:induction false} FindGrown(s: S, t: S, d: nat, name: string, i: nat, n: nat, m: nat)
    requires Shape(s) && Shape(t) && |s.mem| == |t.mem| && SameRefs(s, t) && d < |s.files| && n <= m
    requires forall g | 0 <= g < |s.files| :: t.files[g].name == s.files[g].name
    requires forall k | 0 <= k < IND :: Ref(s, d, k) < |s.mem|
    ensures FindFrom(s, d, name, i, n).Slot? ==> FindFrom(t, d, name, i, m) == FindFrom(s, d, name, i, n)
    decreases n - i
  {
    hide Ref, FindFrom, ScanBlock;
    if i < n { FindAt(s, d, name, i, n); FindAt(t, d, name, i, m); }
    if i >= n {
      FindEnd(s, d, name, i, n);
    } else if i < IND && 0 < Ref(s, d, i) < |s.mem| {
      ScanBlockNames(s, t, Ref(s, d, i), name, 0);
      FindGrown(s, t, d, name, i + 1, n, m);
    }
  }

  lemma {:induction false} ScanBlockNames(s: S, t: S, b: nat, name: string, j: nat)
    requires Shape(s) && Shape(t) && |s.mem| == |t.mem| && b < |s.mem| && j <= FILE2BLK
    requires forall k | j <= k < FILE2BLK :: NameAt(s, b, k) == name <==> NameAt(t, b, k) == name
    ensures ScanBlock(t, b, name, j) == ScanBlock(s, b, name, j)
    decreases FILE2BLK - j
  {
    hide NameAt;
    if j < FILE2BLK { ScanBlockNames(s, t, b, name, j + 1); }
  }

  lemma SizeNamesKept(s: S, d: nat)
    requires FsInv(s) && d < |s.files| && s.files[d].typ == FTYPE_DIR && Blocks(s, d) <= IND
    ensures NamesKept(s, SetSizeField(s, d, (s.files[d].size + BY2BLK) % WORD))
  {
    var t := SetSizeField(s, d, (s.files[d].size + BY2BLK) % WORD);
    SizeGrows(s, d);
    hide Ref, Free, FindFrom;
    forall e, c | 0 <= e < |s.files| && c != "" && Find(s, e, c).Slot? ensures Find(t, e, c) == Find(s, e, c) {
      forall k | 0 <= k < IND ensures Ref(s, e, k) < |s.mem| {}
      FindGrown(s, t, e, c, 0, Blocks(s, e), Blocks(t, e));
    }
    forall e, c | 0 <= e < |s.files| && c != "" && NoEntry(s, e, c) ensures NoEntry(t, e, c) {
      forall i, j | 0 <= i && 0 <= j && Present(t, e, i, j) ensures t.files[Entry(t, e, i, j)].name != c {
        assert Present(s, e, i, j) && Entry(s, e, i, j) == Entry(t, e, i, j);
      }
    }
  }

  lemma NamesKeptTwice(s: S, t: S, u: S)
    requires NamesKept(s, t) && NamesKept(t, u)
    ensures NamesKept(s, u)
  {
    hide Ref, Free, Find, NoEntry;
  }

  /** The block that was just allocated for a directory is its first with an empty record. */
  lemma {:induction false} FindInLast(s: S, t: S, d: nat, i: nat, n: nat)
    requires FsInv(s) && FsInv(t) && Extends(s, t) && d < |s.files| && i <= n < IND
    requires FindFrom(s, d, "", i, n) == Missing && 0 < Ref(t, d, n) < |t.mem| && NameAt(t, Ref(t, d, n), 0) == ""
    ensures FindFrom(t, d, "", i, n + 1) == Slot(FILE2BLK * Ref(t, d, n))
    decreases n - i
  {
    hide Ref, Free, FindFrom, ScanBlock;
    FindAt(t, d, "", i, n + 1);
    if i < n {
      FindAt(s, d, "", i, n);
      InUseBound(s, d, i);
      FindStep(s, t, d, "", i, n);
      ScanBlockSame(s, t, Ref(s, d, i), "", 0);
      FindInLast(s, t, d, i + 1, n);
    } else {
      assert ScanBlock(t, Ref(t, d, n), "", 0) == 0;
    }
  }

  lemma InUseBound(s: S, d: nat, i: nat)
    requires Own(s) && d < |s.files| && i <= IND
    ensures Ref(s, d, i) < |s.mem|
  {
    hide Ref, Free;
  }

  /** dir_alloc_file: the first empty record of the directory, which may have grown by a block for it. */
  lemma DirAllocEffect(s: S, d: nat)
    requires FsInv(s) && d < |s.files| && s.files[d].typ == FTYPE_DIR && !Free(s, d / FILE2BLK)
    ensures var a := DirAlloc(s, d);
            && FsInv(a.s) && NamesKept(s, a.s) && (Clean(s) ==> Clean(a.s))
            && (a.r >= 0 ==> Allocated(a.s, d, a.r))
  {
    hide ScanDir, Ref, Free, FindFrom, Clean, Names, InUse, Apart, FreeHasNoRefs, NamesKept, Find, GetFile;
    var n := Blocks(s, d);
    var c := ScanDir(s, d, "", 0, n);
    ScanFinds(s, d, "", 0, n);
    ExtendsKeeps(s, c.s);
    ExtendsNamesKept(s, c.s);
    InUseStays(s, c.s, d);
    FindIs(c.s, d, "");
    if c.r == NONE {
      GrowDir(c.s, d, n);
      NamesKeptTwice(s, c.s, DirAlloc(s, d).s);
    }
  }

  lemma FindIs(s: S, d: nat, name: string)
    requires Shape(s) && d < |s.files|
    ensures Find(s, d, name) == FindFrom(s, d, name, 0, Blocks(s, d))
  {}

  /** A block taken from the free ones holds empty records. */
  lemma FreshName(u: S, g: S, d: nat, n: nat)
    requires FsInv(u) && Own(g) && Extends(u, g) && d < |u.files| && n < IND && Ref(u, d, n) == 0 && Ref(g, d, n) != 0
    ensures 3 <= Ref(g, d, n) < |g.mem| && !Free(g, Ref(g, d, n)) && NameAt(g, Ref(g, d, n), 0) == ""
  {
    hide Ref, Free;
    assert FILE2BLK * Ref(g, d, n) / FILE2BLK == Ref(g, d, n);
  }

  lemma {:induction false} FindMissingGrown(s: S, t: S, d: nat, i: nat, n: nat)
    requires FsInv(s) && Shape(t) && |s.mem| == |t.mem| && SameRefs(s, t) && d < |s.files|
    requires forall g | 0 <= g < |s.files| :: t.files[g].name == s.files[g].name
    requires FindFrom(s, d, "", i, n) == Missing
    ensures FindFrom(t, d, "", i, n) == Missing
    decreases n - i
  {
    hide Ref, FindFrom, ScanBlock, Free;
    if i >= n {
      FindEnd(t, d, "", i, n);
    } else {
      FindAt(s, d, "", i, n);
      FindAt(t, d, "", i, n);
      InUseBound(s, d, i);
      ScanBlockNames(s, t, Ref(s, d, i), "", 0);
      FindMissingGrown(s, t, d, i + 1, n);
    }
  }

  /** The directory is full: it grows by a block, whose first record is the new one. */
  lemma GrowDir(s: S, d: nat, n: nat)
    requires FsInv(s) && d < |s.files| && !Free(s, d / FILE2BLK) && s.files[d].typ == FTYPE_DIR
    requires n == Blocks(s, d) && FindFrom(s, d, "", 0, n) == Missing
    ensures var g := GetFile(SetSizeField(s, d, (s.files[d].size + BY2BLK) % WORD), d, n);
            && FsInv(g.s) && NamesKept(s, g.s) && (Clean(s) ==> Clean(g.s))
            && (g.r >= 0 ==> Allocated(g.s, d, FILE2BLK * g.r))
  {
    hide GetFile, Ref, Free, FindFrom, Clean, Names, InUse, Apart, FreeHasNoRefs, NamesKept, Find, Blocks;
    MissingNoEntry(s, d, "", 0, n);
    SizeGrows(s, d);
    SizeNamesKept(s, d);
    var u := SetSizeField(s, d, (s.files[d].size + BY2BLK) % WORD);
    var g := GetFile(u, d, n);
    GetEffect(u, d, n);
    GetExtends(u, d, n);
    ExtendsKeeps(u, g.s);
    ExtendsNamesKept(u, g.s);
    NamesKeptTwice(s, u, g.s);
    if g.r >= 0 { GrownDir(s, u, g.s, d, n); }
  }

  /** Slot f is the first empty record of directory d. */
  ghost predicate Allocated(s: S, d: nat, f: nat)
    requires Shape(s) && d < |s.files|
  {
    f < |s.files| && Find(s, d, "") == Slot(f) && !Free(s, f / FILE2BLK) && s.files[f].name == ""
  }

  lemma GrownDir(s: S, u: S, g: S, d: nat, n: nat)
    requires FsInv(s) && FsInv(u) && FsInv(g) && |s.mem| == |u.mem| && SameRefs(s, u) && Extends(u, g) && d < |s.files|
    requires s.files[d].typ == FTYPE_DIR && n == Blocks(s, d) && Blocks(g, d) == n + 1 && n < IND && Ref(g, d, n) != 0
    requires FindFrom(s, d, "", 0, n) == Missing
    requires forall g | 0 <= g < |s.files| :: u.files[g].name == s.files[g].name
    ensures Allocated(g, d, FILE2BLK * Ref(g, d, n))
  {
    hide Ref, Free, FindFrom, Blocks, InUse, Apart, FreeHasNoRefs;
    assert Ref(s, d, n) == 0;
    FreshName(u, g, d, n);
    FindMissingGrown(s, u, d, 0, n);
    FindInLast(u, g, d, 0, n);
    SlotBlock(Ref(g, d, n), 0);
  }

  /** Where the name map found its answer: every block up to there is present, and none before matches. */
  lemma {:induction false} FoundAt(s: S, d: nat, name: string, i: nat, n: nat) returns (k: nat, j: nat)
    requires Shape(s) && d < |s.files| && FindFrom(s, d, name, i, n).Slot?
    ensures i <= k < n && k < IND && j < FILE2BLK && 0 < Ref(s, d, k) < |s.mem|
    ensures Entry(s, d, k, j) == FindFrom(s, d, name, i, n).f && j == ScanBlock(s, Ref(s, d, k), name, 0)
    ensures forall l | i <= l < k :: 0 < Ref(s, d, l) < |s.mem| && ScanBlock(s, Ref(s, d, l), name, 0) == FILE2BLK
    decreases n - i
  {
    hide Ref, ScanBlock;
    j := ScanBlock(s, Ref(s, d, i), name, 0);
    if j < FILE2BLK { k := i; } else { k, j := FoundAt(s, d, name, i + 1, n); }
  }

  lemma {:induction false} FoundFrom(s: S, d: nat, name: string, i: nat, n: nat, k: nat, j: nat)
    requires Shape(s) && d < |s.files| && i <= k < n && k < IND && j < FILE2BLK
    requires forall l | i <= l < k :: 0 < Ref(s, d, l) < |s.mem| && ScanBlock(s, Ref(s, d, l), name, 0) == FILE2BLK
    requires 0 < Ref(s, d, k) < |s.mem| && ScanBlock(s, Ref(s, d, k), name, 0) == j
    ensures FindFrom(s, d, name, i, n) == Slot(Entry(s, d, k, j))
    decreases k - i
  {
    hide Ref, ScanBlock, FindFrom;
    FindAt(s, d, name, i, n);
    if i < k { FoundFrom(s, d, name, i + 1, n, k, j); }
  }

  /** Directories whose records agree on a name answer alike. */
  lemma {:induction false} FindAgrees(s: S, t: S, d: nat, c: string, i: nat, n: nat)
    requires Shape(s) && Shape(t) && |s.mem| == |t.mem| && d < |s.files|
             && forall m | 0 <= m < IND :: Ref(t, d, m) == Ref(s, d, m)
    requires forall k, j | i <= k < n && k < IND && 0 < Ref(s, d, k) < |s.mem| && 0 <= j < FILE2BLK ::
               NameAt(s, Ref(s, d, k), j) == c <==> NameAt(t, Ref(s, d, k), j) == c
    ensures FindFrom(t, d, c, i, n) == FindFrom(s, d, c, i, n)
    decreases n - i
  {
    hide Ref, ScanBlock, NameAt;
    if i < n && i < IND && 0 < Ref(s, d, i) < |s.mem| {
      ScanBlockNames(s, t, Ref(s, d, i), c, 0);
      FindAgrees(s, t, d, c, i + 1, n);
    }
  }

  lemma SetNameSame(s: S, e: nat, name: string)
    requires Own(s) && e < |s.files|
    ensures var t := SetName(s, e, name);
            && Own(t) && SameRefs(s, t) && (Clean(s) ==> Clean(t)) && (forall x :: Free(t, x) == Free(s, x))
  {
    var t := SetName(s, e, name);
    SameBitmap(s, t);
    assert SameRefs(s, t) by { hide Free; }
    hide Ref, Free;
    OwnShrinks(s, t);
    if Clean(s) { CleanKept(s, t, -1); }
  }

  /** strcpy of a new name into an empty record: it is found there, and nothing else is lost. */
  lemma NameSlot(s: S, d: nat, e: nat, name: string)
    requires FsInv(s) && d < |s.files| && s.files[d].typ == FTYPE_DIR && Allocated(s, d, e) && NoEntry(s, d, name)
             && name != ""
    ensures var t := SetName(s, e, name);
            && FsInv(t) && (Clean(s) ==> Clean(t)) && Find(t, d, name) == Slot(e)
            && (forall x :: Free(t, x) == Free(s, x))
            && (forall g, c | 0 <= g < |s.files| && c != "" :: Find(s, g, c).Slot? ==> Find(t, g, c) == Find(s, g, c))
  {
    var t := SetName(s, e, name);
    SetNameSame(s, e, name);
    hide Free, Ref, FindFrom, ScanBlock, Clean;
    var k, j := FoundAt(s, d, "", 0, Blocks(s, d));
    NameFound(s, d, e, name, k, j);
    forall g, c | 0 <= g < |s.files| && c != "" && Find(s, g, c).Slot? ensures Find(t, g, c) == Find(s, g, c) {
      NameElsewhere(s, d, e, name, k, j, g, c);
    }
    NameUnique(s, d, e, name, k, j);
  }

  lemma NameFound(s: S, d: nat, e: nat, name: string, k: nat, j: nat)
    requires Shape(s) && d < |s.files| && e < |s.files| && NoEntry(s, d, name) && name != ""
    requires k < Blocks(s, d) && k < IND && j < FILE2BLK && 0 < Ref(s, d, k) < |s.mem| && Entry(s, d, k, j) == e
             && j == ScanBlock(s, Ref(s, d, k), "", 0)
    requires forall l | 0 <= l < k :: 0 < Ref(s, d, l) < |s.mem| && ScanBlock(s, Ref(s, d, l), "", 0) == FILE2BLK
    requires SameRefs(s, SetName(s, e, name))
    ensures Find(SetName(s, e, name), d, name) == Slot(e)
  {
    hide Ref;
    var t := SetName(s, e, name);
    forall l | 0 <= l < k ensures 0 < Ref(t, d, l) < |t.mem| && ScanBlock(t, Ref(t, d, l), name, 0) == FILE2BLK {
      NotInBlock(s, d, name, l, e);
    }
    OnlyInBlock(s, d, name, k, j, e);
    hide ScanBlock, NoEntry;
    FoundFrom(t, d, name, 0, Blocks(t, d), k, j);
  }

  lemma OnlyInBlock(s: S, d: nat, name: string, k: nat, j: nat, e: nat)
    requires Shape(s) && d < |s.files| && e < |s.files| && NoEntry(s, d, name)
    requires k < Blocks(s, d) && k < IND && j < FILE2BLK && 0 < Ref(s, d, k) < |s.mem| && Entry(s, d, k, j) == e
    ensures ScanBlock(SetName(s, e, name), Ref(s, d, k), name, 0) == j
  {
    hide Ref;
    var t, b := SetName(s, e, name), Ref(s, d, k);
    forall m | 0 <= m < FILE2BLK ensures NameAt(t, b, m) == name <==> m == j {
      assert Present(s, d, k, m) && Entry(s, d, k, m) == FILE2BLK * b + m;
    }
    var r := ScanBlock(t, b, name, 0);
    assert NameAt(t, b, j) == name;
  }

  /** A block with no empty record does not hold the new name either. */
  lemma NotInBlock(s: S, d: nat, name: string, l: nat, e: nat)
    requires Shape(s) && d < |s.files| && e < |s.files| && NoEntry(s, d, name) && s.files[e].name == ""
    requires l < Blocks(s, d) && l < IND && 0 < Ref(s, d, l) < |s.mem| && ScanBlock(s, Ref(s, d, l), "", 0) == FILE2BLK
    ensures ScanBlock(SetName(s, e, name), Ref(s, d, l), name, 0) == FILE2BLK
  {
    hide Ref;
    var t, b := SetName(s, e, name), Ref(s, d, l);
    forall m | 0 <= m < FILE2BLK ensures NameAt(t, b, m) != name {
      assert NameAt(s, b, m) != "";
      assert Present(s, d, l, m) && Entry(s, d, l, m) == FILE2BLK * b + m;
    }
  }

  lemma NameElsewhere(s: S, d: nat, e: nat, name: string, k: nat, j: nat, g: nat, c: string)
    requires FsInv(s) && d < |s.files| && e < |s.files| && s.files[e].name == "" && NoEntry(s, d, name)
    requires Present(s, d, k, j) && Entry(s, d, k, j) == e && SameRefs(s, SetName(s, e, name))
    requires g < |s.files| && c != "" && Find(s, g, c).Slot?
    ensures Find(SetName(s, e, name), g, c) == Find(s, g, c)
  {
    hide Ref, Free, ScanBlock, FindFrom;
    var t := SetName(s, e, name);
    if g == d && c == name {
      FoundIsEntry(s, d, name);
      assert false;
    } else {
      forall m, l | 0 <= m < Blocks(s, g) && m < IND && 0 < Ref(s, g, m) < |s.mem| && 0 <= l < FILE2BLK
        ensures NameAt(s, Ref(s, g, m), l) == c <==> NameAt(t, Ref(s, g, m), l) == c
      {
        if FILE2BLK * Ref(s, g, m) + l == e {
          SameBlock(Ref(s, g, m), l, Ref(s, d, k), j);
          assert g == d;
        }
      }
      FindAgrees(s, t, g, c, 0, Blocks(s, g));
    }
  }

  lemma SameBlock(b: nat, j: nat, c: nat, k: nat)
    requires j < FILE2BLK && k < FILE2BLK && FILE2BLK * b + j == FILE2BLK * c + k
    ensures b == c && j == k
  {}

  lemma NameUnique(s: S, d: nat, e: nat, name: string, k: nat, j: nat)
    requires FsInv(s) && d < |s.files| && e < |s.files| && !Free(s, e / FILE2BLK) && s.files[e].name == ""
             && NoEntry(s, d, name)
    requires Present(s, d, k, j) && Entry(s, d, k, j) == e
    requires var t := SetName(s, e, name); Own(t) && SameRefs(s, t) && forall x :: Free(t, x) == Free(s, x)
    ensures FsInv(SetName(s, e, name))
  {
    hide Ref, Free;
    var t := SetName(s, e, name);
    forall g, m, l, p, q | 0 <= g < |t.files| && 0 <= m && 0 <= l && 0 <= p && 0 <= q && Present(t, g, m, l)
        && Present(t, g, p, q)
        && t.files[g].typ == FTYPE_DIR && t.files[Entry(t, g, m, l)].name == t.files[Entry(t, g, p, q)].name != ""
      ensures m == p && l == q
    {
      assert Present(s, g, m, l) && Present(s, g, p, q) && Entry(s, g, m, l) == Entry(t, g, m, l)
             && Entry(s, g, p, q) == Entry(t, g, p, q);
      NewNameAlone(s, d, e, name, k, j, g, m, l, p, q);
    }
  }

  lemma NewNameAlone(s: S, d: nat, e: nat, name: string, k: nat, j: nat, g: nat, m: nat, l: nat, p: nat, q: nat)
    requires FsInv(s) && d < |s.files| && e < |s.files| && NoEntry(s, d, name)
    requires Present(s, d, k, j) && Entry(s, d, k, j) == e
    requires g < |s.files| && Present(s, g, m, l) && Present(s, g, p, q) && s.files[g].typ == FTYPE_DIR
    requires var x, y := Entry(s, g, m, l), Entry(s, g, p, q);
             x < |s.files| && y < |s.files| && (if x == e then name else s.files[x].name)
                 == (if y == e then name else s.files[y].name) != ""
    ensures m == p && l == q
  {
    hide Ref, Free;
    var x, y := Entry(s, g, m, l), Entry(s, g, p, q);
    if x == e { SameBlock(Ref(s, g, m), l, Ref(s, d, k), j); }
    if y == e { SameBlock(Ref(s, g, p), q, Ref(s, d, k), j); }
  }

  lemma {:induction false} ComponentsAreNames(p: string)
    ensures forall c :: c in Components(p) ==> c != ""
    decreases |p|
  {
    var q := SkipSlash(p);
    if q != "" { ComponentsAreNames(q[|TakeName(q)|..]); }
  }

  lemma WalkEffect2(s: S, path: string)
    requires FsInv(s)
    ensures var w := Walk(s, path);
            FsInv(w.s) && Extends(s, w.s) && (Clean(s) ==> Clean(w.s)) && WalkGood(s, w, ROOT, Components(path))
                && WalkKnown(s, w, ROOT, Components(path))
  {
    assert !Free(s, ROOT / FILE2BLK);
    WalkFinds(s, 0, ROOT, Components(path));
    hide Ref, Free, WalkFrom, Components, WalkKnown, Resolve, LeadsTo;
    ExtendsKeeps(s, Walk(s, path).s);
  }

  /** file_create succeeds only in a directory that lacks the name, and then the path leads to the new slot. */
  lemma CreateEffect(s: S, path: string)
    requires FsInv(s)
    ensures var c := Create(s, path);
            && FsInv(c.s) && (Clean(s) ==> Clean(c.s)) && (forall x :: Free(c.s, x) ==> Free(s, x))
            && (c.r >= 0 ==> c.r < |s.files| && Resolve(c.s, ROOT, Components(path)) == Slot(c.r))
            && (c.r == -E_FILE_EXISTS <==> Walk(s, path).r == 0)
  {
    hide Ref, Free, Walk, DirAlloc, Components, Resolve, Clean, InUse, Apart, FreeHasNoRefs, Names, Find, WalkKnown,
         LeadsTo;
    ComponentsAreNames(path);
    var names, w := Components(path), Walk(s, path);
    WalkEffect2(s, path);
    if w.r == -E_NOT_FOUND && w.dir != 0 {
      var a := DirAlloc(w.s, w.dir);
      LeadsDir(w.s, ROOT, names, w.dir);
      DirAllocEffect(w.s, w.dir);
      if a.r >= 0 {
        CreateStep(w.s, a.s, a.r, names, w.dir);
      }
    }
  }

  lemma LeadsDir(s: S, f: nat, names: seq<string>, d: nat)
    requires Shape(s) && f < |s.files| && LeadsTo(s, f, names, d)
    ensures d < |s.files| && s.files[d].typ == FTYPE_DIR
  {}

  lemma CreateStep(w: S, a: S, e: nat, names: seq<string>, d: nat)
    requires FsInv(w) && FsInv(a) && NamesKept(w, a) && LeadsTo(w, ROOT, names, d) && Find(w, d, Last(names)) == Missing
    requires Allocated(a, d, e) && forall c :: c in names ==> c != ""
    ensures var t := SetName(a, e, Last(names));
            FsInv(t) && (Clean(a) ==> Clean(t)) && Resolve(t, ROOT, names) == Slot(e)
                && forall x :: Free(t, x) == Free(a, x)
  {
    hide Ref, Free, FindFrom, Clean, InUse, Apart, FreeHasNoRefs, Names, Find, Resolve;
    var last := Last(names);
    assert last in names;
    assert forall c :: c in Init(names) ==> c in names;
    FindIs(w, d, last);
    MissingNoEntry(w, d, last, 0, Blocks(w, d));
    assert NoEntry(w, d, last);
    NameSlot(a, d, e, last);
    var t := SetName(a, e, last);
    ResolveCarries(w, t, ROOT, Init(names));
    ResolveLast(t, ROOT, names, d, e);
  }

  lemma {:induction false} ResolveCarries(s: S, t: S, f: nat, names: seq<string>)
    requires Shape(s) && Shape(t) && |s.mem| == |t.mem| && f < |s.files| && Resolve(s, f, names).Slot?
    requires forall c :: c in names ==> c != ""
    requires forall g | 0 <= g < |s.files| :: t.files[g].typ == s.files[g].typ
    requires forall g, c | 0 <= g < |s.files| && c != "" :: Find(s, g, c).Slot? ==> Find(t, g, c) == Find(s, g, c)
    ensures Resolve(t, f, names) == Resolve(s, f, names)
    decreases |names|
  {
    hide Find;
    if names != [] {
      assert names[0] in names && forall c :: c in names[1..] ==> c in names;
      ResolveCarries(s, t, Find(s, f, names[0]).f, names[1..]);
    }
  }

  lemma {:induction false} ResolveLast(t: S, f: nat, names: seq<string>, d: nat, e: nat)
    requires Shape(t) && f < |t.files| && names != [] && Resolve(t, f, Init(names)) == Slot(d) && d < |t.files|
    requires t.files[d].typ == FTYPE_DIR && |Last(names)| < MAXNAMELEN && Find(t, d, Last(names)) == Slot(e)
    ensures Resolve(t, f, names) == Slot(e)
    decreases |names|
  {
    hide Find;
    if |names| > 1 {
      assert Init(names)[0] == names[0] && Init(names)[1..] == Init(names[1..]) && Last(names) == Last(names[1..]);
      ResolveLast(t, Find(t, f, names[0]).f, names[1..], d, e);
    } else {
      assert Init(names) == [];
    }
  }

  /** A file that was created is the file that is opened. */
  lemma CreateThenOpen(s: S, path: string)
    requires FsInv(s) && Create(s, path).r >= 0
    ensures var o := Walk(Create(s, path).s, path); o.r == 0 && o.file == Create(s, path).r
  {
    hide Ref, Free, Create, Walk, WalkGood, Resolve, LeadsTo, Components;
    CreateEffect(s, path);
    WalkEffect2(Create(s, path).s, path);
  }

  /* ---------- removing ---------- */

  lemma CacheInv(s: S, t: S)
    requires FsInv(s) && CacheStep(s, t)
    ensures FsInv(t) && Extends(s, t)
  {
    SameViewSameRefs(s, t);
    hide Ref, Free, View, OnDisk;
    ExtendsKeeps(s, t);
  }

  lemma FlushDirEffect(s: S, f: nat)
    requires Own(s) && f < |s.files|
    ensures CacheStep(s, FlushDir(s, f))
  {
    if 0 < s.files[f].dir < |s.files| {
      FlushEffect(s, s.files[f].dir);
    } else {
      SameViewSameRefs(s, s);
    }
  }

  /** file_close only moves blocks between memory and disk. */
  lemma CloseEffect(s: S, f: nat)
    requires Own(s) && f < |s.files|
    ensures CacheStep(s, Close(s, f))
  {
    hide Flush, FlushDir, Ref, Free, View, OnDisk;
    FlushEffect(s, f);
    FlushDirEffect(Flush(s, f), f);
    CacheTwice(s, Flush(s, f), Close(s, f));
  }

  /** Truncating to nothing keeps the directories in order. */
  lemma TruncateInv(s: S, f: nat)
    requires FsInv(s) && f < |s.files|
    ensures var t := Truncate(s, f, 0);
            && FsInv(t) && (Clean(s) ==> Clean(t)) && Cleared0(s, t, f)
  {
    TruncateEffect(s, f, 0);
    hide Truncate, Ref, Free, Clean;
    Cleared0Inv(s, Truncate(s, f, 0), f);
  }

  /** Every record but f, with its block map, is as it was; f has size 0. */
  ghost predicate Cleared0(s: S, t: S, f: nat) {
    && Shape(s) && Shape(t) && |s.mem| == |t.mem| && s.fix == t.fix && f < |s.files|
    && (forall x :: Free(t, x) == Free(s, x))
    && (forall g, m | 0 <= g < |s.files| && 0 <= m < IND && g != f :: Ref(t, g, m) == Ref(s, g, m))
    && (forall g | 0 <= g < |s.files| :: t.files[g].name == s.files[g].name && t.files[g].typ == s.files[g].typ
          && t.files[g].dir == s.files[g].dir && t.files[g].size == if g == f then 0 else s.files[g].size)
  }

  lemma Cleared0Inv(s: S, t: S, f: nat)
    requires FsInv(s) && Own(t) && f < |s.files| && Truncated(s, t, f, 0, s.files[f].size / BY2BLK + 1)
             && SetTo(s, t, f, 0)
    ensures FsInv(t) && Cleared0(s, t, f)
  {
    hide Ref, Free;
    forall g, i, j | 0 <= g < |t.files| && 0 <= i && 0 <= j && Present(t, g, i, j)
      ensures Present(s, g, i, j) && Entry(s, g, i, j) == Entry(t, g, i, j)
    {
    }
  }

  /** Emptying a name. */
  lemma UnnameInv(s: S, f: nat)
    requires FsInv(s) && f < |s.files|
    ensures FsInv(SetName(s, f, "")) && (Clean(s) ==> Clean(SetName(s, f, "")))
  {
    hide Ref, Free, Clean, InUse, Apart, FreeHasNoRefs;
    SetNameSame(s, f, "");
    var t := SetName(s, f, "");
    forall g, i, j | 0 <= g < |t.files| && 0 <= i && 0 <= j && Present(t, g, i, j)
      ensures Present(s, g, i, j) && Entry(s, g, i, j) == Entry(t, g, i, j)
    {
    }
  }

  /** The name maps after f is gone. */
  ghost predicate Without(s: S, t: S, f: nat) {
    && Shape(s) && Shape(t) && |s.mem| == |t.mem| && f < |s.files|
    && (forall x :: Free(t, x) == Free(s, x))
    && (forall g, m | 0 <= g < |s.files| && 0 <= m < IND && g != f :: Ref(t, g, m) == Ref(s, g, m))
    && (forall g | 0 <= g < |s.files| && g != f :: t.files[g].name == s.files[g].name
          && t.files[g].size == s.files[g].size)
    && (forall g | 0 <= g < |s.files| :: t.files[g].typ == s.files[g].typ)
    && t.files[f].name == "" && t.files[f].size == 0
  }

  /** file_remove keeps every invariant; it removes the record the path leads to and no other. */
  lemma RemoveEffect(s: S, path: string)
    requires FsInv(s)
    ensures var r := Remove(s, path);
            && FsInv(r.s) && (Clean(s) ==> Clean(r.s)) && r.r <= 0 && (forall x :: Free(r.s, x) ==> Free(s, x))
            && (r.r == 0 <==> Walk(s, path).r == 0)
            && (r.r == 0 ==> Without(Walk(s, path).s, r.s, Walk(s, path).file))
  {
    hide Ref, Free, Walk, Truncate, Close, SetName, Clean, Names, Resolve, LeadsTo, WalkKnown, Find;
    var w := Walk(s, path);
    WalkEffect2(s, path);
    if w.r == 0 {
      var t := Truncate(w.s, w.file, 0);
      TruncateInv(w.s, w.file);
      UnnameInv(t, w.file);
      var u := SetName(t, w.file, "");
      CloseEffect(u, w.file);
      CacheInv(u, Close(u, w.file));
      WithoutClosed(w.s, t, Close(u, w.file), w.file);
    }
  }

  lemma WithoutClosed(s: S, t: S, v: S, f: nat)
    requires Own(t) && Cleared0(s, t, f) && CacheStep(SetName(t, f, ""), v)
    ensures Without(s, v, f)
  {
    SetNameSame(t, f, "");
    SameViewSameRefs(SetName(t, f, ""), v);
    hide Ref, Free, View, OnDisk;
  }

  /** No directory has a missing block. */
  ghost predicate Complete(s: S)
    requires Shape(s)
  {
    forall d, k | 0 <= d < |s.files| && 0 <= k < Blocks(s, d) :: s.files[d].typ == FTYPE_DIR ==> Filled(s, d, k)
  }

  ghost predicate Filled(s: S, d: nat, k: nat)
    requires Shape(s) && d < |s.files|
  {
    k < IND && Ref(s, d, k) != 0
  }

  lemma {:induction false} CompleteAnswers(s: S, d: nat, name: string, i: nat, n: nat)
    requires Own(s) && Complete(s) && d < |s.files| && s.files[d].typ == FTYPE_DIR && n == Blocks(s, d)
    ensures FindFrom(s, d, name, i, n) != Hole
    decreases n - i
  {
    hide Ref, Free, FindFrom, ScanBlock;
    if i < n {
      FindAt(s, d, name, i, n);
      assert Filled(s, d, i);
      InUseBound(s, d, i);
      CompleteAnswers(s, d, name, i + 1, n);
    } else {
      FindEnd(s, d, name, i, n);
    }
  }

  lemma CompleteStays(s: S, t: S)
    requires Extends(s, t) && Complete(s) && Own(s)
    ensures Complete(t)
  {
    hide Ref, Free;
    forall d, k | 0 <= d < |t.files| && 0 <= k < Blocks(t, d) && t.files[d].typ == FTYPE_DIR
      ensures Filled(t, d, k)
    {
      assert Filled(s, d, k);
    }
  }

  /** In t the names that led to f in s lead nowhere, and those that did not still lead where they did. */
  ghost predicate Unlinked(s: S, t: S, f: nat) {
    && Shape(s) && Shape(t) && |s.mem| == |t.mem|
    && (forall g | 0 <= g < |s.files| :: t.files[g].typ == s.files[g].typ)
    && (forall g, c | 0 <= g < |s.files| && g != f && c != "" && s.files[g].typ == FTYPE_DIR && Find(s, g, c).Slot? ::
          if Find(s, g, c).f == f then NoEntry(t, g, c) else Find(t, g, c) == Find(s, g, c))
  }

  lemma UnlinkedStays(s: S, t: S, u: S, f: nat)
    requires Unlinked(s, t, f) && FsInv(t) && Extends(t, u)
    ensures Unlinked(s, u, f)
  {
    hide Ref, Free, FindFrom, NoEntry;
    forall g, c | 0 <= g < |s.files| && g != f && c != "" && s.files[g].typ == FTYPE_DIR && Find(s, g, c).Slot?
      ensures if Find(s, g, c).f == f then NoEntry(u, g, c) else Find(u, g, c) == Find(s, g, c)
    {
      if Find(s, g, c).f == f { NoEntryStays(t, u, g, c); } else { FindStays(t, u, g, c, 0, Blocks(t, g)); }
    }
  }

  lemma WithoutUnlinks(s: S, t: S, f: nat)
    requires FsInv(s) && Own(t) && Without(s, t, f)
    ensures Unlinked(s, t, f)
  {
    hide Ref, Free, FindFrom, ScanBlock;
    forall g, c | 0 <= g < |s.files| && g != f && c != "" && s.files[g].typ == FTYPE_DIR && Find(s, g, c).Slot?
      ensures if Find(s, g, c).f == f then NoEntry(t, g, c) else Find(t, g, c) == Find(s, g, c)
    {
      var k, j := FoundAt(s, g, c, 0, Blocks(s, g));
      var e := Entry(s, g, k, j);
      assert Present(s, g, k, j) && s.files[e].name == NameAt(s, Ref(s, g, k), j) == c;
      if e == f {
        GoneFrom(s, t, f, g, c, k, j);
      } else {
        StillThere(s, t, f, g, c, k, j);
      }
    }
  }

  lemma GoneFrom(s: S, t: S, f: nat, g: nat, c: string, k: nat, j: nat)
    requires FsInv(s) && Without(s, t, f) && g < |s.files| && g != f && c != "" && s.files[g].typ == FTYPE_DIR
    requires Present(s, g, k, j) && Entry(s, g, k, j) == f && s.files[f].name == c
    ensures NoEntry(t, g, c)
  {
    hide Ref, Free;
    forall m, l | 0 <= m && 0 <= l && Present(t, g, m, l) ensures t.files[Entry(t, g, m, l)].name != c {
      assert Present(s, g, m, l) && Entry(s, g, m, l) == Entry(t, g, m, l);
    }
  }

  lemma StillThere(s: S, t: S, f: nat, g: nat, c: string, k: nat, j: nat)
    requires FsInv(s) && Without(s, t, f) && g < |s.files| && g != f && c != "" && s.files[g].typ == FTYPE_DIR
    requires Present(s, g, k, j) && Entry(s, g, k, j) != f && s.files[Entry(s, g, k, j)].name == c
    ensures Find(t, g, c) == Find(s, g, c)
  {
    hide Ref, Free, FindFrom, ScanBlock;
    forall m, l | 0 <= m < Blocks(s, g) && m < IND && 0 < Ref(s, g, m) < |s.mem| && 0 <= l < FILE2BLK
      ensures NameAt(s, Ref(s, g, m), l) == c <==> NameAt(t, Ref(s, g, m), l) == c
    {
      assert Present(s, g, m, l) && Entry(s, g, m, l) == FILE2BLK * Ref(s, g, m) + l;
    }
    assert forall m | 0 <= m < IND :: Ref(t, g, m) == Ref(s, g, m);
    FindAgrees(s, t, g, c, 0, Blocks(s, g));
  }

  /** After f is unlinked, names that led to it lead nowhere. */
  lemma {:induction false} WalkMisses(s: S, t: S, dir: nat, file: nat, names: seq<string>, f: nat)
    requires FsInv(t) && Unlinked(s, t, f) && 0 < file < |t.files| && file != f && !Free(t, file / FILE2BLK)
    requires names != [] && Resolve(s, file, names) == Slot(f) && forall c :: c in names ==> c != ""
    ensures WalkFrom(t, dir, file, names).r < 0
    ensures Complete(t) ==> WalkFrom(t, dir, file, names).r == -E_NOT_FOUND
    decreases |names|
  {
    hide Lookup, Find, Ref, Free, Clean, InUse, Apart, FreeHasNoRefs, Names, Complete, NoEntry;
    var l := Lookup(t, file, names[0]);
    LookupFinds(t, file, names[0]);
    ExtendsKeeps(t, l.s);
    assert names[0] in names;
    var x := Find(s, file, names[0]);
    if Complete(t) {
      FindIs(t, file, names[0]);
      CompleteAnswers(t, file, names[0], 0, Blocks(t, file));
      CompleteStays(t, l.s);
    }
    if x.f == f {
      NoEntryStays(t, l.s, file, names[0]);
      if l.r >= 0 { FoundIsEntry(l.s, file, names[0]); }
    } else {
      UnlinkedStays(s, t, l.s, f);
      assert forall c :: c in names[1..] ==> c in names;
      WalkMisses(s, l.s, file, l.r, names[1..], f);
    }
  }

  lemma FoundIsEntry(s: S, d: nat, name: string)
    requires Shape(s) && d < |s.files| && Find(s, d, name).Slot?
    ensures !NoEntry(s, d, name)
  {
    hide Ref, ScanBlock;
    var k, j := FoundAt(s, d, name, 0, Blocks(s, d));
    assert Present(s, d, k, j) && NameAt(s, Ref(s, d, k), j) == s.files[Entry(s, d, k, j)].name;
  }

  /** file_remove leaves no directory with a missing block if there was none. */
  lemma RemoveKeepsComplete(s: S, path: string)
    requires FsInv(s) && Complete(s) && Remove(s, path).r == 0
    ensures Complete(Remove(s, path).s)
  {
    hide Ref, Free, Remove, Walk, Components, Resolve, LeadsTo, Find, Names, InUse, Apart, FreeHasNoRefs, WalkKnown;
    var w, t := Walk(s, path), Remove(s, path).s;
    WalkEffect2(s, path);
    RemoveEffect(s, path);
    CompleteStays(s, w.s);
    forall d, k | 0 <= d < |t.files| && 0 <= k < Blocks(t, d) && t.files[d].typ == FTYPE_DIR ensures Filled(t, d, k) {
      assert Filled(w.s, d, k);
    }
  }

  /** A removed path is not found again; with no directory block missing, the error is -E_NOT_FOUND. */
  lemma RemoveThenOpen(s: S, path: string)
    requires FsInv(s) && Remove(s, path).r == 0 && Components(path) != []
    ensures var t := Remove(s, path).s;
            Walk(t, path).r < 0 && (Complete(s) ==> Walk(t, path).r == -E_NOT_FOUND)
  {
    hide Ref, Free, Remove, WalkFrom, Components, Resolve, LeadsTo, Find, Names, InUse, Apart, FreeHasNoRefs, Complete;
    var w, t, names := Walk(s, path), Remove(s, path).s, Components(path);
    ComponentsAreNames(path);
    WalkEffect2(s, path);
    RemoveEffect(s, path);
    WithoutUnlinks(w.s, t, w.file);
    assert !Free(t, ROOT / FILE2BLK);
    WalkMisses(w.s, t, 0, ROOT, names, w.file);
    if Complete(s) { RemoveKeepsComplete(s, path); }
  }

  /* ---------- directories with a missing block, on a full disk ---------- */

  ghost predicate Full(s: S)
    requires Shape(s)
  {
    forall x :: 3 <= x < |s.mem| ==> !Free(s, x)
  }

  /** Directory d has all its blocks. */
  ghost predicate DirFilled(s: S, d: nat)
    requires Shape(s) && d < |s.files|
  {
    forall k :: 0 <= k < Blocks(s, d) ==> Filled(s, d, k)
  }

  /** Nothing is ever added on a full disk. */
  lemma FullSame(s: S, t: S)
    requires Own(s) && Own(t) && Extends(s, t) && Full(s)
    ensures Full(t) && SameRefsBelow(s, t)
  {
    hide Free, Ref;
  }

  lemma FilledSame(s: S, t: S, d: nat)
    requires Shape(s) && Shape(t) && |s.mem| == |t.mem| && d < |s.files| && t.files[d].size == s.files[d].size
    requires forall m :: 0 <= m < IND ==> Ref(t, d, m) == Ref(s, d, m)
    ensures DirFilled(t, d) <==> DirFilled(s, d)
  {
    hide Ref;
    forall k: nat ensures Filled(t, d, k) <==> Filled(s, d, k) {}
  }

  lemma {:induction false} FindSame(s: S, t: S, d: nat, name: string, i: nat, n: nat)
    requires Extends(s, t) && SameRefsBelow(s, t) && d < |s.files|
    ensures FindFrom(t, d, name, i, n) == FindFrom(s, d, name, i, n)
    decreases n - i
  {
    hide Free, Ref, ScanBlock;
    if i < n && i < IND && 0 < Ref(s, d, i) < |s.mem| {
      ScanBlockSame(s, t, Ref(s, d, i), name, 0);
      FindSame(s, t, d, name, i + 1, n);
    }
  }

  /** A name that is not there is missing, unless a missing block hides that. */
  lemma {:induction false} AbsentFind(s: S, d: nat, name: string, i: nat, n: nat)
    requires Own(s) && d < |s.files| && NoEntry(s, d, name) && n == Blocks(s, d)
    ensures FindFrom(s, d, name, i, n) == if forall k :: i <= k < n ==> Filled(s, d, k) then Missing else Hole
    decreases n - i
  {
    hide Ref, Free, ScanBlock, FindFrom;
    if i >= n {
      FindEnd(s, d, name, i, n);
    } else {
      FindAt(s, d, name, i, n);
      InUseBound(s, d, if i < IND then i else 0);
      if Filled(s, d, i) {
        AbsentInBlock(s, d, name, i);
        AbsentFind(s, d, name, i + 1, n);
      }
    }
  }

  lemma AbsentInBlock(s: S, d: nat, name: string, i: nat)
    requires Shape(s) && d < |s.files| && NoEntry(s, d, name) && i < Blocks(s, d) && i < IND
             && 0 < Ref(s, d, i) < |s.mem|
    ensures ScanBlock(s, Ref(s, d, i), name, 0) == FILE2BLK
  {
    hide Ref;
    var r := ScanBlock(s, Ref(s, d, i), name, 0);
    var j := if r < FILE2BLK then r else 0;
    assert Present(s, d, i, j) && NameAt(s, Ref(s, d, i), j) == s.files[Entry(s, d, i, j)].name;
  }

  /** A record is in one directory only. */
  lemma OneParent(s: S, g: nat, a: string, d: nat, c: string, f: nat)
    requires Own(s) && g < |s.files| && d < |s.files| && Find(s, g, a) == Slot(f) && Find(s, d, c) == Slot(f)
    ensures g == d
  {
    hide Free, Ref, ScanBlock;
    var k, j := FoundAt(s, g, a, 0, Blocks(s, g));
    var m, l := FoundAt(s, d, c, 0, Blocks(s, d));
    SameBlock(Ref(s, g, k), j, Ref(s, d, m), l);
  }

  lemma AllocFull(s: S)
    requires Shape(s) && Full(s)
    ensures AllocBlock(s) == R(s, -E_NO_DISK)
  {
    hide Free, FirstFree;
    FirstFreeIs(s, 3);
  }

  lemma GetFull(s: S, f: nat, k: nat)
    requires Own(s) && Full(s) && f < |s.files| && !Free(s, f / FILE2BLK) && k < IND
    ensures GetFile(s, f, k).r >= 0 || GetFile(s, f, k).r == -E_NO_DISK
  {
    hide Free, GetWord, AllocBlock, ReadBlock, InUse, Apart, FreeHasNoRefs, Clean;
    assert Ref(s, f, IND) == s.files[f].indirect;
    GetEffect(s, f, k);
    WalkEffect(s, f, k, true);
    AllocFull(s);
    AllocFull(BlockWalk(s, f, k, true).s);
  }

  lemma {:induction false} ScanFull(s: S, d: nat, name: string, i: nat, n: nat)
    requires Own(s) && Full(s) && d < |s.files| && !Free(s, d / FILE2BLK) && n == Blocks(s, d) <= IND
    ensures var r := ScanDir(s, d, name, i, n).r; r >= 0 || r == NONE || r == -E_NO_DISK
    decreases n - i
  {
    hide GetFile, Free, Ref, ScanBlock, InUse, Apart, FreeHasNoRefs, Clean;
    if i < n {
      GetFull(s, d, i);
      GetFinds(s, d, name, i, n);
      FullSame(s, GetFile(s, d, i).s);
      if GetFile(s, d, i).r >= 0 { ScanFull(GetFile(s, d, i).s, d, name, i + 1, n); }
    }
  }

  /** Looking up an absent name on a full disk. */
  lemma LookupFull(t: S, d: nat, name: string)
    requires Own(t) && Full(t) && d < |t.files| && !Free(t, d / FILE2BLK) && NoEntry(t, d, name)
    ensures var l := Lookup(t, d, name);
            l.r < 0 && (l.r == -E_NOT_FOUND <==> DirFilled(t, d))
                && (!DirFilled(t, d) && Blocks(t, d) <= IND ==> l.r == -E_NO_DISK)
  {
    hide Free, Ref, Find, InUse, Apart, FreeHasNoRefs, ScanDir, NoEntry;
    var l := Lookup(t, d, name);
    LookupFinds(t, d, name);
    FullSame(t, l.s);
    FindIs(t, d, name);
    FindIs(l.s, d, name);
    FindSame(t, l.s, d, name, 0, Blocks(t, d));
    AbsentFind(t, d, name, 0, Blocks(t, d));
    if Blocks(t, d) <= IND { ScanFull(t, d, name, 0, Blocks(t, d)); }
  }

  /** The walk to an unlinked record ends in the directory d that held it. */
  lemma {:induction false} WalkMissesFull(s: S, t: S, dir: nat, file: nat, names: seq<string>, f: nat, d: nat,
        c: string)
    requires FsInv(s) && FsInv(t) && Full(t) && Unlinked(s, t, f) && 0 < file < |t.files| && file != f
             && !Free(t, file / FILE2BLK)
    requires names != [] && Resolve(s, file, names) == Slot(f) && forall n :: n in names ==> n != ""
    requires d < |s.files| && Find(s, d, c) == Slot(f)
    ensures d != f
    ensures var r := WalkFrom(t, dir, file, names).r;
            (r == -E_NOT_FOUND <==> DirFilled(t, d)) && (!DirFilled(t, d) && Blocks(t, d) <= IND ==> r == -E_NO_DISK)
    decreases |names|
  {
    hide Lookup, Find, Ref, Free, InUse, Apart, FreeHasNoRefs, Names, NoEntry, DirFilled;
    var l := Lookup(t, file, names[0]);
    assert names[0] in names;
    var x := Find(s, file, names[0]);
    if x.f == f {
      OneParent(s, file, names[0], d, c, f);
      LookupFull(t, file, names[0]);
    } else {
      LookupFinds(t, file, names[0]);
      ExtendsKeeps(t, l.s);
      UnlinkedStays(s, t, l.s, f);
      FullSame(t, l.s);
      FilledSame(t, l.s, d);
      assert forall n :: n in names[1..] ==> n in names;
      WalkMissesFull(s, l.s, file, l.r, names[1..], f, d, c);
    }
  }

  /** On a full disk, opening a removed path says -E_NOT_FOUND exactly when its directory had all its
      blocks; else the lookup stops at the missing block, for which there is no room. */
  lemma RemoveThenOpenFull(s: S, path: string)
    requires FsInv(s) && Full(s) && Remove(s, path).r == 0 && Components(path) != []
    ensures var (d, r) := (Walk(s, path).dir, Walk(Remove(s, path).s, path).r);
            d < |s.files| && (r == -E_NOT_FOUND <==> DirFilled(s, d))
                && (!DirFilled(s, d) && Blocks(s, d) <= IND ==> r == -E_NO_DISK)
  {
    hide Ref, Free, Remove, WalkFrom, Components, Resolve, LeadsTo, Find, Names, InUse, Apart, FreeHasNoRefs, DirFilled;
    var w, t, names := Walk(s, path), Remove(s, path).s, Components(path);
    ComponentsAreNames(path);
    WalkEffect2(s, path);
    RemoveEffect(s, path);
    LeadsDir(w.s, ROOT, names, w.dir);
    WithoutUnlinks(w.s, t, w.file);
    assert !Free(t, ROOT / FILE2BLK);
    FullSame(s, w.s);
    WalkMissesFull(w.s, t, 0, ROOT, names, w.file, w.dir, Last(names));
    FilledSame(s, w.s, w.dir);
    FilledSame(w.s, t, w.dir);
  }

  /** How a block comes to be missing: dir_alloc_file grows the size before it asks for the block. */
  lemma GrowLeavesHole(s: S, d: nat)
    requires FsInv(s) && Full(s) && d < |s.files| && s.files[d].typ == FTYPE_DIR && !Free(s, d / FILE2BLK)
    requires Find(s, d, "") == Missing && Blocks(s, d) < IND
    ensures var a := DirAlloc(s, d); a.r == -E_NO_DISK && FsInv(a.s) && !DirFilled(a.s, d)
  {
    hide ScanDir, Ref, Free, FindFrom, Clean, Names, InUse, Apart, FreeHasNoRefs, GetFile;
    DirAllocEffect(s, d);
    var n := Blocks(s, d);
    var c := ScanDir(s, d, "", 0, n);
    ScanFinds(s, d, "", 0, n);
    ExtendsKeeps(s, c.s);
    InUseStays(s, c.s, d);
    FullSame(s, c.s);
    var u := SetSizeField(c.s, d, (c.s.files[d].size + BY2BLK) % WORD);
    SizeGrows(c.s, d);
    GetFull(u, d, n);
    GetEffect(u, d, n);
    NoBlockPast(c.s, d, n);
    assert !Filled(DirAlloc(s, d).s, d, n);
  }

  lemma NoBlockPast(s: S, d: nat, n: nat)
    requires FsInv(s) && d < |s.files| && s.files[d].typ == FTYPE_DIR && Blocks(s, d) <= n < IND
    ensures Ref(s, d, n) == 0
  {
    hide Ref, Free;
  }

  /* ---------- that case, concretely ---------- */

  /** Four blocks, all in use; the root directory has size 2 but one block, holding the file "a". */
  function HoleRoot(): File {
    NoFile().(typ := FTYPE_DIR, size := 2 * BY2BLK, direct := NoFile().direct[0 := 3])
  }

  function HoleFiles(): seq<File> {
    seq(4 * FILE2BLK, _ => NoFile())[ROOT := HoleRoot()][3 * FILE2BLK := NoFile().(name := "a")]
  }

  function HoleDisk(): (s: S)
    ensures Shape(s)
  {
    S(false, seq(4, _ => ZeroBlock()), seq(4, _ => true), seq(4, _ => false), seq(4, _ => ZeroBlock()), HoleFiles(),
        HoleFiles(), [])
  }

  lemma {:induction false} ZeroBits(k: nat)
    ensures !BitOf(0, k)
    decreases k
  {
    if k > 0 { ZeroBits(k - 1); }
  }

  lemma HoleFull()
    ensures Full(HoleDisk()) && forall x :: !Free(HoleDisk(), x)
  {
    hide BitOf, HoleFiles, GetWord;
    forall x: nat ensures !Free(HoleDisk(), x) {
      if x < 4 {
        ZeroWords(x / 32);
        ZeroBits(x % 32);
      }
    }
  }

  lemma HoleRefs(f: nat, k: nat)
    requires f < 4 * FILE2BLK && k <= IND
    ensures Ref(HoleDisk(), f, k) == if f == ROOT && k == 0 then 3 else 0
  {
    hide ZeroBlock, GetWord;
    var file := HoleFiles()[f];
    assert HoleDisk().files[f] == file && file.indirect == 0;
    if k < NDIRECT { assert file.direct[k] == if f == ROOT && k == 0 then 3 else 0; }
  }

  lemma HoleInv()
    ensures var s := HoleDisk();
            FsInv(s) && s.files[ROOT].typ == FTYPE_DIR && Blocks(s, ROOT) == 2 && !DirFilled(s, ROOT)
    ensures Find(HoleDisk(), ROOT, "a") == Slot(3 * FILE2BLK)
  {
    hide Ref, Free, ZeroBlock, HoleFiles;
    var s := HoleDisk();
    HoleFull();
    HoleRecords();
    forall f, k | 0 <= f < 4 * FILE2BLK && 0 <= k <= IND
      ensures Ref(s, f, k) == if f == ROOT && k == 0 then 3 else 0
    {
      HoleRefs(f, k);
    }
    assert !Filled(s, ROOT, 1);
    HoleFind(s);
    HoleNames(s);
    assert Own(s);
  }

  lemma HoleRecords()
    ensures var s := HoleDisk();
            && s.files[ROOT].typ == FTYPE_DIR && s.files[ROOT].size == 2 * BY2BLK
            && (forall g | 0 <= g < |s.files| && g != ROOT :: s.files[g].typ == 0)
            && (forall g | 0 <= g < |s.files| && g != ROOT && g != 3 * FILE2BLK :: s.files[g].name == "")
            && s.files[ROOT].name == "" && s.files[3 * FILE2BLK].name == "a"
  {
    hide ZeroBlock;
  }

  lemma HoleNames(s: S)
    requires Shape(s) && |s.mem| == 4 && (forall x :: !Free(s, x))
    requires forall f, k | 0 <= f < |s.files| && 0 <= k <= IND :: Ref(s, f, k) == if f == ROOT && k == 0 then 3 else 0
    requires s.files[ROOT].typ == FTYPE_DIR && s.files[ROOT].size == 2 * BY2BLK
    requires forall g | 0 <= g < |s.files| && g != ROOT :: s.files[g].typ == 0
    requires forall g | 0 <= g < |s.files| && g != 3 * FILE2BLK :: s.files[g].name == ""
    ensures Names(s)
  {
    hide Ref, Free;
  }

  lemma HoleFind(s: S)
    requires Shape(s) && |s.mem| == 4 && Ref(s, ROOT, 0) == 3 && s.files[ROOT].size == 2 * BY2BLK
             && s.files[3 * FILE2BLK].name == "a"
    ensures Find(s, ROOT, "a") == Slot(3 * FILE2BLK)
  {
    hide Ref, Free, FindFrom;
    assert NameAt(s, 3, 0) == "a";
    FindIs(s, ROOT, "a");
    FindAt(s, ROOT, "a", 0, 2);
  }

  lemma NameOnly()
    ensures Components("a") == ["a"]
  {
    assert SkipSlash("a") == "a";
    assert "a"[1..] == "";
    assert TakeName("") == "" && TakeName("a") == ['a'] + TakeName("") == "a";
    assert Components("") == [];
    assert Components("a") == [TakeName("a")] + Components("a"[1..]);
  }

  /** A name can be removed, and opening it again fails with -E_NO_DISK. */
  lemma RemovedIsNoDisk()
    ensures var s := HoleDisk(); FsInv(s) && Remove(s, "a").r == 0 && Walk(Remove(s, "a").s, "a").r == -E_NO_DISK
  {
    hide Ref, Free, Remove, Walk, Components, Names, InUse, Apart, FreeHasNoRefs, DirFilled, Find, HoleDisk;
    var s := HoleDisk();
    HoleInv();
    HoleFull();
    NameOnly();
    WalkEffect2(s, "a");
    assert Resolve(s, ROOT, ["a"][1..]) == Slot(ROOT) && ["a"][1..] == [];
    LeadsStep(Walk(s, "a").s, ROOT, ["a"], Walk(s, "a").dir);
    RemoveEffect(s, "a");
    RemoveThenOpenFull(s, "a");
  }
}
