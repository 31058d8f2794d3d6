/** The file system over cached disk blocks: bitmap allocation, direct and indirect block
    pointers, reading, writing and truncating files. */
module FileSystem {
  import opened Words

  const BLKSIZE: nat := 4096
  const BLKBITSIZE: nat := 32768
  const NDIRECT: nat := 10
  const NINDIRECT: nat := 1024
  const MAXBLOCKS: nat := 1034          // NDIRECT + NINDIRECT
  const INDIRECT: nat := 1034           // names the slot f_indirect itself

  const E_INVAL: int := 3
  const E_NO_DISK: int := 9
  const E_NOT_FOUND: int := 11

  datatype Option<T> = None | Some(value: T)

  // A block, seen as file data or as a table of block numbers.
  datatype Block = Data(bytes: seq<Byte>) | Table(ptrs: seq<U32>)

  // A table's bytes, least significant byte of each entry first.
  function TableBytes(ptrs: seq<U32>): (r: seq<Byte>)
    ensures |r| == 4 * |ptrs|
  {
    seq(4 * |ptrs|, i requires 0 <= i < 4 * |ptrs| => ByteOf(ptrs[i / 4], i % 4))
  }

  // The same contents, seen as data.
  function AsData(block: Block): Block { if block.Data? then block else Data(TableBytes(block.ptrs)) }

  datatype File = File(size: int, direct: seq<U32>, indirect: U32)

  datatype Fs = Fs(free: seq<bool>, blocks: seq<Block>, files: seq<File>)

  function Blocks(size: int): int { (size + BLKSIZE - 1) / BLKSIZE }

  // Blocks 0 and 1 and the bitmap's.
  function Reserved(n: nat): nat { 2 + (n + BLKBITSIZE - 1) / BLKBITSIZE }

  function ZeroTable(): Block { Table(seq(NINDIRECT, _ => 0)) }

  // ---- Block pointers ----

  predicate IsTable(block: Block) { block.Table? && |block.ptrs| == NINDIRECT }

  predicate IsData(block: Block) { block.Data? && |block.bytes| == BLKSIZE }

  // What slot n of file f holds: a direct pointer, an entry of its indirect block, or the
  // pointer to that block.
  function Ptr(fs: Fs, f: nat, n: nat): U32 {
    if f >= |fs.files| || |fs.files[f].direct| != NDIRECT then 0
    else if n < NDIRECT then fs.files[f].direct[n]
    else if n == INDIRECT then fs.files[f].indirect
    else if n > INDIRECT || fs.files[f].indirect == 0 || fs.files[f].indirect >= |fs.blocks| then 0
    else if !IsTable(fs.blocks[fs.files[f].indirect]) then 0
    else fs.blocks[fs.files[f].indirect].ptrs[n - NDIRECT]
  }

  function PutPtr(ptrs: seq<U32>, i: nat, p: U32): seq<U32>
    requires i < |ptrs|
  {
    ptrs[i := p]
  }

  function PutFile(fs: Fs, f: nat, file: File): Fs
    requires f < |fs.files|
  {
    fs.(files := fs.files[f := file])
  }

  function PutBlock(fs: Fs, b: nat, block: Block): Fs
    requires b < |fs.blocks|
  {
    fs.(blocks := fs.blocks[b := block])
  }

  predicate HasSlot(fs: Fs, f: nat, n: nat) {
    && f < |fs.files| && n < MAXBLOCKS && |fs.files[f].direct| == NDIRECT
    && (n >= NDIRECT ==> 0 < fs.files[f].indirect < |fs.blocks| && IsTable(fs.blocks[fs.files[f].indirect]))
  }

  // *ppdiskbno = p
  function SetPtr(fs: Fs, f: nat, n: nat, p: U32): Fs
    requires HasSlot(fs, f, n)
  {
    if n < NDIRECT then PutFile(fs, f, fs.files[f].(direct := PutPtr(fs.files[f].direct, n, p)))
    else
      var i := fs.files[f].indirect;
      PutBlock(fs, i, Table(PutPtr(fs.blocks[i].ptrs, n - NDIRECT, p)))
  }

  // ---- Invariant ----

  // Which slot holds each block in use.
  type Owners = map<U32, (nat, nat)>

  predicate Sized(fs: Fs) {
    && |fs.free| == |fs.blocks| && |fs.blocks| < 0x10_0000
    && (forall b :: 0 <= b < |fs.blocks| ==> IsData(fs.blocks[b]) || IsTable(fs.blocks[b]))
    && (forall f :: 0 <= f < |fs.files| ==> |fs.files[f].direct| == NDIRECT && fs.files[f].size >= 0)
  }

  // Every pointer leads to a block of its own, in range, not reserved, and marked in use;
  // and every other block is free.
  ghost predicate Owned(fs: Fs, owner: Owners) {
    && (forall f: nat, n: nat :: Ptr(fs, f, n) != 0 ==> Ptr(fs, f, n) in owner && owner[Ptr(fs, f, n)] == (f, n))
    && (forall b: U32 :: b in owner ==>
          Reserved(|fs.blocks|) <= b < |fs.blocks| && Ptr(fs, owner[b].0, owner[b].1) == b)
    && (forall b: U32 :: b < |fs.free| ==> (fs.free[b] <==> Reserved(|fs.blocks|) <= b && b !in owner))
  }

  // Indirect blocks are tables, the others data, and slots past a file's size are zero.
  ghost predicate Shaped(fs: Fs) {
    && (forall f: nat :: f < |fs.files| && fs.files[f].indirect != 0 ==>
          fs.files[f].indirect < |fs.blocks| && IsTable(fs.blocks[fs.files[f].indirect]))
    && (forall f: nat, n: nat :: n < MAXBLOCKS && 0 < Ptr(fs, f, n) < |fs.blocks| ==> IsData(fs.blocks[Ptr(fs, f, n)]))
    && (forall f: nat, n: nat :: f < |fs.files| && n < MAXBLOCKS && n * BLKSIZE >= fs.files[f].size ==> Ptr(fs, f, n) == 0)
  }

  ghost predicate Inv(fs: Fs, owner: Owners) {
    Sized(fs) && Owned(fs, owner) && Shaped(fs)
  }

  lemma SetPtrIsUpdate(fs: Fs, owner: Owners, f: nat, n: nat, p: U32, g: nat, m: nat)
    requires Sized(fs) && Owned(fs, owner) && HasSlot(fs, f, n)
    ensures Ptr(SetPtr(fs, f, n, p), g, m) == if g == f && m == n then p else Ptr(fs, g, m)
  {
    if n >= NDIRECT && g != f && g < |fs.files| {
      assert Ptr(fs, f, INDIRECT) == fs.files[f].indirect;
      assert Ptr(fs, g, INDIRECT) == fs.files[g].indirect;
    }
  }

  // ---- Allocation ----

  datatype Outcome<T> = Ok(fs: Fs, value: T) | Err(fs: Fs, code: int) | Panic

  // The first free block from i on.
  function FirstFree(free: seq<bool>, i: nat): (r: Option<nat>)
    ensures r.Some? ==> i <= r.value < |free| && free[r.value] && forall j :: i <= j < r.value ==> !free[j]
    ensures r.None? ==> forall j :: i <= j < |free| ==> !free[j]
    decreases |free| - i
  {
    if i >= |free| then None else if free[i] then Some(i) else FirstFree(free, i + 1)
  }

  function MarkFree(fs: Fs, b: nat, free: bool): Fs
    requires b < |fs.free|
  {
    fs.(free := fs.free[b := free])
  }

  // The slot's pointer becomes the newly allocated block b, whose contents stay.
  function Assign(fs: Fs, f: nat, n: nat, b: U32): Fs
    requires HasSlot(fs, f, n) && b < |fs.free| == |fs.blocks|
  {
    var fs1 := MarkFree(SetPtr(fs, f, n, b), b, false);
    PutBlock(fs1, b, AsData(fs1.blocks[b]))
  }

  // Block b becomes the file's indirect block, cleared.
  function AssignIndirect(fs: Fs, f: nat, b: U32): Fs
    requires f < |fs.files| && b < |fs.free| && b < |fs.blocks|
  {
    PutBlock(PutFile(MarkFree(fs, b, false), f, fs.files[f].(indirect := b)), b, ZeroTable())
  }

  // file_block_walk
  function Walk(fs: Fs, f: nat, n: nat, alloc: bool): Outcome<nat>
    requires f < |fs.files| && |fs.free| == |fs.blocks| < 0x10_0000
  {
    if n >= MAXBLOCKS then Err(fs, -E_INVAL)
    else if n < NDIRECT then Ok(fs, n)
    else if fs.files[f].indirect != 0 then Ok(fs, n)
    else if !alloc then Err(fs, -E_NOT_FOUND)
    else match FirstFree(fs.free, 0)
      case None => Err(fs, -E_NO_DISK)
      case Some(b) => if b == 0 then Panic else Ok(AssignIndirect(fs, f, b), n)
  }

  // file_get_block. On a full disk the slot gets the error code for a block number, which
  // diskaddr does not accept.
  function GetBlock(fs: Fs, f: nat, n: nat): Outcome<U32>
    requires f < |fs.files| && |fs.free| == |fs.blocks| < 0x10_0000
  {
    match Walk(fs, f, n, true)
    case Panic => Panic
    case Err(fs1, code) => Err(fs1, code)
    case Ok(fs1, _) =>
      if !HasSlot(fs1, f, n) then Panic
      else if Ptr(fs1, f, n) != 0 then
        if Ptr(fs1, f, n) < |fs1.blocks| then Ok(fs1, Ptr(fs1, f, n)) else Panic
      else match FirstFree(fs1.free, 0)
        case None => Panic
        case Some(b) => if b == 0 then Panic else Ok(Assign(fs1, f, n, b), b)
  }

  // ---- What allocation does ----

  // Nothing that was there has changed: sizes, pointers and the data they lead to.
  ghost predicate Grown(fs: Fs, fs': Fs) {
    && |fs'.blocks| == |fs.blocks| && |fs'.files| == |fs.files|
    && (forall f: nat :: f < |fs.files| ==> fs'.files[f].size == fs.files[f].size)
    && (forall f: nat, n: nat :: Ptr(fs, f, n) != 0 ==> Ptr(fs', f, n) == Ptr(fs, f, n))
    && (forall f: nat, n: nat :: n < MAXBLOCKS && 0 < Ptr(fs, f, n) < |fs.blocks| ==>
          fs'.blocks[Ptr(fs, f, n)] == fs.blocks[Ptr(fs, f, n)])
  }

  ghost predicate PtrsPut(fs: Fs, fs': Fs, f: nat, n: nat, p: U32) {
    forall g: nat, m: nat :: Ptr(fs', g, m) == if g == f && m == n then p else Ptr(fs, g, m)
  }

  lemma OwnedPut(fs: Fs, fs': Fs, owner: Owners, f: nat, n: nat, b: U32)
    requires Owned(fs, owner) && PtrsPut(fs, fs', f, n, b) && Ptr(fs, f, n) == 0
    requires b < |fs.free| == |fs.blocks| == |fs'.blocks| && fs.free[b] && fs'.free == fs.free[b := false]
    ensures Owned(fs', owner[b := (f, n)])
  {}

  lemma OwnedCleared(fs: Fs, fs': Fs, owner: Owners, f: nat, n: nat, b: U32)
    requires Owned(fs, owner) && PtrsPut(fs, fs', f, n, 0) && Ptr(fs, f, n) == b != 0
    requires b < |fs.free| == |fs.blocks| == |fs'.blocks| && fs'.free == fs.free[b := true]
    ensures Owned(fs', owner - {b})
  {}

  lemma SetPtrPuts(fs: Fs, owner: Owners, f: nat, n: nat, p: U32)
    requires Inv(fs, owner) && HasSlot(fs, f, n)
    ensures PtrsPut(fs, SetPtr(fs, f, n, p), f, n, p)
    ensures Sized(SetPtr(fs, f, n, p)) && |SetPtr(fs, f, n, p).blocks| == |fs.blocks| && SetPtr(fs, f, n, p).free == fs.free
    ensures forall g: nat :: g < |fs.files| ==> SetPtr(fs, f, n, p).files[g].size == fs.files[g].size
    ensures forall c: nat :: c < |fs.blocks| && (n < NDIRECT || c != fs.files[f].indirect) ==>
      SetPtr(fs, f, n, p).blocks[c] == fs.blocks[c]
    ensures forall g: nat :: g < |fs.files| ==> SetPtr(fs, f, n, p).files[g].indirect == fs.files[g].indirect
    ensures forall c: nat :: c < |fs.blocks| && IsTable(fs.blocks[c]) ==> IsTable(SetPtr(fs, f, n, p).blocks[c])
    ensures |SetPtr(fs, f, n, p).files| == |fs.files|
  {
    forall g: nat, m: nat | true
      ensures Ptr(SetPtr(fs, f, n, p), g, m) == if g == f && m == n then p else Ptr(fs, g, m)
    {
      SetPtrIsUpdate(fs, owner, f, n, p, g, m);
    }
  }

  lemma AssignKeeps(fs: Fs, owner: Owners, f: nat, n: nat, b: U32)
    requires Inv(fs, owner) && HasSlot(fs, f, n) && Ptr(fs, f, n) == 0 && n * BLKSIZE < fs.files[f].size
    requires b < |fs.free| && fs.free[b]
    ensures Inv(Assign(fs, f, n, b), owner[b := (f, n)]) && Grown(fs, Assign(fs, f, n, b))
    ensures PtrsPut(fs, Assign(fs, f, n, b), f, n, b)
  {
    var fs1 := SetPtr(fs, f, n, b);
    var fs' := Assign(fs, f, n, b);
    SetPtrPuts(fs, owner, f, n, b);
    assert b !in owner;
    forall g: nat | g < |fs.files| ensures fs.files[g].indirect != b || b == 0 { assert Ptr(fs, g, INDIRECT) == fs.files[g].indirect; }
    AssignPtrs(fs1, b);
    OwnedPut(fs, fs', owner, f, n, b);
    DataApart(fs, owner, f);
  }

  // Seeing a block that is no indirect block as data changes no pointer.
  lemma AssignPtrs(fs: Fs, b: U32)
    requires b < |fs.free| == |fs.blocks|
    requires forall g: nat :: g < |fs.files| ==> fs.files[g].indirect != b || b == 0
    ensures var fs' := PutBlock(MarkFree(fs, b, false), b, AsData(fs.blocks[b]));
      forall g: nat, m: nat :: Ptr(fs', g, m) == Ptr(fs, g, m)
  {}

  // No data block is the file's indirect block.
  lemma DataApart(fs: Fs, owner: Owners, f: nat)
    requires Inv(fs, owner) && f < |fs.files|
    ensures forall g: nat, m: nat :: m < MAXBLOCKS && Ptr(fs, g, m) != 0 ==> Ptr(fs, g, m) != fs.files[f].indirect
  {
    assert Ptr(fs, f, INDIRECT) == fs.files[f].indirect;
  }

  lemma AssignIndirectKeeps(fs: Fs, owner: Owners, f: nat, b: U32)
    requires Inv(fs, owner) && f < |fs.files| && fs.files[f].indirect == 0
    requires b < |fs.free| && fs.free[b]
    ensures Inv(AssignIndirect(fs, f, b), owner[b := (f, INDIRECT)]) && Grown(fs, AssignIndirect(fs, f, b))
    ensures PtrsPut(fs, AssignIndirect(fs, f, b), f, INDIRECT, b)
  {
    var fs' := AssignIndirect(fs, f, b);
    assert b !in owner;
    forall g: nat, m: nat | true
      ensures Ptr(fs', g, m) == if g == f && m == INDIRECT then b else Ptr(fs, g, m)
    {
      if g < |fs.files| && g != f { assert Ptr(fs, g, INDIRECT) == fs.files[g].indirect; }
    }
    OwnedPut(fs, fs', owner, f, INDIRECT, b);
  }

  lemma GrownTrans(a: Fs, b: Fs, c: Fs)
    requires Grown(a, b) && Grown(b, c)
    ensures Grown(a, c)
  {}

  // Besides slot n of file f, at most the file's indirect pointer was filled in.
  ghost predicate OnlySlot(fs: Fs, fs': Fs, f: nat, n: nat) {
    forall g: nat, m: nat :: (g != f || (m != n && m != INDIRECT)) ==> Ptr(fs', g, m) == Ptr(fs, g, m)
  }

  lemma WalkKeeps(fs: Fs, owner: Owners, f: nat, n: nat, alloc: bool) returns (owner': Owners)
    requires Inv(fs, owner) && f < |fs.files|
    ensures var r := Walk(fs, f, n, alloc);
      && !r.Panic?
      && (r.Err? ==> r.fs == fs && owner' == owner)
      && (r.Ok? ==> r.value == n && Inv(r.fs, owner') && Grown(fs, r.fs) && HasSlot(r.fs, f, n))
      && (r.Ok? ==> forall g: nat, m: nat :: (g != f || m != INDIRECT) ==> Ptr(r.fs, g, m) == Ptr(fs, g, m))
      && (r.Ok? && !alloc ==> r.fs == fs && owner' == owner)
  {
    owner' := owner;
    if NDIRECT <= n < MAXBLOCKS && fs.files[f].indirect == 0 && alloc {
      var free := FirstFree(fs.free, 0);
      if free.Some? {
        AssignIndirectKeeps(fs, owner, f, free.value);
        owner' := owner[free.value := (f, INDIRECT)];
      }
    }
  }

  // Asking for a block of the file within its size gives the block its slot already leads
  // to, or a free one that it leads to from now on.
  lemma GetBlockKeeps(fs: Fs, owner: Owners, f: nat, n: nat) returns (owner': Owners)
    requires Inv(fs, owner) && f < |fs.files| && n * BLKSIZE < fs.files[f].size
    ensures var r := GetBlock(fs, f, n);
      && (r.Err? ==> r.fs == fs && owner' == owner)
      && (r.Ok? ==>
            && Inv(r.fs, owner') && Grown(fs, r.fs) && OnlySlot(fs, r.fs, f, n) && n < MAXBLOCKS
            && Ptr(r.fs, f, n) == r.value && 0 < r.value < |fs.blocks|
            && (Ptr(fs, f, n) == 0 ==> fs.free[r.value]))
  {
    owner' := WalkKeeps(fs, owner, f, n, true);
    var r := Walk(fs, f, n, true);
    if r.Ok? && Ptr(r.fs, f, n) == 0 {
      var free := FirstFree(r.fs.free, 0);
      if free.Some? {
        AssignKeeps(r.fs, owner', f, n, free.value);
        GrownTrans(fs, r.fs, Assign(r.fs, f, n, free.value));
        FreeBefore(fs, owner, r.fs, owner', free.value);
        owner' := owner'[free.value := (f, n)];
      }
    }
  }

  lemma FreeBefore(fs: Fs, owner: Owners, fs': Fs, owner': Owners, b: U32)
    requires Inv(fs, owner) && Inv(fs', owner') && Grown(fs, fs') && b < |fs'.free| && fs'.free[b]
    ensures fs.free[b]
  {
    forall c: U32 | c in owner ensures c in owner' { assert Ptr(fs', owner[c].0, owner[c].1) == c; }
  }

  // After the first free block is taken, the next one is the first.
  lemma NextFree(free: seq<bool>, b: nat)
    requires FirstFree(free, 0) == Some(b)
    ensures FirstFree(free[b := false], 0).None? <==> FirstFree(free, b + 1).None?
  {
    var taken := free[b := false];
    var next, next' := FirstFree(taken, 0), FirstFree(free, b + 1);
    if next.Some? {
      assert next.value > b;
      assert free[next.value];
    }
    if next'.Some? { assert taken[next'.value]; }
  }

  // It panics exactly when the slot is empty and the disk is full, or has one block left and
  // the indirect block takes it: the error the slot's value is tested for never shows.
  lemma GetBlockPanics(fs: Fs, owner: Owners, f: nat, n: nat)
    requires Inv(fs, owner) && f < |fs.files| && n < MAXBLOCKS
    ensures GetBlock(fs, f, n).Panic? <==>
      && Ptr(fs, f, n) == 0
      && match FirstFree(fs.free, 0)
         case None => n < NDIRECT || fs.files[f].indirect != 0
         case Some(b) => n >= NDIRECT && fs.files[f].indirect == 0 && FirstFree(fs.free, b + 1).None?
    ensures GetBlock(fs, f, n).Err? <==> n >= NDIRECT && fs.files[f].indirect == 0 && FirstFree(fs.free, 0).None?
  {
    var free := FirstFree(fs.free, 0);
    if free.Some? { NextFree(fs.free, free.value); }
    if n < NDIRECT || fs.files[f].indirect != 0 {
      GetBlockWalked(fs, owner, f, n);
    } else {
      GetBlockNewTable(fs, owner, f, n);
    }
  }

  lemma GetBlockWalked(fs: Fs, owner: Owners, f: nat, n: nat)
    requires Inv(fs, owner) && f < |fs.files| && n < MAXBLOCKS && (n < NDIRECT || fs.files[f].indirect != 0)
    ensures GetBlock(fs, f, n).Panic? <==> Ptr(fs, f, n) == 0 && FirstFree(fs.free, 0).None?
    ensures !GetBlock(fs, f, n).Err?
  {
    assert Ptr(fs, f, n) != 0 ==> Ptr(fs, f, n) in owner;
    var free := FirstFree(fs.free, 0);
    assert free.Some? ==> free.value >= Reserved(|fs.blocks|) >= 2;
  }

  lemma GetBlockNewTable(fs: Fs, owner: Owners, f: nat, n: nat)
    requires Inv(fs, owner) && f < |fs.files| && NDIRECT <= n < MAXBLOCKS && fs.files[f].indirect == 0
    ensures Ptr(fs, f, n) == 0
    ensures FirstFree(fs.free, 0).None? ==> GetBlock(fs, f, n).Err?
    ensures FirstFree(fs.free, 0).Some? ==>
      !GetBlock(fs, f, n).Err? &&
      (GetBlock(fs, f, n).Panic? <==> FirstFree(fs.free[FirstFree(fs.free, 0).value := false], 0).None?)
  {
    var free := FirstFree(fs.free, 0);
    if free.Some? {
      assert free.value >= Reserved(|fs.blocks|) >= 2;
      AssignIndirectKeeps(fs, owner, f, free.value);
      var next := FirstFree(fs.free[free.value := false], 0);
      assert next.Some? ==> next.value >= 2;
    }
  }

  // ---- Contents ----

  // Byte k of slot n's block, if there is one.
  function ByteAt(fs: Fs, f: nat, n: nat, k: nat): Option<Byte> {
    var b := Ptr(fs, f, n);
    if n < MAXBLOCKS && 0 < b < |fs.blocks| && IsData(fs.blocks[b]) && k < BLKSIZE then Some(fs.blocks[b].bytes[k]) else None
  }

  // Byte pos of file f, if a block has been allocated for it.
  function Content(fs: Fs, f: nat, pos: nat): Option<Byte> { ByteAt(fs, f, pos / 4096, pos % 4096) }

  // The file has `data` from pos on.
  ghost predicate Has(fs: Fs, f: nat, pos: nat, data: seq<Byte>) {
    forall m: nat, j: nat {:trigger ByteAt(fs, f, m, j)} ::
      j < BLKSIZE && pos <= m * BLKSIZE + j < pos + |data| ==> ByteAt(fs, f, m, j) == Some(data[m * BLKSIZE + j - pos])
  }

  // Every byte there was is still there, except perhaps file f's from `from` to `to` - 1.
  ghost predicate KeptOutside(fs: Fs, fs': Fs, f: nat, from: nat, to: nat) {
    forall g: nat, m: nat, j: nat {:trigger ByteAt(fs', g, m, j)} ::
      j < BLKSIZE && (g != f || !(from <= m * BLKSIZE + j < to)) && ByteAt(fs, g, m, j).Some? ==>
        ByteAt(fs', g, m, j) == ByteAt(fs, g, m, j)
  }

  lemma BlockAndRest(pos: nat)
    ensures pos % BLKSIZE < BLKSIZE && pos / BLKSIZE * BLKSIZE + pos % BLKSIZE == pos
  {}

  lemma HasContent(fs: Fs, f: nat, pos: nat, data: seq<Byte>)
    requires Has(fs, f, pos, data)
    ensures forall i: nat :: i < |data| ==> Content(fs, f, pos + i) == Some(data[i])
  {
    forall i: nat | i < |data| ensures Content(fs, f, pos + i) == Some(data[i]) {
      var m, j := (pos + i) / BLKSIZE, (pos + i) % BLKSIZE;
      BlockAndRest(pos + i);
      assert ByteAt(fs, f, m, j) == Some(data[m * BLKSIZE + j - pos]);
    }
  }

  lemma KeptContent(fs: Fs, fs': Fs, f: nat, from: nat, to: nat)
    requires KeptOutside(fs, fs', f, from, to)
    ensures forall g: nat, pos: nat :: (g != f || !(from <= pos < to)) && Content(fs, g, pos).Some? ==>
      Content(fs', g, pos) == Content(fs, g, pos)
  {
    forall g: nat, pos: nat | (g != f || !(from <= pos < to)) && Content(fs, g, pos).Some?
      ensures Content(fs', g, pos) == Content(fs, g, pos)
    {
      var m, j := pos / BLKSIZE, pos % BLKSIZE;
      BlockAndRest(pos);
      assert ByteAt(fs', g, m, j) == ByteAt(fs, g, m, j);
    }
  }

  lemma GrownKeeps(fs: Fs, fs': Fs, f: nat, pos: nat)
    requires Grown(fs, fs')
    ensures KeptOutside(fs, fs', f, pos, pos)
  {
    forall g: nat, m: nat, j: nat | j < BLKSIZE && ByteAt(fs, g, m, j).Some? ensures ByteAt(fs', g, m, j) == ByteAt(fs, g, m, j) {
      assert Ptr(fs', g, m) == Ptr(fs, g, m);
    }
  }

  lemma KeptTrans(a: Fs, b: Fs, c: Fs, f: nat, from: nat, mid: nat, to: nat)
    requires KeptOutside(a, b, f, from, mid) && KeptOutside(b, c, f, mid, to) && from <= mid <= to
    ensures KeptOutside(a, c, f, from, to)
  {
    forall g: nat, m: nat, j: nat | j < BLKSIZE && (g != f || !(from <= m * BLKSIZE + j < to)) && ByteAt(a, g, m, j).Some?
      ensures ByteAt(c, g, m, j) == ByteAt(a, g, m, j)
    {
      assert ByteAt(b, g, m, j) == ByteAt(a, g, m, j);
    }
  }

  // memmove into a data block
  function PutBytes(fs: Fs, b: nat, off: nat, data: seq<Byte>): Fs
    requires b < |fs.blocks| && IsData(fs.blocks[b]) && off + |data| <= BLKSIZE
  {
    PutBlock(fs, b, Data(Spliced(fs.blocks[b].bytes, off, data)))
  }

  function Spliced(bytes: seq<Byte>, off: nat, data: seq<Byte>): (r: seq<Byte>)
    requires off + |data| <= |bytes|
    ensures |r| == |bytes|
    ensures forall k: nat :: k < |r| ==> r[k] == if off <= k < off + |data| then data[k - off] else bytes[k]
  {
    bytes[..off] + data + bytes[off + |data|..]
  }

  lemma PutBytesInv(fs: Fs, owner: Owners, f: nat, n: nat, off: nat, data: seq<Byte>)
    requires Inv(fs, owner) && f < |fs.files| && n < MAXBLOCKS && off + |data| <= BLKSIZE
    requires Ptr(fs, f, n) != 0
    ensures Ptr(fs, f, n) < |fs.blocks| && IsData(fs.blocks[Ptr(fs, f, n)])
    ensures var fs' := PutBytes(fs, Ptr(fs, f, n), off, data);
      && Inv(fs', owner) && fs'.files == fs.files
      && (forall g: nat, m: nat :: Ptr(fs', g, m) == Ptr(fs, g, m))
  {
    var b := Ptr(fs, f, n);
    assert b in owner;
    var fs' := PutBytes(fs, b, off, data);
    forall g: nat, m: nat | true ensures Ptr(fs', g, m) == Ptr(fs, g, m) {
      if g < |fs.files| { assert Ptr(fs, g, INDIRECT) == fs.files[g].indirect; }
    }
    forall g: nat | g < |fs.files| && fs.files[g].indirect != 0 ensures IsTable(fs'.blocks[fs.files[g].indirect]) {
      assert Ptr(fs, g, INDIRECT) == fs.files[g].indirect;
    }
  }

  // Storing data into slot n's block changes those bytes and no others of any file.
  lemma PutBytesKeeps(fs: Fs, owner: Owners, f: nat, n: nat, off: nat, data: seq<Byte>)
    requires Inv(fs, owner) && f < |fs.files| && n < MAXBLOCKS && off + |data| <= BLKSIZE
    requires Ptr(fs, f, n) != 0
    ensures Ptr(fs, f, n) < |fs.blocks| && IsData(fs.blocks[Ptr(fs, f, n)])
    ensures var fs' := PutBytes(fs, Ptr(fs, f, n), off, data);
      && Inv(fs', owner) && fs'.files == fs.files
      && Has(fs', f, n * BLKSIZE + off, data)
      && KeptOutside(fs, fs', f, n * BLKSIZE + off, n * BLKSIZE + off + |data|)
  {
    var b := Ptr(fs, f, n);
    PutBytesInv(fs, owner, f, n, off, data);
    var fs' := PutBytes(fs, b, off, data);
    forall g: nat, m: nat, j: nat | j < BLKSIZE
      ensures ByteAt(fs', g, m, j) == if g == f && m == n && off <= j < off + |data| then Some(data[j - off]) else ByteAt(fs, g, m, j)
    {
      if Ptr(fs, g, m) == b { assert owner[b] == (f, n); }
    }
  }

  // ---- file_read and file_write ----

  function Min(a: nat, b: nat): nat { if a < b then a else b }

  // Always so of the block file_get_block answers with.
  predicate Usable(fs: Fs, f: nat, b: U32) {
    f < |fs.files| && |fs.free| == |fs.blocks| < 0x10_0000 && b < |fs.blocks| && IsData(fs.blocks[b])
  }

  function Prepend(chunk: seq<Byte>, r: Outcome<seq<Byte>>): Outcome<seq<Byte>> {
    if r.Ok? then Ok(r.fs, chunk + r.value) else r
  }

  // The loop of file_read, with `len` bytes to go from byte k of block n.
  function ReadFrom(fs: Fs, f: nat, n: nat, k: nat, len: nat): Outcome<seq<Byte>>
    requires f < |fs.files| && |fs.free| == |fs.blocks| < 0x10_0000 && k < BLKSIZE
    decreases len
  {
    if len == 0 then Ok(fs, [])
    else match GetBlock(fs, f, n)
      case Panic => Panic
      case Err(fs1, code) => Err(fs1, code)
      case Ok(fs1, b) =>
        var bn := Min(BLKSIZE - k, len);
        if !Usable(fs1, f, b) then Panic
        else Prepend(fs1.blocks[b].bytes[k..k + bn], ReadFrom(fs1, f, n + 1, 0, len - bn))
  }

  function Read(fs: Fs, f: nat, count: nat, offset: nat): Outcome<seq<Byte>>
    requires f < |fs.files| && |fs.free| == |fs.blocks| < 0x10_0000
  {
    if offset >= fs.files[f].size then Ok(fs, [])
    else ReadFrom(fs, f, offset / BLKSIZE, offset % BLKSIZE, Min(count, fs.files[f].size - offset))
  }

  // The loop of file_write, with `data` to go at byte k of block n.
  function WriteFrom(fs: Fs, f: nat, n: nat, k: nat, data: seq<Byte>): Outcome<nat>
    requires f < |fs.files| && |fs.free| == |fs.blocks| < 0x10_0000 && k < BLKSIZE
    decreases |data|
  {
    if data == [] then Ok(fs, 0)
    else match GetBlock(fs, f, n)
      case Panic => Panic
      case Err(fs1, code) => Err(fs1, code)
      case Ok(fs1, b) =>
        var bn := Min(BLKSIZE - k, |data|);
        if !Usable(fs1, f, b) then Panic
        else WriteFrom(PutBytes(fs1, b, k, data[..bn]), f, n + 1, 0, data[bn..])
  }

  // The walk leads to a slot, and the slot to a block that exists.
  predicate Walks(fs: Fs, f: nat, n: nat)
    requires f < |fs.files| && |fs.free| == |fs.blocks| < 0x10_0000
  {
    var r := Walk(fs, f, n, true);
    r.Ok? ==> HasSlot(r.fs, f, n) && (Ptr(r.fs, f, n) == 0 || Ptr(r.fs, f, n) < |r.fs.blocks|)
  }

  // Asking for slot n of file f in a good state leads to a good state.
  ghost predicate BlockStep(good: Fs -> bool, fs: Fs, f: nat, n: nat) {
    f < |fs.files| && |fs.free| == |fs.blocks| < 0x10_0000 && Walks(fs, f, n) &&
    match GetBlock(fs, f, n)
    case Panic => true
    case Err(fs1, _) => fs1 == fs
    case Ok(fs1, b) => good(fs1) && Grown(fs, fs1) && Usable(fs1, f, b) && n < MAXBLOCKS && Ptr(fs1, f, n) == b && b > 0
  }

  ghost predicate BlockSteps(good: Fs -> bool, f: nat, size: int) {
    forall fs: Fs, n: nat {:trigger BlockStep(good, fs, f, n)} ::
      good(fs) && f < |fs.files| && fs.files[f].size == size && n * BLKSIZE < size ==> BlockStep(good, fs, f, n)
  }

  // What a read of len bytes at pos must have done.
  ghost predicate ReadDone(good: Fs -> bool, fs: Fs, f: nat, pos: nat, len: nat, r: Outcome<seq<Byte>>) {
    && (!r.Panic? ==> good(r.fs) && Grown(fs, r.fs))
    && (r.Ok? ==> |r.value| == len && Has(r.fs, f, pos, r.value))
  }

  lemma {:induction false} ReadKeeps(good: Fs -> bool, fs: Fs, f: nat, n: nat, k: nat, len: nat)
    requires good(fs) && f < |fs.files| && (len == 0 || n * BLKSIZE + k + len <= fs.files[f].size) && k < BLKSIZE
    requires |fs.free| == |fs.blocks| < 0x10_0000 && BlockSteps(good, f, fs.files[f].size)
    ensures ReadDone(good, fs, f, n * BLKSIZE + k, len, ReadFrom(fs, f, n, k, len))
    decreases len
  {
    if len > 0 {
      assert BlockStep(good, fs, f, n);
      var r := GetBlock(fs, f, n);
      if r.Ok? {
        var bn := Min(BLKSIZE - k, len);
        ReadKeeps(good, r.fs, f, n + 1, 0, len - bn);
        ReadJoins(good, fs, r.fs, f, n, k, bn, len, ReadFrom(r.fs, f, n + 1, 0, len - bn));
      }
    }
  }

  lemma ReadJoins(good: Fs -> bool, fs: Fs, fs1: Fs, f: nat, n: nat, k: nat, bn: nat, len: nat, r: Outcome<seq<Byte>>)
    requires var b := Ptr(fs1, f, n); n < MAXBLOCKS && 0 < b < |fs1.blocks| && IsData(fs1.blocks[b])
    requires k + bn <= BLKSIZE && bn <= len && (len > bn ==> k + bn == BLKSIZE)
    requires Grown(fs, fs1) && ReadDone(good, fs1, f, (n + 1) * BLKSIZE, len - bn, r)
    ensures ReadDone(good, fs, f, n * BLKSIZE + k, len, Prepend(fs1.blocks[Ptr(fs1, f, n)].bytes[k..k + bn], r))
  {
    var chunk := fs1.blocks[Ptr(fs1, f, n)].bytes[k..k + bn];
    if !r.Panic? { GrownTrans(fs, fs1, r.fs); }
    if r.Ok? { HasJoins(fs1, r.fs, f, n, k, bn, r.value); }
  }

  lemma HasJoins(fs: Fs, fs': Fs, f: nat, n: nat, k: nat, bn: nat, rest: seq<Byte>)
    requires var b := Ptr(fs, f, n); n < MAXBLOCKS && 0 < b < |fs.blocks| && IsData(fs.blocks[b])
    requires k + bn <= BLKSIZE && (rest != [] ==> k + bn == BLKSIZE) && Grown(fs, fs') && Has(fs', f, (n + 1) * BLKSIZE, rest)
    ensures Has(fs', f, n * BLKSIZE + k, fs.blocks[Ptr(fs, f, n)].bytes[k..k + bn] + rest)
  {
    var data := fs.blocks[Ptr(fs, f, n)].bytes[k..k + bn] + rest;
    var pos := n * BLKSIZE + k;
    GrownKeeps(fs, fs', f, 0);
    forall m: nat, j: nat | j < BLKSIZE && pos <= m * BLKSIZE + j < pos + |data|
      ensures ByteAt(fs', f, m, j) == Some(data[m * BLKSIZE + j - pos])
    {
      if m * BLKSIZE + j < pos + bn {
        assert m == n;
        assert ByteAt(fs', f, n, j) == ByteAt(fs, f, n, j);
      }
    }
  }

  // ---- The same for writing ----

  ghost predicate WriteDone(good: Fs -> bool, fs: Fs, f: nat, pos: nat, data: seq<Byte>, r: Outcome<nat>) {
    && (!r.Panic? ==> good(r.fs) && SameSizes(fs, r.fs) && KeptOutside(fs, r.fs, f, pos, pos + |data|))
    && (r.Ok? ==> Has(r.fs, f, pos, data))
  }

  ghost predicate SameSizes(fs: Fs, fs': Fs) {
    && |fs'.files| == |fs.files| && |fs'.blocks| == |fs.blocks|
    && forall f: nat :: f < |fs.files| ==> fs'.files[f].size == fs.files[f].size
  }

  // Storing into a block of the file leads from a good state to a good state.
  ghost predicate PutStep(good: Fs -> bool, fs: Fs, f: nat, n: nat, off: nat, data: seq<Byte>)
    requires n < MAXBLOCKS && off + |data| <= BLKSIZE
  {
    && Ptr(fs, f, n) < |fs.blocks| && IsData(fs.blocks[Ptr(fs, f, n)])
    && var fs' := PutBytes(fs, Ptr(fs, f, n), off, data);
       good(fs') && fs'.files == fs.files && |fs'.blocks| == |fs.blocks| && Has(fs', f, n * BLKSIZE + off, data)
       && KeptOutside(fs, fs', f, n * BLKSIZE + off, n * BLKSIZE + off + |data|)
  }

  ghost predicate PutSteps(good: Fs -> bool, f: nat) {
    forall fs: Fs, n: nat, off: nat, data: seq<Byte> {:trigger PutStep(good, fs, f, n, off, data)} ::
      n < MAXBLOCKS && off + |data| <= BLKSIZE && good(fs) && f < |fs.files| && Ptr(fs, f, n) != 0 ==>
        PutStep(good, fs, f, n, off, data)
  }

  lemma {:induction false} WriteKeeps(good: Fs -> bool, fs: Fs, f: nat, n: nat, k: nat, data: seq<Byte>)
    requires good(fs) && f < |fs.files| && (data == [] || n * BLKSIZE + k + |data| <= fs.files[f].size) && k < BLKSIZE
    requires |fs.free| == |fs.blocks| < 0x10_0000 && BlockSteps(good, f, fs.files[f].size) && PutSteps(good, f)
    ensures WriteDone(good, fs, f, n * BLKSIZE + k, data, WriteFrom(fs, f, n, k, data))
    decreases |data|
  {
    if data != [] {
      assert BlockStep(good, fs, f, n);
      var r := GetBlock(fs, f, n);
      if r.Ok? {
        var bn := Min(BLKSIZE - k, |data|);
        assert PutStep(good, r.fs, f, n, k, data[..bn]);
        var fs2 := PutBytes(r.fs, r.value, k, data[..bn]);
        WriteKeeps(good, fs2, f, n + 1, 0, data[bn..]);
        WriteJoins(good, fs, r.fs, fs2, f, n, k, data, bn, WriteFrom(fs2, f, n + 1, 0, data[bn..]));
      }
    }
  }

  lemma WriteJoins(good: Fs -> bool, fs: Fs, fs1: Fs, fs2: Fs, f: nat, n: nat, k: nat, data: seq<Byte>, bn: nat, r: Outcome<nat>)
    requires Grown(fs, fs1) && SameSizes(fs1, fs2) && bn <= |data| && (bn < |data| ==> k + bn == BLKSIZE) && k + bn <= BLKSIZE
    requires Has(fs2, f, n * BLKSIZE + k, data[..bn]) && KeptOutside(fs1, fs2, f, n * BLKSIZE + k, n * BLKSIZE + k + bn)
    requires WriteDone(good, fs2, f, (n + 1) * BLKSIZE, data[bn..], r)
    ensures WriteDone(good, fs, f, n * BLKSIZE + k, data, r)
  {
    var pos := n * BLKSIZE + k;
    if !r.Panic? {
      GrownKeeps(fs, fs1, f, pos);
      KeptTrans(fs, fs1, fs2, f, pos, pos, pos + bn);
      if bn < |data| {
        KeptTrans(fs, fs2, r.fs, f, pos, pos + bn, pos + |data|);
      } else {
        KeptNothing(fs, fs2, r.fs, f, pos, pos + bn, (n + 1) * BLKSIZE);
      }
    }
    if r.Ok? {
      HasBoth(fs2, r.fs, f, n, k, data, bn);
    }
  }

  lemma KeptNothing(a: Fs, b: Fs, c: Fs, f: nat, from: nat, to: nat, at: nat)
    requires KeptOutside(a, b, f, from, to) && KeptOutside(b, c, f, at, at)
    ensures KeptOutside(a, c, f, from, to)
  {
    forall g: nat, m: nat, j: nat | j < BLKSIZE && (g != f || !(from <= m * BLKSIZE + j < to)) && ByteAt(a, g, m, j).Some?
      ensures ByteAt(c, g, m, j) == ByteAt(a, g, m, j)
    {
      assert ByteAt(b, g, m, j) == ByteAt(a, g, m, j);
    }
  }

  lemma HasBoth(fs2: Fs, fs3: Fs, f: nat, n: nat, k: nat, data: seq<Byte>, bn: nat)
    requires bn <= |data| && (bn < |data| ==> k + bn == BLKSIZE) && k + bn <= BLKSIZE
    requires Has(fs2, f, n * BLKSIZE + k, data[..bn]) && Has(fs3, f, (n + 1) * BLKSIZE, data[bn..])
    requires KeptOutside(fs2, fs3, f, (n + 1) * BLKSIZE, (n + 1) * BLKSIZE + |data| - bn)
    ensures Has(fs3, f, n * BLKSIZE + k, data)
  {
    var pos := n * BLKSIZE + k;
    forall m: nat, j: nat | j < BLKSIZE && pos <= m * BLKSIZE + j < pos + |data|
      ensures ByteAt(fs3, f, m, j) == Some(data[m * BLKSIZE + j - pos])
    {
      if m * BLKSIZE + j < pos + bn {
        assert ByteAt(fs2, f, m, j) == Some(data[..bn][m * BLKSIZE + j - pos]);
      } else {
        assert ByteAt(fs3, f, m, j) == Some(data[bn..][m * BLKSIZE + j - (n + 1) * BLKSIZE]);
      }
    }
  }

  // ---- Truncation ----

  // file_free_block: no allocation, so no indirect block means nothing to do.
  function FreeFileBlock(fs: Fs, f: nat, n: nat): Fs
    requires f < |fs.files| && |fs.free| == |fs.blocks| < 0x10_0000
  {
    if !Walk(fs, f, n, false).Ok? || !HasSlot(fs, f, n) then fs
    else if Ptr(fs, f, n) == 0 || Ptr(fs, f, n) >= |fs.free| then fs
    else MarkFree(SetPtr(fs, f, n, 0), Ptr(fs, f, n), true)
  }

  // The loop of file_truncate_blocks over slots n .. end - 1.
  function FreeFrom(fs: Fs, f: nat, n: nat, end: nat): (fs': Fs)
    requires f < |fs.files| && |fs.free| == |fs.blocks| < 0x10_0000
    ensures |fs'.files| == |fs.files| && |fs'.free| == |fs'.blocks| == |fs.blocks|
    decreases end - n
  {
    if n >= end then fs else FreeFrom(FreeFileBlock(fs, f, n), f, n + 1, end)
  }

  function FreeIndirect(fs: Fs, f: nat): Fs
    requires f < |fs.files| && fs.files[f].indirect < |fs.free|
  {
    MarkFree(PutFile(fs, f, fs.files[f].(indirect := 0)), fs.files[f].indirect, true)
  }

  function Truncate(fs: Fs, f: nat, newsize: nat): (fs': Fs)
    requires f < |fs.files| && |fs.free| == |fs.blocks| < 0x10_0000 && fs.files[f].size >= 0
    ensures |fs'.files| == |fs.files|
  {
    var fs1 := FreeFrom(fs, f, Blocks(newsize), Blocks(fs.files[f].size));
    if Blocks(newsize) <= NDIRECT && 0 < fs1.files[f].indirect < |fs1.free| then FreeIndirect(fs1, f) else fs1
  }

  // file_set_size
  function SetSize(fs: Fs, f: nat, newsize: nat): Fs
    requires f < |fs.files| && |fs.free| == |fs.blocks| < 0x10_0000 && fs.files[f].size >= 0
  {
    var fs1 := if fs.files[f].size > newsize then Truncate(fs, f, newsize) else fs;
    PutFile(fs1, f, fs1.files[f].(size := newsize))
  }

  // ---- What truncation does ----

  // Slots n .. end - 1 of file f are empty now, and all others as before.
  ghost predicate Emptied(fs: Fs, fs': Fs, f: nat, n: nat, end: nat) {
    forall g: nat, m: nat :: Ptr(fs', g, m) == if g == f && n <= m < end && m < MAXBLOCKS then 0 else Ptr(fs, g, m)
  }

  // Owners are as before, less those slots.
  ghost predicate Dropped(owner: Owners, owner': Owners, f: nat, n: nat, end: nat) {
    forall b: U32 ::
      && (b in owner' <==> b in owner && !(owner[b].0 == f && n <= owner[b].1 < end && owner[b].1 < MAXBLOCKS))
      && (b in owner' ==> owner'[b] == owner[b])
  }

  ghost predicate SameData(fs: Fs, fs': Fs) {
    && SameSizes(fs, fs')
    && forall c: nat :: c < |fs.blocks| && IsData(fs.blocks[c]) ==> fs'.blocks[c] == fs.blocks[c]
  }

  lemma MarkFreePtrs(fs: Fs, p: nat)
    requires p < |fs.free|
    ensures forall g: nat, m: nat :: Ptr(MarkFree(fs, p, true), g, m) == Ptr(fs, g, m)
  {}

  lemma FreeBlockKeeps(fs: Fs, owner: Owners, f: nat, n: nat) returns (owner': Owners)
    requires Inv(fs, owner) && f < |fs.files|
    ensures var fs' := FreeFileBlock(fs, f, n);
      Inv(fs', owner') && Emptied(fs, fs', f, n, n + 1) && Dropped(owner, owner', f, n, n + 1) && SameData(fs, fs')
  {
    owner' := owner;
    var p := Ptr(fs, f, n);
    if n < MAXBLOCKS && p != 0 {
      assert p in owner;
      FreedSlot(fs, f, n, p);
      owner' := SlotFreed(fs, owner, f, n, p);
    }
  }

  lemma FreedSlot(fs: Fs, f: nat, n: nat, p: nat)
    requires f < |fs.files| && |fs.free| == |fs.blocks| < 0x10_0000 && n < MAXBLOCKS
    requires HasSlot(fs, f, n) && 0 < p == Ptr(fs, f, n) < |fs.free|
    ensures FreeFileBlock(fs, f, n) == MarkFree(SetPtr(fs, f, n, 0), p, true)
  {}

  lemma SlotFreed(fs: Fs, owner: Owners, f: nat, n: nat, p: nat) returns (owner': Owners)
    requires Inv(fs, owner) && f < |fs.files| && n < MAXBLOCKS && HasSlot(fs, f, n) && 0 < p == Ptr(fs, f, n) < |fs.free|
    ensures var fs' := MarkFree(SetPtr(fs, f, n, 0), p, true);
      Inv(fs', owner') && Emptied(fs, fs', f, n, n + 1) && Dropped(owner, owner', f, n, n + 1) && SameData(fs, fs')
  {
    assert p in owner;
    SetPtrPuts(fs, owner, f, n, 0);
    var fs1 := SetPtr(fs, f, n, 0);
    MarkFreePtrs(fs1, p);
    OwnedCleared(fs, MarkFree(fs1, p, true), owner, f, n, p);
    DataApart(fs, owner, f);
    owner' := owner - {p};
  }

  lemma EmptiedTrans(a: Fs, b: Fs, c: Fs, f: nat, n: nat, mid: nat, end: nat)
    requires Emptied(a, b, f, n, mid) && Emptied(b, c, f, mid, end) && n <= mid <= end
    ensures Emptied(a, c, f, n, end)
  {}

  lemma DroppedTrans(a: Owners, b: Owners, c: Owners, f: nat, n: nat, mid: nat, end: nat)
    requires Dropped(a, b, f, n, mid) && Dropped(b, c, f, mid, end) && n <= mid <= end
    ensures Dropped(a, c, f, n, end)
  {}

  lemma SameDataTrans(a: Fs, b: Fs, c: Fs)
    requires SameData(a, b) && SameData(b, c)
    ensures SameData(a, c)
  {}

  lemma {:induction false} FreeFromKeeps(fs: Fs, owner: Owners, f: nat, n: nat, end: nat) returns (owner': Owners)
    requires Inv(fs, owner) && f < |fs.files|
    ensures var fs' := FreeFrom(fs, f, n, end);
      Inv(fs', owner') && Emptied(fs, fs', f, n, end) && Dropped(owner, owner', f, n, end) && SameData(fs, fs')
    decreases end - n
  {
    owner' := owner;
    if n < end {
      var fs1 := FreeFileBlock(fs, f, n);
      var owner1 := FreeBlockKeeps(fs, owner, f, n);
      owner' := FreeFromKeeps(fs1, owner1, f, n + 1, end);
      var fs' := FreeFrom(fs1, f, n + 1, end);
      EmptiedTrans(fs, fs1, fs', f, n, n + 1, end);
      DroppedTrans(owner, owner1, owner', f, n, n + 1, end);
      SameDataTrans(fs, fs1, fs');
    }
  }

  // The indirect block goes once none of its entries is in use.
  lemma FreeIndirectKeeps(fs: Fs, owner: Owners, f: nat)
    requires Inv(fs, owner) && f < |fs.files| && fs.files[f].indirect != 0
    requires forall m: nat :: NDIRECT <= m < MAXBLOCKS ==> Ptr(fs, f, m) == 0
    ensures 0 < fs.files[f].indirect < |fs.free|
    ensures var fs' := FreeIndirect(fs, f);
      && Inv(fs', owner - {fs.files[f].indirect}) && SameData(fs, fs')
      && forall g: nat, m: nat :: Ptr(fs', g, m) == if g == f && m == INDIRECT then 0 else Ptr(fs, g, m)
  {
    var p := fs.files[f].indirect;
    assert Ptr(fs, f, INDIRECT) == p;
    var fs' := FreeIndirect(fs, f);
    forall g: nat, m: nat | true ensures Ptr(fs', g, m) == if g == f && m == INDIRECT then 0 else Ptr(fs, g, m) {
      if g == f { assert NDIRECT <= m < MAXBLOCKS ==> Ptr(fs, f, m) == 0; }
    }
    OwnedCleared(fs, fs', owner, f, INDIRECT, p);
  }

  lemma BlocksExact(n: nat, size: nat)
    ensures n < Blocks(size) <==> n * BLKSIZE < size
  {}

  // Whether truncating file f to newsize gives up slot n.
  predicate GivesUp(newsize: nat, n: nat) {
    (n < MAXBLOCKS && n * BLKSIZE >= newsize) || (n == INDIRECT && newsize <= NDIRECT * BLKSIZE)
  }

  ghost predicate Trimmed(fs: Fs, fs': Fs, f: nat, newsize: nat) {
    forall g: nat, m: nat :: Ptr(fs', g, m) == if g == f && GivesUp(newsize, m) then 0 else Ptr(fs, g, m)
  }

  lemma TruncateKeeps(fs: Fs, owner: Owners, f: nat, newsize: nat) returns (owner': Owners)
    requires Inv(fs, owner) && f < |fs.files| && newsize < fs.files[f].size
    ensures var fs' := Truncate(fs, f, newsize);
      Inv(fs', owner') && Trimmed(fs, fs', f, newsize) && SameData(fs, fs')
    ensures forall b: U32 :: b in owner' <==> b in owner && !(owner[b].0 == f && GivesUp(newsize, owner[b].1))
  {
    var size := fs.files[f].size;
    var fs1 := FreeFrom(fs, f, Blocks(newsize), Blocks(size));
    owner' := FreeFromKeeps(fs, owner, f, Blocks(newsize), Blocks(size));
    forall m: nat | m < MAXBLOCKS && m * BLKSIZE >= newsize ensures Ptr(fs1, f, m) == 0 {
      BlocksExact(m, newsize);
      BlocksExact(m, size);
    }
    forall m: nat | true ensures m < Blocks(newsize) <==> m * BLKSIZE < newsize { BlocksExact(m, newsize); }
    BlocksExact(NDIRECT, newsize);
    assert Ptr(fs1, f, INDIRECT) == fs1.files[f].indirect;
    if Blocks(newsize) <= NDIRECT && fs1.files[f].indirect != 0 {
      FreeIndirectKeeps(fs1, owner', f);
      SameDataTrans(fs, fs1, FreeIndirect(fs1, f));
      owner' := owner' - {fs1.files[f].indirect};
    }
    TrimmedOwners(fs, owner, Truncate(fs, f, newsize), owner', f, newsize);
  }

  // The owners after a truncation follow from the pointers.
  lemma TrimmedOwners(fs: Fs, owner: Owners, fs': Fs, owner': Owners, f: nat, newsize: nat)
    requires Inv(fs, owner) && Inv(fs', owner') && Trimmed(fs, fs', f, newsize)
    ensures forall b: U32 :: b in owner' <==> b in owner && !(owner[b].0 == f && GivesUp(newsize, owner[b].1))
  {
    forall b: U32 | true
      ensures b in owner' <==> b in owner && !(owner[b].0 == f && GivesUp(newsize, owner[b].1))
    {
      if b in owner { assert Ptr(fs, owner[b].0, owner[b].1) == b; }
      if b in owner' { assert Ptr(fs', owner'[b].0, owner'[b].1) == b; }
    }
  }

  // Whether block b belongs to file f and truncating it to newsize gives b up.
  predicate GivenUp(fs: Fs, owner: Owners, f: nat, newsize: nat, b: U32)
    requires f < |fs.files|
  {
    newsize < fs.files[f].size && b in owner && owner[b].0 == f && GivesUp(newsize, owner[b].1)
  }

  // Setting the size keeps ownership; it frees exactly the blocks the smaller file has no
  // use for, and every byte before the new size is as it was.
  lemma SetSizeKeeps(fs: Fs, owner: Owners, f: nat, newsize: nat) returns (owner': Owners)
    requires Inv(fs, owner) && f < |fs.files|
    ensures var fs' := SetSize(fs, f, newsize);
      && Inv(fs', owner') && |fs'.files| == |fs.files| && |fs'.blocks| == |fs.blocks|
      && (forall g: nat :: g < |fs.files| ==> fs'.files[g].size == if g == f then newsize else fs.files[g].size)
      && (if newsize < fs.files[f].size then Trimmed(fs, fs', f, newsize) else forall g: nat, m: nat :: Ptr(fs', g, m) == Ptr(fs, g, m))
      && (forall b: U32 :: b < |fs.free| ==> fs'.free[b] == (fs.free[b] || GivenUp(fs, owner, f, newsize, b)))
      && KeptBelow(fs, fs', f, newsize)
  {
    owner' := owner;
    var fs1 := fs;
    if newsize < fs.files[f].size {
      owner' := TruncateKeeps(fs, owner, f, newsize);
      fs1 := Truncate(fs, f, newsize);
    }
    var fs' := SetSize(fs, f, newsize);
    assert forall g: nat, m: nat :: Ptr(fs', g, m) == Ptr(fs1, g, m);
    SizeInv(fs1, fs', owner', f, newsize);
    SizeKeeps(fs, owner, fs', f, newsize);
  }

  lemma SizeInv(fs1: Fs, fs': Fs, owner: Owners, f: nat, newsize: nat)
    requires Inv(fs1, owner) && f < |fs1.files| && fs' == PutFile(fs1, f, fs1.files[f].(size := newsize))
    requires forall g: nat, m: nat :: Ptr(fs', g, m) == Ptr(fs1, g, m)
    requires newsize >= fs1.files[f].size || forall m: nat :: m < MAXBLOCKS && m * BLKSIZE >= newsize ==> Ptr(fs1, f, m) == 0
    ensures Inv(fs', owner)
  {}

  ghost predicate KeptBelow(fs: Fs, fs': Fs, f: nat, newsize: nat) {
    forall g: nat, m: nat, j: nat {:trigger ByteAt(fs', g, m, j)} ::
      j < BLKSIZE && (g != f || m * BLKSIZE + j < newsize) ==> ByteAt(fs', g, m, j) == ByteAt(fs, g, m, j)
  }

  lemma SizeKeeps(fs: Fs, owner: Owners, fs': Fs, f: nat, newsize: nat)
    requires Inv(fs, owner) && |fs'.blocks| == |fs.blocks|
    requires Trimmed(fs, fs', f, newsize) || forall g: nat, m: nat :: Ptr(fs', g, m) == Ptr(fs, g, m)
    requires forall c: nat :: c < |fs.blocks| && IsData(fs.blocks[c]) ==> fs'.blocks[c] == fs.blocks[c]
    ensures KeptBelow(fs, fs', f, newsize)
  {}

  // file_write
  function Write(fs: Fs, f: nat, data: seq<Byte>, offset: nat): Outcome<nat>
    requires f < |fs.files| && |fs.free| == |fs.blocks| < 0x10_0000 && fs.files[f].size >= 0
  {
    var fs1 := if offset + |data| > fs.files[f].size then SetSize(fs, f, offset + |data|) else fs;
    var r := WriteFrom(fs1, f, offset / BLKSIZE, offset % BLKSIZE, data);
    if r.Ok? then Ok(r.fs, |data|) else r
  }

  // ---- Whole operations ----

  ghost predicate Good(fs: Fs) { exists owner :: Inv(fs, owner) }

  lemma GoodSteps(f: nat, size: int)
    ensures BlockSteps(fs => Good(fs), f, size) && PutSteps(fs => Good(fs), f)
  {
    var good := (fs: Fs) => Good(fs);
    forall fs: Fs, n: nat | good(fs) && f < |fs.files| && fs.files[f].size == size && n * BLKSIZE < size
      ensures BlockStep(good, fs, f, n)
    {
      var owner: Owners :| Inv(fs, owner);
      var owner1 := WalkKeeps(fs, owner, f, n, true);
      var owner' := GetBlockKeeps(fs, owner, f, n);
    }
    forall fs: Fs, n: nat, off: nat, data: seq<Byte> |
      n < MAXBLOCKS && off + |data| <= BLKSIZE && good(fs) && f < |fs.files| && Ptr(fs, f, n) != 0
      ensures PutStep(good, fs, f, n, off, data)
    {
      var owner :| Inv(fs, owner);
      PutBytesKeeps(fs, owner, f, n, off, data);
    }
  }

  lemma GoodSized(fs: Fs)
    requires Good(fs)
    ensures Sized(fs)
  {
    var owner :| Inv(fs, owner);
  }

  // A read gives the bytes the file has, as far as it goes.
  lemma ReadCorrect(fs: Fs, f: nat, count: nat, offset: nat)
    requires Good(fs) && f < |fs.files|
    ensures Sized(fs)
    ensures var r := Read(fs, f, count, offset);
      && (!r.Panic? ==> Good(r.fs) && SameSizes(fs, r.fs) && KeptOutside(fs, r.fs, f, offset, offset))
      && (r.Ok? ==> |r.value| == (if offset >= fs.files[f].size then 0 else Min(count, fs.files[f].size - offset))
                    && Has(r.fs, f, offset, r.value))
  {
    GoodSized(fs);
    if offset < fs.files[f].size {
      BlockAndRest(offset);
      ReadRange(fs, f, offset / BLKSIZE, offset % BLKSIZE, Min(count, fs.files[f].size - offset), offset);
    }
  }

  lemma ReadRange(fs: Fs, f: nat, n: nat, k: nat, len: nat, pos: nat)
    requires Good(fs) && f < |fs.files| && pos == n * BLKSIZE + k && k < BLKSIZE && pos + len <= fs.files[f].size
    ensures Sized(fs)
    ensures var r := ReadFrom(fs, f, n, k, len);
      && (!r.Panic? ==> Good(r.fs) && SameSizes(fs, r.fs) && KeptOutside(fs, r.fs, f, pos, pos))
      && (r.Ok? ==> |r.value| == len && Has(r.fs, f, pos, r.value))
  {
    GoodSized(fs);
    GoodSteps(f, fs.files[f].size);
    ReadKeeps(fs => Good(fs), fs, f, n, k, len);
    var r := ReadFrom(fs, f, n, k, len);
    if !r.Panic? { GrownKeeps(fs, r.fs, f, pos); }
  }

  // A write extends the file if it must, puts its bytes where they belong, and leaves every
  // other byte of every file alone.
  lemma WriteCorrect(fs: Fs, f: nat, data: seq<Byte>, offset: nat)
    requires Good(fs) && f < |fs.files|
    ensures Sized(fs)
    ensures var r := Write(fs, f, data, offset);
      && (!r.Panic? ==>
            && Good(r.fs) && KeptOutside(fs, r.fs, f, offset, offset + |data|) && |r.fs.files| == |fs.files|
            && forall g: nat :: g < |fs.files| ==>
                 r.fs.files[g].size == if g == f && offset + |data| > fs.files[f].size then offset + |data| else fs.files[g].size)
      && (r.Ok? ==> r.value == |data| && Has(r.fs, f, offset, data))
  {
    GoodSized(fs);
    if offset + |data| > fs.files[f].size {
      ExtendCorrect(fs, f, offset + |data|, offset);
      WriteInto(fs, SetSize(fs, f, offset + |data|), f, data, offset);
    } else {
      WriteInto(fs, fs, f, data, offset);
    }
  }

  lemma ExtendCorrect(fs: Fs, f: nat, newsize: nat, pos: nat)
    requires Good(fs) && f < |fs.files| && newsize > fs.files[f].size
    ensures Sized(fs)
    ensures var fs' := SetSize(fs, f, newsize);
      && Good(fs') && KeptOutside(fs, fs', f, pos, pos) && |fs'.files| == |fs.files|
      && forall g: nat :: g < |fs.files| ==> fs'.files[g].size == if g == f then newsize else fs.files[g].size
  {
    var owner :| Inv(fs, owner);
    var owner' := SetSizeKeeps(fs, owner, f, newsize);
    assert Inv(SetSize(fs, f, newsize), owner');
    assert forall c: nat :: c < |fs.blocks| ==> SetSize(fs, f, newsize).blocks[c] == fs.blocks[c];
  }

  lemma TruncateCorrect(fs: Fs, f: nat, newsize: nat)
    requires Good(fs) && f < |fs.files|
    ensures Sized(fs)
    ensures var fs' := SetSize(fs, f, newsize);
      && Good(fs') && KeptBelow(fs, fs', f, newsize) && |fs'.files| == |fs.files|
      && forall g: nat :: g < |fs.files| ==> fs'.files[g].size == if g == f then newsize else fs.files[g].size
  {
    var owner :| Inv(fs, owner);
    var owner' := SetSizeKeeps(fs, owner, f, newsize);
    assert Inv(SetSize(fs, f, newsize), owner');
  }

  lemma WriteInto(fs: Fs, fs1: Fs, f: nat, data: seq<Byte>, offset: nat)
    requires Good(fs1) && f < |fs1.files| && offset + |data| <= fs1.files[f].size && KeptOutside(fs, fs1, f, offset, offset)
    ensures Sized(fs1)
    ensures var r := WriteFrom(fs1, f, offset / BLKSIZE, offset % BLKSIZE, data);
      && (!r.Panic? ==> Good(r.fs) && SameSizes(fs1, r.fs) && KeptOutside(fs, r.fs, f, offset, offset + |data|))
      && (r.Ok? ==> Has(r.fs, f, offset, data))
  {
    GoodSized(fs1);
    BlockAndRest(offset);
    WriteRange(fs, fs1, f, offset / BLKSIZE, offset % BLKSIZE, data, offset);
  }

  lemma WriteRange(fs: Fs, fs1: Fs, f: nat, n: nat, k: nat, data: seq<Byte>, pos: nat)
    requires Good(fs1) && f < |fs1.files| && pos == n * BLKSIZE + k && k < BLKSIZE
    requires pos + |data| <= fs1.files[f].size && KeptOutside(fs, fs1, f, pos, pos)
    ensures Sized(fs1)
    ensures var r := WriteFrom(fs1, f, n, k, data);
      && (!r.Panic? ==> Good(r.fs) && SameSizes(fs1, r.fs) && KeptOutside(fs, r.fs, f, pos, pos + |data|))
      && (r.Ok? ==> Has(r.fs, f, pos, data))
  {
    GoodSized(fs1);
    GoodSteps(f, fs1.files[f].size);
    WriteKeeps(fs => Good(fs), fs1, f, n, k, data);
    var r := WriteFrom(fs1, f, n, k, data);
    if !r.Panic? { KeptTrans(fs, fs1, r.fs, f, pos, pos, pos + |data|); }
  }

  // ---- Byte arrays ----

  function NewFile(): File { File(0, seq(NDIRECT, _ => 0), 0) }

  // For each file, the bytes written and not truncated since.
  type Known = seq<map<nat, Byte>>

  function Less(m: map<nat, Byte>, from: nat, to: nat): map<nat, Byte> { map p | p in m && !(from <= p < to) :: m[p] }

  function Below(m: map<nat, Byte>, size: nat): map<nat, Byte> { map p | p in m && p < size :: m[p] }

  function Put(m: map<nat, Byte>, offset: nat, data: seq<Byte>): (r: map<nat, Byte>)
    ensures forall p: nat :: p in r <==> p in m || offset <= p < offset + |data|
    ensures forall p: nat :: p in r ==> r[p] == if offset <= p < offset + |data| then data[p - offset] else m[p]
  {
    if data == [] then m
    else
      var last := |data| - 1;
      Put(m, offset, data[..last])[offset + last := data[last]]
  }

  // The file system has every byte the byte arrays have.
  ghost predicate Agrees(fs: Fs, known: Known) {
    && |known| == |fs.files|
    && forall f: nat, p: nat :: f < |known| && p in known[f] ==> Content(fs, f, p) == Some(known[f][p])
  }

  // Bytes a read gives agree with the byte array wherever that has one.
  ghost predicate ReadAgrees(known: Known, f: nat, offset: nat, value: seq<Byte>) {
    f < |known| ==> forall i: nat :: i < |value| && offset + i in known[f] ==> value[i] == known[f][offset + i]
  }

  predicate NoPointers(g: File) { g.indirect == 0 && forall i :: 0 <= i < |g.direct| ==> g.direct[i] == 0 }

  function Added(fs: Fs, g: File): Fs { fs.(files := fs.files + [g]) }

  // A file without pointers adds none.
  lemma AddedPtrs(fs: Fs, g: File, f: nat, m: nat)
    requires NoPointers(g)
    ensures Ptr(Added(fs, g), f, m) == Ptr(fs, f, m)
  {}

  lemma AddedInv(fs: Fs, owner: Owners, g: File)
    requires Inv(fs, owner) && NoPointers(g) && |g.direct| == NDIRECT && g.size >= 0
    ensures Inv(Added(fs, g), owner)
  {
    forall f: nat, m: nat | true ensures Ptr(Added(fs, g), f, m) == Ptr(fs, f, m) { AddedPtrs(fs, g, f, m); }
  }

  // One more file keeps ownership exact if and only if it has no pointers: any other pointer
  // leads to a block that is free, reserved, or some other file's.
  lemma AddedExactly(fs: Fs, g: File)
    requires Good(fs) && |g.direct| == NDIRECT && g.size >= 0
    ensures Good(Added(fs, g)) <==> NoPointers(g)
  {
    var owner: Owners :| Inv(fs, owner);
    if NoPointers(g) {
      AddedInv(fs, owner, g);
    } else if Good(Added(fs, g)) {
      var owner': Owners :| Inv(Added(fs, g), owner');
      PointerTaken(fs, owner, g, owner');
    }
  }

  lemma PointerTaken(fs: Fs, owner: Owners, g: File, owner': Owners)
    requires Inv(fs, owner) && Inv(Added(fs, g), owner')
    ensures NoPointers(g)
  {
    var fs', f := Added(fs, g), |fs.files|;
    forall m: nat | m < NDIRECT || m == INDIRECT ensures Ptr(fs', f, m) == 0 {
      var p := Ptr(fs', f, m);
      if p != 0 {
        assert p in owner' && owner'[p] == (f, m) && !fs.free[p];
        assert p in owner && Ptr(fs, owner[p].0, owner[p].1) == p;
        OldPtr(fs, g, owner[p].0, owner[p].1);
      }
    }
    assert g.indirect == Ptr(fs', f, INDIRECT);
    forall i | 0 <= i < NDIRECT ensures g.direct[i] == 0 { assert g.direct[i] == Ptr(fs', f, i); }
  }

  lemma OldPtr(fs: Fs, g: File, f: nat, m: nat)
    requires f < |fs.files|
    ensures Ptr(Added(fs, g), f, m) == Ptr(fs, f, m)
  {}

  lemma AddedAgrees(fs: Fs, known: Known, g: File)
    requires Good(fs) && Agrees(fs, known) && NoPointers(g) && |g.direct| == NDIRECT && g.size >= 0
    ensures Good(Added(fs, g)) && Agrees(Added(fs, g), known + [map[]])
  {
    AddedExactly(fs, g);
    var fs', known' := Added(fs, g), known + [map[]];
    forall f: nat, p: nat | f < |known'| && p in known'[f] ensures Content(fs', f, p) == Some(known'[f][p]) {
      AddedPtrs(fs, g, f, p / BLKSIZE);
      assert Content(fs, f, p) == Some(known[f][p]);
    }
  }

  lemma ReadAgreement(fs: Fs, known: Known, f: nat, count: nat, offset: nat)
    requires Good(fs) && Agrees(fs, known) && f < |fs.files|
    ensures Sized(fs)
    ensures var r := Read(fs, f, count, offset);
      && (!r.Panic? ==> Good(r.fs) && Agrees(r.fs, known))
      && (r.Ok? ==> ReadAgrees(known, f, offset, r.value))
  {
    ReadCorrect(fs, f, count, offset);
    var r := Read(fs, f, count, offset);
    if !r.Panic? { KeptContent(fs, r.fs, f, offset, offset); }
    if r.Ok? { ReadValue(r.fs, known, f, count, offset, r.value); }
  }

  lemma ReadValue(fs: Fs, known: Known, f: nat, count: nat, offset: nat, value: seq<Byte>)
    requires Agrees(fs, known) && Has(fs, f, offset, value)
    ensures ReadAgrees(known, f, offset, value)
  {
    HasContent(fs, f, offset, value);
    ValueAgrees(fs, known, f, count, offset, value);
  }

  lemma ValueAgrees(fs: Fs, known: Known, f: nat, count: nat, offset: nat, value: seq<Byte>)
    requires Agrees(fs, known) && forall i: nat :: i < |value| ==> Content(fs, f, offset + i) == Some(value[i])
    ensures ReadAgrees(known, f, offset, value)
  {}

  // A write that fails leaves its range unspecified.
  function WriteKnown(known: Known, f: nat, data: seq<Byte>, offset: nat, ok: bool): Known
    requires f < |known|
  {
    known[f := if ok then Put(known[f], offset, data) else Less(known[f], offset, offset + |data|)]
  }

  lemma WriteAgreement(fs: Fs, known: Known, f: nat, data: seq<Byte>, offset: nat)
    requires Good(fs) && Agrees(fs, known) && f < |fs.files|
    ensures Sized(fs)
    ensures var r := Write(fs, f, data, offset);
      !r.Panic? ==> Good(r.fs) && Agrees(r.fs, WriteKnown(known, f, data, offset, r.Ok?))
  {
    WriteCorrect(fs, f, data, offset);
    var r := Write(fs, f, data, offset);
    if !r.Panic? { KeptContent(fs, r.fs, f, offset, offset + |data|); }
    if r.Ok? { HasContent(r.fs, f, offset, data); }
    var known' := WriteKnown(known, f, data, offset, r.Ok?);
    if !r.Panic? {
      forall g: nat, p: nat | g < |known'| && p in known'[g] ensures Content(r.fs, g, p) == Some(known'[g][p]) {
        if g == f && offset <= p < offset + |data| {
          assert Content(r.fs, f, offset + (p - offset)) == Some(data[p - offset]);
        } else {
          assert p in known[g] && known'[g][p] == known[g][p];
          assert Content(fs, g, p) == Some(known[g][p]);
        }
      }
    }
  }

  lemma SetSizeAgreement(fs: Fs, known: Known, f: nat, newsize: nat)
    requires Good(fs) && Agrees(fs, known) && f < |fs.files|
    ensures Sized(fs)
    ensures Good(SetSize(fs, f, newsize)) && Agrees(SetSize(fs, f, newsize), known[f := Below(known[f], newsize)])
  {
    TruncateCorrect(fs, f, newsize);
    var fs' := SetSize(fs, f, newsize);
    forall g: nat, p: nat | g < |known| && p in known[g] && (g != f || p < newsize) ensures Content(fs', g, p) == Some(known[g][p]) {
      var m, j := p / BLKSIZE, p % BLKSIZE;
      BlockAndRest(p);
      assert ByteAt(fs', g, m, j) == ByteAt(fs, g, m, j);
      assert Content(fs, g, p) == Some(known[g][p]);
    }
  }

  // What ownership means: no two slots of any files lead to the same block, and a block is
  // free exactly if it is not reserved and no slot leads to it.
  lemma OwnershipMeans(fs: Fs)
    requires Good(fs)
    ensures Sized(fs)
    ensures forall f: nat, n: nat, g: nat, m: nat {:trigger Ptr(fs, f, n), Ptr(fs, g, m)} ::
      Ptr(fs, f, n) != 0 && Ptr(fs, f, n) == Ptr(fs, g, m) ==> f == g && n == m
    ensures forall f: nat, n: nat :: Ptr(fs, f, n) != 0 ==> Reserved(|fs.blocks|) <= Ptr(fs, f, n) < |fs.blocks| && !fs.free[Ptr(fs, f, n)]
    ensures forall b: U32 :: b < |fs.blocks| && !fs.free[b] && b >= Reserved(|fs.blocks|) ==> exists f: nat, n: nat :: Ptr(fs, f, n) == b
  {
    var owner: Owners :| Inv(fs, owner);
    forall b: U32 | b < |fs.blocks| && !fs.free[b] && b >= Reserved(|fs.blocks|) ensures exists f: nat, n: nat :: Ptr(fs, f, n) == b {
      assert Ptr(fs, owner[b].0, owner[b].1) == b;
    }
  }
}
