/** Making a new entry in a directory: dir_alloc_file and the end of file_create. */
module FileCreation {
  import opened Words
  import opened FileSystem
  import opened FileServer
  import opened Directory

  // ---- dir_alloc_file ----

  // The first unnamed entry of a block, from j on.
  function FindFree(bytes: seq<Byte>, j: nat): (r: Option<nat>)
    requires |bytes| == BLKSIZE
    ensures r.Some? ==> j <= r.value < BLKFILES && bytes[Off(r.value)] == 0
    ensures r.None? ==> forall k: nat :: j <= k < BLKFILES ==> bytes[Off(k)] != 0
    decreases BLKFILES - j
  {
    if j >= BLKFILES then None else if bytes[Off(j)] == 0 then Some(j) else FindFree(bytes, j + 1)
  }

  function OneMore(fs: Fs, d: nat): Fs
    requires d < |fs.files|
  {
    PutFile(fs, d, fs.files[d].(size := fs.files[d].size + BLKSIZE))
  }

  // From block i on. When every entry has a name, the directory gets one more block.
  function AllocFrom(fs: Fs, d: nat, i: nat): (r: Outcome<(nat, nat)>)
    requires d < |fs.files| && |fs.free| == |fs.blocks| < 0x10_0000
    ensures r.Ok? ==> r.value.1 < BLKFILES
    decreases BlockCount(fs, d) - i
  {
    if i >= BlockCount(fs, d) then
      match GetBlock(OneMore(fs, d), d, i)
      case Panic => Panic
      case Err(fs1, code) => Err(fs1, code)
      case Ok(fs1, _) => Ok(fs1, (i, 0))
    else match GetBlock(fs, d, i)
      case Panic => Panic
      case Err(fs1, code) => Err(fs1, code)
      case Ok(fs1, b) =>
        if !Usable(fs1, d, b) || BlockCount(fs1, d) != BlockCount(fs, d) then Panic
        else match FindFree(fs1.blocks[b].bytes, 0)
          case Some(j) => Ok(fs1, (i, j))
          case None => AllocFrom(fs1, d, i + 1)
  }

  // strcpy(f->f_name, name)
  function SetName(fs: Fs, d: nat, i: nat, j: nat, name: seq<Byte>): Outcome<(nat, nat)> {
    var b := Ptr(fs, d, i);
    if b < |fs.blocks| && IsData(fs.blocks[b]) && Off(j) + |name| < BLKSIZE then Ok(PutBytes(fs, b, Off(j), name + [0]), (i, j)) else Panic
  }

  // file_create once walk_path has found the directory and the name is not there
  function CreateIn(fs: Fs, d: nat, name: seq<Byte>): Outcome<(nat, nat)>
    requires d < |fs.files| && |fs.free| == |fs.blocks| < 0x10_0000
  {
    match AllocFrom(fs, d, 0)
    case Panic => Panic
    case Err(fs1, code) => Err(fs1, code)
    case Ok(fs1, slot) => SetName(fs1, d, slot.0, slot.1, name)
  }

  predicate Unused(fs: Fs, d: nat, i: nat, j: nat) { Off(j) < BLKSIZE && BytesOf(fs, d, i)[Off(j)] == 0 }

  // The answer is an unused entry, or all are in use and the directory grows.
  lemma {:induction false} AllocFinds(fs: Fs, d: nat, i: nat)
    requires Whole(fs, d) && i <= BlockCount(fs, d)
    requires forall i': nat, j': nat {:trigger Unused(fs, d, i', j')} :: i' < i && j' < BLKFILES ==> !Unused(fs, d, i', j')
    ensures var r := AllocFrom(fs, d, i);
      if r.Ok? && r.value.0 < BlockCount(fs, d) then r.fs == fs && r.value.1 < BLKFILES && Unused(fs, d, r.value.0, r.value.1)
      else r == Grow(fs, d) && forall i': nat, j': nat {:trigger Unused(fs, d, i', j')} ::
        i' < BlockCount(fs, d) && j' < BLKFILES ==> !Unused(fs, d, i', j')
    decreases BlockCount(fs, d) - i
  {
    if i < BlockCount(fs, d) {
      WholeBlock(fs, d, i);
      assert forall j': nat {:trigger Unused(fs, d, i, j')} :: j' < BLKFILES ==> (Unused(fs, d, i, j') <==> BytesOf(fs, d, i)[Off(j')] == 0);
      if FindFree(BytesOf(fs, d, i), 0).None? { AllocFinds(fs, d, i + 1); }
    }
  }

  function Grow(fs: Fs, d: nat): Outcome<(nat, nat)>
    requires d < |fs.files| && |fs.free| == |fs.blocks| < 0x10_0000 && fs.files[d].size >= 0
  {
    match GetBlock(OneMore(fs, d), d, BlockCount(fs, d))
    case Panic => Panic
    case Err(fs1, code) => Err(fs1, code)
    case Ok(fs1, _) => Ok(fs1, (BlockCount(fs, d), 0))
  }

  // ---- strcpy into an entry ----

  lemma FarApart(j: nat, k: nat, name: seq<Byte>)
    requires j < BLKFILES && k < BLKFILES && j != k && Proper(name)
    ensures Off(k) + FILESIZE <= BLKSIZE && Off(j) + |name| < BLKSIZE
    ensures Off(k) + FILESIZE <= Off(j) || Off(j) + |name| + 1 <= Off(k)
  {}

  // Other entries of the block do not change; this one gets the name and keeps its fields.
  lemma OtherEntry(bytes: seq<Byte>, j: nat, k: nat, name: seq<Byte>)
    requires |bytes| == BLKSIZE && j < BLKFILES && k < BLKFILES && j != k && Proper(name)
    ensures Off(j) + |name| < BLKSIZE && Off(k) + FILESIZE <= BLKSIZE
    ensures Spliced(bytes, Off(j), name + [0])[Off(k)..Off(k) + FILESIZE] == bytes[Off(k)..Off(k) + FILESIZE]
  {
    FarApart(j, k, name);
  }

  lemma OtherName(bytes: seq<Byte>, j: nat, k: nat, name: seq<Byte>, n: seq<Byte>)
    requires |bytes| == BLKSIZE && j < BLKFILES && k < BLKFILES && j != k && Proper(name) && Proper(n)
    ensures Off(j) + |name| < BLKSIZE
    ensures NameIs(Spliced(bytes, Off(j), name + [0]), Off(k), n) <==> NameIs(bytes, Off(k), n)
  {
    OtherEntry(bytes, j, k, name);
    var slot := bytes[Off(k)..Off(k) + FILESIZE];
    NameInSlot(bytes, Off(k), slot, n);
    NameInSlot(Spliced(bytes, Off(j), name + [0]), Off(k), slot, n);
  }

  lemma OwnName(bytes: seq<Byte>, j: nat, name: seq<Byte>, n: seq<Byte>)
    requires |bytes| == BLKSIZE && j < BLKFILES && Proper(name) && Proper(n)
    ensures Off(j) + FILESIZE <= BLKSIZE
    ensures NameIs(Spliced(bytes, Off(j), name + [0]), Off(j), n) <==> n == name
    ensures FileAt(Spliced(bytes, Off(j), name + [0]), Off(j)) == FileAt(bytes, Off(j))
  {
    var bytes' := Spliced(bytes, Off(j), name + [0]);
    assert bytes'[Off(j)..Off(j) + |name|] == name && bytes'[Off(j) + |name|] == 0;
    OneName(bytes', Off(j), name, n);
    SameFields(bytes, bytes', Off(j));
  }

  lemma SameFields(bytes: seq<Byte>, bytes': seq<Byte>, off: nat)
    requires off + FILESIZE <= |bytes| == |bytes'| && forall x: nat :: off + 128 <= x < off + FILESIZE ==> bytes'[x] == bytes[x]
    ensures FileAt(bytes', off) == FileAt(bytes, off)
  {
    var f, g := FileAt(bytes, off), FileAt(bytes', off);
    forall i: nat | i < NDIRECT ensures f.direct[i] == g.direct[i] { SameWord(bytes, bytes', off, off + 136 + 4 * i); }
    SameWord(bytes, bytes', off, off + 128);
    SameWord(bytes, bytes', off, off + 176);
    assert f.direct == g.direct;
  }

  lemma SameWord(bytes: seq<Byte>, bytes': seq<Byte>, off: nat, a: nat)
    requires off + FILESIZE <= |bytes| == |bytes'| && forall x: nat :: off + 128 <= x < off + FILESIZE ==> bytes'[x] == bytes[x]
    requires off + 128 <= a && a + 4 <= off + FILESIZE
    ensures WordAt(bytes', a) == WordAt(bytes, a)
  {}

  // An entry reads as an empty file exactly if its fields, apart from the type, are zero.
  predicate ZeroFields(slot: seq<Byte>) {
    forall x: nat :: x < |slot| && 128 <= x < 180 && !(132 <= x < 136) ==> slot[x] == 0
  }

  lemma EmptyFileExactly(bytes: seq<Byte>, off: nat)
    requires off + FILESIZE <= |bytes|
    ensures FileAt(bytes, off) == NewFile() <==> ZeroFields(bytes[off..off + FILESIZE])
  {
    var slot := bytes[off..off + FILESIZE];
    forall a: nat | a + 4 <= FILESIZE ensures WordAt(bytes, off + a) == WordAt(slot, a) { WordOfPart(bytes, off, slot, a); }
    FilesSame(bytes, off, slot);
    if ZeroFields(slot) { ZeroIsEmpty(slot); }
    if FileAt(slot, 0) == NewFile() {
      forall x: nat | 128 <= x < 180 && !(132 <= x < 136) ensures slot[x] == 0 { FieldByte(slot, x); }
    }
  }

  lemma ZeroIsEmpty(slot: seq<Byte>)
    requires |slot| == FILESIZE && ZeroFields(slot)
    ensures FileAt(slot, 0) == NewFile()
  {
    ZeroEnds(slot);
    forall i: nat | i < NDIRECT ensures FileAt(slot, 0).direct[i] == 0 { ZeroDirect(slot, i); }
    AllZero(FileAt(slot, 0).direct);
  }

  lemma AllZero(s: seq<U32>)
    requires |s| == NDIRECT && forall i: nat :: i < NDIRECT ==> s[i] == 0
    ensures s == NewFile().direct
  {}

  lemma ZeroEnds(slot: seq<Byte>)
    requires |slot| == FILESIZE && ZeroFields(slot)
    ensures FileAt(slot, 0).size == 0 && FileAt(slot, 0).indirect == 0
  {
    ZeroWord(slot, 128);
    ZeroWord(slot, 176);
  }

  lemma ZeroDirect(slot: seq<Byte>, i: nat)
    requires |slot| == FILESIZE && ZeroFields(slot) && i < NDIRECT
    ensures FileAt(slot, 0).direct[i] == 0
  {
    var a := 136 + 4 * i;
    ZeroWord(slot, a);
    DirectWord(slot, i, a);
  }

  lemma DirectWord(slot: seq<Byte>, i: nat, a: nat)
    requires |slot| == FILESIZE && i < NDIRECT && a == 136 + 4 * i
    ensures FileAt(slot, 0).direct[i] == WordAt(slot, a)
  {}

  lemma ZeroWord(slot: seq<Byte>, a: nat)
    requires |slot| == FILESIZE && ZeroFields(slot) && (a == 128 || 136 <= a <= 176)
    ensures WordAt(slot, a) == 0
  {}

  lemma FieldByte(slot: seq<Byte>, x: nat)
    requires |slot| == FILESIZE && FileAt(slot, 0) == NewFile() && 128 <= x < 180 && !(132 <= x < 136)
    ensures slot[x] == 0
  {
    if 136 <= x < 176 {
      var i := (x - 136) / 4;
      DirectWord(slot, i, 136 + 4 * i);
      ByteOfZero(slot, 136 + 4 * i, x);
    } else {
      ByteOfZero(slot, if x < 132 then 128 else 176, x);
    }
  }

  lemma ByteOfZero(slot: seq<Byte>, a: nat, x: nat)
    requires a + 4 <= |slot| && a <= x < a + 4 && WordAt(slot, a) == 0
    ensures slot[x] == 0
  {
    JoinOfZero(slot[a], slot[a + 1], slot[a + 2], slot[a + 3]);
    OneOfFour(slot, a, x);
  }

  lemma OneOfFour(slot: seq<Byte>, a: nat, x: nat)
    requires a + 4 <= |slot| && a <= x < a + 4 && slot[a] == slot[a + 1] == slot[a + 2] == slot[a + 3] == 0
    ensures slot[x] == 0
  {
    assert x == a || x == a + 1 || x == a + 2 || x == a + 3;
  }

  lemma JoinOfZero(b0: Byte, b1: Byte, b2: Byte, b3: Byte)
    requires Join(b0, b1, b2, b3) == 0
    ensures b0 == b1 == b2 == b3 == 0
  {}

  // ---- What file_create does to the directory ----

  // What block i of the directory held before it was, perhaps, added to the directory.
  function Before(fs: Fs, fs': Fs, d: nat, i: nat): seq<Byte>
    requires d < |fs.files|
  {
    if i < BlockCount(fs, d) then BytesOf(fs, d, i)
    else if Ptr(fs', d, i) < |fs.blocks| && fs.blocks[Ptr(fs', d, i)].Data? then fs.blocks[Ptr(fs', d, i)].bytes
    else if Ptr(fs', d, i) < |fs.blocks| then TableBytes(fs.blocks[Ptr(fs', d, i)].ptrs) else []
  }

  // A block newly given to a file is not cleared.
  lemma NewBlockUnzeroed(fs: Fs, owner: Owners, f: nat, n: nat)
    requires Inv(fs, owner) && f < |fs.files| && n * BLKSIZE < fs.files[f].size && Ptr(fs, f, n) == 0
    ensures var r := GetBlock(fs, f, n);
      r.Ok? ==> n < MAXBLOCKS && r.value < |fs.blocks| && fs.free[r.value] && r.fs.blocks[r.value] == AsData(fs.blocks[r.value])
  {
    var owner1 := WalkKeeps(fs, owner, f, n, true);
    var owner' := GetBlockKeeps(fs, owner, f, n);
    var r, w := GetBlock(fs, f, n), Walk(fs, f, n, true);
    if r.Ok? {
      assert Ptr(w.fs, f, n) == 0;
      assert w.fs.free[r.value];
      FreeIsNoTable(w.fs, owner1, f, r.value);
    }
  }

  lemma FreeIsNoTable(fs: Fs, owner: Owners, f: nat, b: U32)
    requires Inv(fs, owner) && f < |fs.files| && b < |fs.free| && fs.free[b]
    ensures fs.files[f].indirect != b
  {
    assert Ptr(fs, f, INDIRECT) == fs.files[f].indirect;
  }

  lemma SetNameEffect(fs: Fs, owner: Owners, d: nat, i: nat, j: nat, name: seq<Byte>)
    requires Inv(fs, owner) && Whole(fs, d) && i < BlockCount(fs, d) && j < BLKFILES && Proper(name)
    ensures var r := SetName(fs, d, i, j, name);
      && r.Ok? && r.value == (i, j) && Inv(r.fs, owner) && Whole(r.fs, d) && r.fs.files == fs.files
      && forall i': nat :: i' < BlockCount(fs, d) ==>
           BytesOf(r.fs, d, i') == if i' == i then Spliced(BytesOf(fs, d, i), Off(j), name + [0]) else BytesOf(fs, d, i')
  {
    InSize(fs.files[d].size, i);
    assert 0 < Ptr(fs, d, i);
    PutBytesInv(fs, owner, d, i, Off(j), name + [0]);
    var fs' := PutBytes(fs, Ptr(fs, d, i), Off(j), name + [0]);
    forall m: nat | m * BLKSIZE < fs.files[d].size ensures m < MAXBLOCKS && 0 < Ptr(fs', d, m) < |fs'.blocks| && IsData(fs'.blocks[Ptr(fs', d, m)]) {
      assert 0 < Ptr(fs, d, m);
    }
    forall i': nat | i' < BlockCount(fs, d) && i' != i ensures Ptr(fs, d, i') != Ptr(fs, d, i) {
      InSize(fs.files[d].size, i');
      assert Ptr(fs, d, i) in owner && owner[Ptr(fs, d, i)] == (d, i);
    }
  }

  lemma GrowEffect(fs: Fs, owner: Owners, d: nat) returns (owner': Owners)
    requires Inv(fs, owner) && Whole(fs, d)
    ensures var r := Grow(fs, d);
      r.Ok? ==>
        && Inv(r.fs, owner') && Whole(r.fs, d) && BlockCount(r.fs, d) == BlockCount(fs, d) + 1
        && r.value == (BlockCount(fs, d), 0)
        && forall i: nat :: i < BlockCount(r.fs, d) ==> BytesOf(r.fs, d, i) == Before(fs, r.fs, d, i)
  {
    var fs1, n := OneMore(fs, d), BlockCount(fs, d);
    assert forall g: nat, m: nat :: Ptr(fs1, g, m) == Ptr(fs, g, m);
    SizeInv(fs, fs1, owner, d, fs.files[d].size + BLKSIZE);
    InSize(fs.files[d].size, n);
    owner' := GetBlockKeeps(fs1, owner, d, n);
    if n < MAXBLOCKS { NewBlockUnzeroed(fs1, owner, d, n); }
    var r := GetBlock(fs1, d, n);
    if r.Ok? {
      forall i: nat | i < n + 1 ensures i < n ==> BytesOf(r.fs, d, i) == BytesOf(fs, d, i) { InSize(fs.files[d].size, i); }
      GrownIsWhole(fs, r.fs, owner', d);
    }
  }

  lemma GrownIsWhole(fs: Fs, fs': Fs, owner': Owners, d: nat)
    requires Whole(fs, d) && Inv(fs', owner') && Grown(OneMore(fs, d), fs') && |fs'.blocks| == |fs.blocks|
    requires var n := BlockCount(fs, d); n < MAXBLOCKS && 0 < Ptr(fs', d, n) < |fs'.blocks|
    ensures Whole(fs', d) && BlockCount(fs', d) == BlockCount(fs, d) + 1
  {
    forall m: nat | m * BLKSIZE < fs'.files[d].size ensures m < MAXBLOCKS && 0 < Ptr(fs', d, m) < |fs'.blocks| && IsData(fs'.blocks[Ptr(fs', d, m)]) {
      InSize(fs'.files[d].size, m);
      InSize(fs.files[d].size, m);
      assert Ptr(OneMore(fs, d), d, m) == Ptr(fs, d, m);
    }
  }

  // The directory has its old blocks, and one more if it had to grow; in them entry (i, j),
  // which was not in use, has the name now, and nothing else has changed.
  ghost predicate Created(fs: Fs, fs': Fs, d: nat, i: nat, j: nat, name: seq<Byte>) {
    && Whole(fs, d) && Whole(fs', d) && j < BLKFILES
    && (if i < BlockCount(fs, d) then Unused(fs, d, i, j) && BlockCount(fs', d) == BlockCount(fs, d)
        else i == BlockCount(fs, d) && j == 0 && BlockCount(fs', d) == i + 1)
    && (forall i': nat :: i' < BlockCount(fs', d) ==> |Before(fs, fs', d, i')| == BLKSIZE)
    && (forall i': nat {:trigger BytesOf(fs', d, i')} :: i' < BlockCount(fs', d) ==>
          BytesOf(fs', d, i') == WithName(Before(fs, fs', d, i'), i' == i, j, name))
  }

  function WithName(bytes: seq<Byte>, here: bool, j: nat, name: seq<Byte>): seq<Byte> {
    if here && Off(j) + |name| < |bytes| then Spliced(bytes, Off(j), name + [0]) else bytes
  }

  lemma CreateEffect(fs: Fs, d: nat, name: seq<Byte>)
    requires Good(fs) && Whole(fs, d) && Proper(name)
    ensures var r := CreateIn(fs, d, name); r.Ok? ==> Good(r.fs) && Created(fs, r.fs, d, r.value.0, r.value.1, name)
  {
    var owner: Owners :| Inv(fs, owner);
    var i, j := CreateSplits(fs, d, name);
    if i < BlockCount(fs, d) {
      InPlace(fs, owner, d, i, j, name);
    } else if Grow(fs, d).Ok? {
      InNewBlock(fs, owner, d, name);
    }
  }

  lemma CreateSplits(fs: Fs, d: nat, name: seq<Byte>) returns (i: nat, j: nat)
    requires Whole(fs, d)
    ensures i < BlockCount(fs, d) ==> j < BLKFILES && Unused(fs, d, i, j) && CreateIn(fs, d, name) == SetName(fs, d, i, j, name)
    ensures i >= BlockCount(fs, d) && Grow(fs, d).Ok? ==>
      CreateIn(fs, d, name) == SetName(Grow(fs, d).fs, d, BlockCount(fs, d), 0, name)
    ensures i >= BlockCount(fs, d) && !Grow(fs, d).Ok? ==> !CreateIn(fs, d, name).Ok?
  {
    AllocFinds(fs, d, 0);
    var a := AllocFrom(fs, d, 0);
    i, j := if a.Ok? then a.value.0 else BlockCount(fs, d), if a.Ok? then a.value.1 else 0;
  }

  lemma InPlace(fs: Fs, owner: Owners, d: nat, i: nat, j: nat, name: seq<Byte>)
    requires Inv(fs, owner) && Whole(fs, d) && i < BlockCount(fs, d) && j < BLKFILES && Unused(fs, d, i, j) && Proper(name)
    ensures var r := SetName(fs, d, i, j, name); r.Ok? && r.value == (i, j) && Good(r.fs) && Created(fs, r.fs, d, i, j, name)
  {
    SetNameEffect(fs, owner, d, i, j, name);
    var fs' := SetName(fs, d, i, j, name).fs;
    forall i': nat | i' < BlockCount(fs', d) ensures BytesOf(fs', d, i') == WithName(Before(fs, fs', d, i'), i' == i, j, name) {
      FarApart(j, if j == 0 then 1 else 0, name);
    }
  }

  lemma InNewBlock(fs: Fs, owner: Owners, d: nat, name: seq<Byte>)
    requires Inv(fs, owner) && Whole(fs, d) && Proper(name) && Grow(fs, d).Ok?
    ensures var n, r := BlockCount(fs, d), SetName(Grow(fs, d).fs, d, BlockCount(fs, d), 0, name);
      r.Ok? && r.value == (n, 0) && Good(r.fs) && Created(fs, r.fs, d, n, 0, name)
  {
    var owner1 := GrowEffect(fs, owner, d);
    var fs1, n := Grow(fs, d).fs, BlockCount(fs, d);
    SetNameEffect(fs1, owner1, d, n, 0, name);
    var fs' := SetName(fs1, d, n, 0, name).fs;
    SamePointer(fs1, owner1, d, n, name);
    forall i': nat | i' < BlockCount(fs', d) ensures BytesOf(fs', d, i') == WithName(Before(fs, fs', d, i'), i' == n, 0, name) {
      assert BytesOf(fs1, d, i') == Before(fs, fs1, d, i');
    }
  }

  lemma SamePointer(fs: Fs, owner: Owners, d: nat, n: nat, name: seq<Byte>)
    requires Inv(fs, owner) && Whole(fs, d) && n < BlockCount(fs, d) && Proper(name)
    ensures var r := SetName(fs, d, n, 0, name); r.Ok? && Ptr(r.fs, d, n) == Ptr(fs, d, n)
  {
    InSize(fs.files[d].size, n);
    assert 0 < Ptr(fs, d, n);
    PutBytesInv(fs, owner, d, n, Off(0), name + [0]);
  }

  // Which entries have which names afterwards.
  lemma NamesAfter(fs: Fs, fs': Fs, d: nat, i: nat, j: nat, name: seq<Byte>, i': nat, j': nat, n: seq<Byte>)
    requires Created(fs, fs', d, i, j, name) && Proper(name) && Proper(n) && i' < BlockCount(fs', d) && j' < BLKFILES
    ensures Named(fs', d, i', j', n) <==> if (i', j') == (i, j) then n == name else NameIs(Before(fs, fs', d, i'), Off(j'), n)
    ensures Off(j') + FILESIZE <= |Before(fs, fs', d, i')|
    ensures FileAt(BytesOf(fs', d, i'), Off(j')) == FileAt(Before(fs, fs', d, i'), Off(j'))
  {
    var bytes := Before(fs, fs', d, i');
    assert BytesOf(fs', d, i') == WithName(bytes, i' == i, j, name);
    if i' == i && j' != j {
      OtherName(bytes, j, j', name, n);
      OtherEntry(bytes, j, j', name);
      NameInSlot(bytes, Off(j'), bytes[Off(j')..Off(j') + FILESIZE], n);
      NameInSlot(BytesOf(fs', d, i'), Off(j'), bytes[Off(j')..Off(j') + FILESIZE], n);
    } else if i' == i {
      OwnName(bytes, j, name, n);
    }
  }

  // A name that was not in the directory is found where it was put.
  lemma CreateThenLookup(fs: Fs, fs': Fs, d: nat, i: nat, j: nat, name: seq<Byte>)
    requires Created(fs, fs', d, i, j, name) && Proper(name) && Absent(fs, d, name)
    ensures LookupFrom(fs', d, 0, name) == Ok(fs', (i, j))
  {
    NamesAfter(fs, fs', d, i, j, name, i, j, name);
    forall i': nat, j': nat | (i' < i && j' < BLKFILES) || (i' == i && j' < j) ensures !Named(fs', d, i', j', name) {
      NamesAfter(fs, fs', d, i, j, name, i', j', name);
      assert i' < BlockCount(fs, d) ==> !Named(fs, d, i', j', name);
    }
    LookupIsFirst(fs', d, i, j, name);
  }

  // Any other name that was found before is still found, with the same file.
  lemma OthersKept(fs: Fs, fs': Fs, d: nat, i: nat, j: nat, name: seq<Byte>, i': nat, j': nat, n: seq<Byte>)
    requires Created(fs, fs', d, i, j, name) && Proper(name) && Proper(n) && n != name && First(fs, d, i', j', n)
    ensures LookupFrom(fs', d, 0, n) == Ok(fs', (i', j'))
    ensures Off(j') + FILESIZE <= BLKSIZE && FileAt(BytesOf(fs', d, i'), Off(j')) == FileAt(BytesOf(fs, d, i'), Off(j'))
  {
    assert (i', j') != (i, j);
    NamesAfter(fs, fs', d, i, j, name, i', j', n);
    forall i1: nat, j1: nat | (i1 < i' && j1 < BLKFILES) || (i1 == i' && j1 < j') ensures !Named(fs', d, i1, j1, n) {
      NamesAfter(fs, fs', d, i, j, name, i1, j1, n);
      assert !Named(fs, d, i1, j1, n);
    }
    LookupIsFirst(fs', d, i', j', n);
  }

  // A name that was not there, other than the one created, appears exactly if the directory
  // grew by a block that happened to hold it.
  lemma PhantomsExactly(fs: Fs, fs': Fs, d: nat, i: nat, j: nat, name: seq<Byte>, n: seq<Byte>)
    requires Created(fs, fs', d, i, j, name) && Proper(name) && Proper(n) && n != name && Absent(fs, d, n)
    ensures LookupFrom(fs', d, 0, n) == Err(fs', -E_NOT_FOUND) <==>
      i < BlockCount(fs, d) || forall k: nat :: 0 < k < BLKFILES ==> !NameIs(Before(fs, fs', d, i), Off(k), n)
  {
    LookupFinds(fs', d, 0, n);
    forall i': nat, j': nat | i' < BlockCount(fs', d) && j' < BLKFILES
      ensures Named(fs', d, i', j', n) <==> i' >= BlockCount(fs, d) && j' > 0 && NameIs(Before(fs, fs', d, i), Off(j'), n)
    {
      NamesAfter(fs, fs', d, i, j, name, i', j', n);
      assert i' < BlockCount(fs, d) ==> !Named(fs, d, i', j', n);
    }
    if exists k: nat :: 0 < k < BLKFILES && i >= BlockCount(fs, d) && NameIs(Before(fs, fs', d, i), Off(k), n) {
      var k: nat :| 0 < k < BLKFILES && i >= BlockCount(fs, d) && NameIs(Before(fs, fs', d, i), Off(k), n);
      assert Named(fs', d, i, k, n);
    }
  }

  // The new file is empty exactly if the fields of its entry were zero before.
  lemma NewFileEmptyExactly(fs: Fs, fs': Fs, d: nat, i: nat, j: nat, name: seq<Byte>)
    requires Created(fs, fs', d, i, j, name) && Proper(name)
    ensures Off(j) + FILESIZE <= |Before(fs, fs', d, i)| == BLKSIZE
    ensures FileAt(BytesOf(fs', d, i), Off(j)) == NewFile() <==> ZeroFields(Before(fs, fs', d, i)[Off(j)..Off(j) + FILESIZE])
  {
    NamesAfter(fs, fs', d, i, j, name, i, j, name);
    EmptyFileExactly(Before(fs, fs', d, i), Off(j));
  }

  // ---- What file_create does to all the files ----

  // Nothing has happened to any file's bytes, or to any other file's size.
  ghost predicate Looked(fs: Fs, fs': Fs, d: nat) { SameOthers(fs, fs', d) && KeptOutside(fs, fs', d, 0, 0) }

  ghost predicate SameOthers(fs: Fs, fs': Fs, d: nat) {
    |fs'.files| == |fs.files| && forall g: nat :: g < |fs.files| && g != d ==> fs'.files[g].size == fs.files[g].size
  }

  lemma LookedTrans(a: Fs, b: Fs, c: Fs, d: nat)
    requires Looked(a, b, d) && Looked(b, c, d)
    ensures Looked(a, c, d)
  {
    KeptTrans(a, b, c, d, 0, 0, 0);
  }

  lemma OneMoreInv(fs: Fs, owner: Owners, d: nat)
    requires Inv(fs, owner) && d < |fs.files|
    ensures Inv(OneMore(fs, d), owner)
  {
    assert forall g: nat, m: nat :: Ptr(OneMore(fs, d), g, m) == Ptr(fs, g, m);
    SizeInv(fs, OneMore(fs, d), owner, d, fs.files[d].size + BLKSIZE);
  }

  lemma OneMoreGood(fs: Fs, d: nat)
    requires Good(fs) && d < |fs.files|
    ensures Good(OneMore(fs, d))
  {
    var owner: Owners :| Inv(fs, owner);
    OneMoreInv(fs, owner, d);
  }

  // One turn of dir_alloc_file's outer loop.
  lemma AllocTurn(fs: Fs, d: nat, i: nat)
    requires d < |fs.files| && |fs.free| == |fs.blocks| < 0x10_0000 && i < BlockCount(fs, d)
    ensures var r, g := AllocFrom(fs, d, i), GetBlock(fs, d, i);
      && (g.Panic? ==> r == Panic)
      && (g.Err? ==> r == Err(g.fs, g.code))
      && (g.Ok? && Usable(g.fs, d, g.value) && BlockCount(g.fs, d) == BlockCount(fs, d) ==>
            match FindFree(g.fs.blocks[g.value].bytes, 0)
            case Some(j) => r == Ok(g.fs, (i, j))
            case None => r == AllocFrom(g.fs, d, i + 1))
  {}

  // What dir_alloc_file must have done, for a property `good` that file_get_block keeps.
  ghost predicate AllocDone(good: Fs -> bool, fs: Fs, d: nat, r: Outcome<(nat, nat)>) {
    && (!r.Panic? ==> good(r.fs) && Looked(fs, r.fs, d))
    && (r.Ok? ==> Usable(r.fs, d, Ptr(r.fs, d, r.value.0)) && Ptr(r.fs, d, r.value.0) != 0 && r.value.0 < MAXBLOCKS)
  }

  ghost predicate GrowsGood(good: Fs -> bool, d: nat) {
    && (forall size: int {:trigger BlockSteps(good, d, size)} :: BlockSteps(good, d, size))
    && (forall fs: Fs {:trigger good(OneMore(fs, d))} :: good(fs) && d < |fs.files| ==> good(OneMore(fs, d)))
  }

  lemma OneMoreLooked(fs: Fs, d: nat)
    requires d < |fs.files|
    ensures Looked(fs, OneMore(fs, d), d)
  {
    assert forall g: nat, m: nat :: Ptr(OneMore(fs, d), g, m) == Ptr(fs, g, m);
  }

  lemma GrownLooked(fs: Fs, fs': Fs, d: nat)
    requires Grown(fs, fs')
    ensures Looked(fs, fs', d)
  {
    GrownKeeps(fs, fs', d, 0);
  }

  lemma {:induction false} AllocKeeps(good: Fs -> bool, fs: Fs, d: nat, i: nat)
    requires good(fs) && GrowsGood(good, d) && d < |fs.files| && |fs.free| == |fs.blocks| < 0x10_0000
    requires fs.files[d].size >= 0 && fs.files[d].size % BLKSIZE == 0 && i <= BlockCount(fs, d)
    ensures AllocDone(good, fs, d, AllocFrom(fs, d, i))
    decreases BlockCount(fs, d) - i
  {
    if i < BlockCount(fs, d) {
      InSize(fs.files[d].size, i);
      assert BlockSteps(good, d, fs.files[d].size) && BlockStep(good, fs, d, i);
      AllocTurn(fs, d, i);
      var g := GetBlock(fs, d, i);
      if g.Ok? {
        GrownLooked(fs, g.fs, d);
        if FindFree(g.fs.blocks[g.value].bytes, 0).None? {
          AllocKeeps(good, g.fs, d, i + 1);
          var r := AllocFrom(g.fs, d, i + 1);
          if !r.Panic? { LookedTrans(fs, g.fs, r.fs, d); }
        }
      } else if g.Err? {
        GrownLooked(fs, fs, d);
      }
    } else {
      GrowKeeps(good, fs, d);
    }
  }

  lemma GrowKeeps(good: Fs -> bool, fs: Fs, d: nat)
    requires good(fs) && GrowsGood(good, d) && d < |fs.files| && |fs.free| == |fs.blocks| < 0x10_0000
    requires fs.files[d].size >= 0 && fs.files[d].size % BLKSIZE == 0
    ensures AllocDone(good, fs, d, Grow(fs, d))
  {
    var fs1, n := OneMore(fs, d), BlockCount(fs, d);
    InSize(fs1.files[d].size, n);
    assert good(fs1) && BlockSteps(good, d, fs1.files[d].size) && BlockStep(good, fs1, d, n);
    OneMoreLooked(fs, d);
    var g := GetBlock(fs1, d, n);
    if g.Ok? {
      GrownLooked(fs1, g.fs, d);
      LookedTrans(fs, fs1, g.fs, d);
    }
  }

  // Where the name of entry j of block i goes.
  function NamePos(i: nat, j: nat): nat { 4096 * i + Off(j) }

  // However the directory is, file_create keeps ownership exact; when it succeeds the
  // directory has the name where it was put; and no other byte of any file has changed.
  lemma CreateKeeps(fs: Fs, d: nat, name: seq<Byte>)
    requires Good(fs) && d < |fs.files| && fs.files[d].size % BLKSIZE == 0 && Proper(name)
    ensures Sized(fs)
    ensures var r := CreateIn(fs, d, name);
      && (!r.Panic? ==> Good(r.fs) && SameOthers(fs, r.fs, d))
      && (r.Err? ==> KeptOutside(fs, r.fs, d, 0, 0))
      && (r.Ok? ==>
            var pos := NamePos(r.value.0, r.value.1);
            r.value.1 < BLKFILES && KeptOutside(fs, r.fs, d, pos, pos + |name| + 1) && Has(r.fs, d, pos, name + [0]))
  {
    GoodSized(fs);
    var good := (fs: Fs) => Good(fs);
    forall fs: Fs | good(fs) && d < |fs.files| ensures good(OneMore(fs, d)) { OneMoreGood(fs, d); }
    forall size: int | true ensures BlockSteps(good, d, size) { GoodSteps(d, size); }
    AllocKeeps(good, fs, d, 0);
    var a := AllocFrom(fs, d, 0);
    if a.Ok? { NameKeeps(fs, a.fs, d, a.value.0, a.value.1, name); }
  }

  lemma NameKeeps(fs: Fs, fs1: Fs, d: nat, i: nat, j: nat, name: seq<Byte>)
    requires Good(fs1) && Looked(fs, fs1, d) && Proper(name) && j < BLKFILES && i < MAXBLOCKS
    requires Usable(fs1, d, Ptr(fs1, d, i)) && Ptr(fs1, d, i) != 0
    ensures var r := SetName(fs1, d, i, j, name);
      && r.Ok? && r.value == (i, j) && Good(r.fs) && SameOthers(fs, r.fs, d)
      && KeptOutside(fs, r.fs, d, NamePos(i, j), NamePos(i, j) + |name| + 1) && Has(r.fs, d, NamePos(i, j), name + [0])
  {
    var owner: Owners :| Inv(fs1, owner);
    NameInv(fs1, owner, d, i, j, name);
    NothingThen(fs, fs1, SetName(fs1, d, i, j, name).fs, d, NamePos(i, j), NamePos(i, j) + |name| + 1);
  }

  lemma NameInv(fs: Fs, owner: Owners, d: nat, i: nat, j: nat, name: seq<Byte>)
    requires Inv(fs, owner) && Proper(name) && j < BLKFILES && i < MAXBLOCKS
    requires Usable(fs, d, Ptr(fs, d, i)) && Ptr(fs, d, i) != 0
    ensures var r := SetName(fs, d, i, j, name);
      && r.Ok? && r.value == (i, j) && Inv(r.fs, owner) && r.fs.files == fs.files
      && KeptOutside(fs, r.fs, d, NamePos(i, j), NamePos(i, j) + |name| + 1) && Has(r.fs, d, NamePos(i, j), name + [0])
  {
    FarApart(j, if j == 0 then 1 else 0, name);
    PutBytesKeeps(fs, owner, d, i, Off(j), name + [0]);
  }

  lemma NothingThen(a: Fs, b: Fs, c: Fs, d: nat, from: nat, to: nat)
    requires KeptOutside(a, b, d, 0, 0) && KeptOutside(b, c, d, from, to)
    ensures KeptOutside(a, c, d, from, to)
  {
    forall g: nat, m: nat, j: nat | j < BLKSIZE && (g != d || !(from <= m * BLKSIZE + j < to)) && ByteAt(a, g, m, j).Some?
      ensures ByteAt(c, g, m, j) == ByteAt(a, g, m, j)
    {
      assert ByteAt(b, g, m, j) == ByteAt(a, g, m, j);
    }
  }

  // ---- As code ----

  // strcmp over the entries of a block
  method FindEntry(bytes: seq<Byte>, name: seq<Byte>) returns (j: nat)
    requires |bytes| == BLKSIZE
    ensures j <= BLKFILES && FindIn(bytes, 0, name) == if j < BLKFILES then Some(j) else None
  {
    j := 0;
    while j < BLKFILES
      invariant j <= BLKFILES && FindIn(bytes, 0, name) == FindIn(bytes, j, name)
    {
      if 256 * j + |name| < |bytes| && bytes[256 * j..256 * j + |name|] == name && bytes[256 * j + |name|] == 0 { return; }
      j := j + 1;
    }
  }

  method FindUnused(bytes: seq<Byte>) returns (j: nat)
    requires |bytes| == BLKSIZE
    ensures j <= BLKFILES && FindFree(bytes, 0) == if j < BLKFILES then Some(j) else None
  {
    j := 0;
    while j < BLKFILES
      invariant j <= BLKFILES && FindFree(bytes, 0) == FindFree(bytes, j)
    {
      if bytes[256 * j] == 0 { return; }
      j := j + 1;
    }
  }

  // One turn of dir_lookup's outer loop; `good` is any property file_get_block keeps.
  method LookupBlock(server: Server, d: nat, i: nat, name: seq<Byte>, ghost good: Fs -> bool) returns (status: Status, j: nat)
    requires good(server.State()) && d < |server.files| && |server.free| == |server.blocks| < 0x10_0000
    requires i < BlockCount(server.State(), d) && i * BLKSIZE < server.files[d].size && BlockSteps(good, d, server.files[d].size)
    modifies server
    ensures !status.Done? ==> Matches(LookupFrom(old(server.State()), d, i, name), status, server.State())
    ensures status.Done? && j < BLKFILES ==> LookupFrom(old(server.State()), d, i, name) == Ok(server.State(), (i, j))
    ensures status.Done? && j >= BLKFILES ==>
      && good(server.State()) && d < |server.files| && |server.free| == |server.blocks| < 0x10_0000
      && server.files[d].size == old(server.files)[d].size
      && LookupFrom(old(server.State()), d, i, name) == LookupFrom(server.State(), d, i + 1, name)
  {
    assert BlockStep(good, server.State(), d, i);
    LookupTurn(server.State(), d, i, name);
    var b;
    status, b := server.FileGetBlock(d, i);
    j := 0;
    if status.Done? { j := FindEntry(server.blocks[b].bytes, name); }
  }

  method LookupLoop(server: Server, d: nat, name: seq<Byte>, ghost good: Fs -> bool) returns (status: Status, i: nat, j: nat)
    requires good(server.State()) && d < |server.files| && |server.free| == |server.blocks| < 0x10_0000
    requires server.files[d].size >= 0 && server.files[d].size % BLKSIZE == 0 && BlockSteps(good, d, server.files[d].size)
    modifies server
    ensures Matches(LookupFrom(old(server.State()), d, 0, name), status, server.State())
    ensures status.Done? ==> LookupFrom(old(server.State()), d, 0, name).value == (i, j)
  {
    var size := server.files[d].size;
    i, j := 0, 0;
    ghost var goal := LookupFrom(server.State(), d, 0, name);
    while i < size / BLKSIZE
      invariant good(server.State()) && d < |server.files| && |server.free| == |server.blocks| < 0x10_0000
      invariant server.files[d].size == size && goal == LookupFrom(server.State(), d, i, name)
    {
      InSize(size, i);
      status, j := LookupBlock(server, d, i, name, good);
      if !status.Done? || j < BLKFILES { return; }
      i := i + 1;
    }
    status := Failed(-E_NOT_FOUND);
  }

  // dir_lookup
  method DirLookup(server: Server, d: nat, name: seq<Byte>) returns (status: Status, i: nat, j: nat)
    requires Good(server.State()) && d < |server.files| && server.files[d].size % BLKSIZE == 0
    modifies server
    ensures Sized(old(server.State())) && Matches(LookupFrom(old(server.State()), d, 0, name), status, server.State())
    ensures status.Done? ==> LookupFrom(old(server.State()), d, 0, name).value == (i, j)
  {
    GoodSized(server.State());
    GoodSteps(d, server.files[d].size);
    status, i, j := LookupLoop(server, d, name, fs => Good(fs));
  }

  method UnusedInBlock(server: Server, d: nat, i: nat, ghost good: Fs -> bool) returns (status: Status, j: nat, b: U32)
    requires good(server.State()) && d < |server.files| && |server.free| == |server.blocks| < 0x10_0000
    requires i < BlockCount(server.State(), d) && i * BLKSIZE < server.files[d].size && BlockSteps(good, d, server.files[d].size)
    modifies server
    ensures !status.Done? ==> Matches(AllocFrom(old(server.State()), d, i), status, server.State())
    ensures status.Done? && j < BLKFILES ==> AllocFrom(old(server.State()), d, i) == Ok(server.State(), (i, j))
    ensures status.Done? && j < BLKFILES ==> Usable(server.State(), d, b) && Ptr(server.State(), d, i) == b
    ensures status.Done? && j >= BLKFILES ==>
      && good(server.State()) && d < |server.files| && |server.free| == |server.blocks| < 0x10_0000
      && server.files[d].size == old(server.files)[d].size
      && AllocFrom(old(server.State()), d, i) == AllocFrom(server.State(), d, i + 1)
  {
    assert BlockStep(good, server.State(), d, i);
    AllocTurn(server.State(), d, i);
    status, b := server.FileGetBlock(d, i);
    j := 0;
    if status.Done? { j := FindUnused(server.blocks[b].bytes); }
  }

  // The end of dir_alloc_file: the directory gets one more block.
  method AddBlock(server: Server, d: nat, i: nat, ghost good: Fs -> bool) returns (status: Status, b: U32)
    requires d < |server.files| && |server.free| == |server.blocks| < 0x10_0000
    requires i == BlockCount(server.State(), d) && i * BLKSIZE < server.files[d].size + BLKSIZE
    requires good(OneMore(server.State(), d)) && BlockSteps(good, d, server.files[d].size + BLKSIZE)
    modifies server
    ensures Matches(AllocFrom(old(server.State()), d, i), status, server.State())
    ensures status.Done? ==> AllocFrom(old(server.State()), d, i).value == (i, 0)
    ensures status.Done? ==> Usable(server.State(), d, b) && Ptr(server.State(), d, i) == b
  {
    assert BlockStep(good, OneMore(server.State(), d), d, i);
    server.files := server.files[d := server.files[d].(size := server.files[d].size + BLKSIZE)];
    status, b := server.FileGetBlock(d, i);
  }

  method AllocLoop(server: Server, d: nat, ghost good: Fs -> bool) returns (status: Status, i: nat, j: nat, b: U32)
    requires good(server.State()) && d < |server.files| && |server.free| == |server.blocks| < 0x10_0000
    requires server.files[d].size >= 0 && server.files[d].size % BLKSIZE == 0
    requires BlockSteps(good, d, server.files[d].size) && BlockSteps(good, d, server.files[d].size + BLKSIZE)
    requires forall fs: Fs {:trigger good(OneMore(fs, d))} :: good(fs) && d < |fs.files| ==> good(OneMore(fs, d))
    modifies server
    ensures Matches(AllocFrom(old(server.State()), d, 0), status, server.State())
    ensures status.Done? ==> AllocFrom(old(server.State()), d, 0).value == (i, j) && j < BLKFILES
    ensures status.Done? ==> Usable(server.State(), d, b) && Ptr(server.State(), d, i) == b
  {
    var size := server.files[d].size;
    i, j, b := 0, 0, 0;
    ghost var goal := AllocFrom(server.State(), d, 0);
    while i < size / BLKSIZE
      invariant i <= size / BLKSIZE
      invariant good(server.State()) && d < |server.files| && |server.free| == |server.blocks| < 0x10_0000
      invariant server.files[d].size == size && goal == AllocFrom(server.State(), d, i)
    {
      InSize(size, i);
      status, j, b := UnusedInBlock(server, d, i, good);
      if !status.Done? || j < BLKFILES { return; }
      i := i + 1;
    }
    InSize(size + BLKSIZE, i);
    j := 0;
    status, b := AddBlock(server, d, i, good);
  }

  // dir_alloc_file; b is the block the entry is in.
  method DirAllocFile(server: Server, d: nat) returns (status: Status, i: nat, j: nat, b: U32)
    requires Good(server.State()) && d < |server.files| && server.files[d].size % BLKSIZE == 0
    modifies server
    ensures Sized(old(server.State())) && Matches(AllocFrom(old(server.State()), d, 0), status, server.State())
    ensures status.Done? ==> AllocFrom(old(server.State()), d, 0).value == (i, j) && j < BLKFILES
    ensures status.Done? ==> Usable(server.State(), d, b) && Ptr(server.State(), d, i) == b
  {
    GoodSized(server.State());
    GoodSteps(d, server.files[d].size);
    GoodSteps(d, server.files[d].size + BLKSIZE);
    var good := (fs: Fs) => Good(fs);
    forall fs: Fs | good(fs) && d < |fs.files| ensures good(OneMore(fs, d)) { OneMoreGood(fs, d); }
    status, i, j, b := AllocLoop(server, d, good);
  }

  // The end of file_create.
  method FileCreate(server: Server, d: nat, name: seq<Byte>) returns (status: Status, i: nat, j: nat)
    requires Good(server.State()) && d < |server.files| && server.files[d].size % BLKSIZE == 0 && Proper(name)
    modifies server
    ensures Sized(old(server.State())) && Matches(CreateIn(old(server.State()), d, name), status, server.State())
    ensures status.Done? ==> CreateIn(old(server.State()), d, name).value == (i, j)
  {
    var b;
    status, i, j, b := DirAllocFile(server, d);
    if !status.Done? { return; }
    FarApart(j, if j == 0 then 1 else 0, name);
    server.StoreBytes(b, 256 * j, name + [0]);
  }
}
