/** Directories: the 256-byte entries the formatter writes into a directory's blocks, how the
    file server finds a name among them, and how it makes a new one. */
module Directory {
  import opened Words
  import opened FileSystem
  import opened Formatter
  import opened FileServer

  const FILESIZE: nat := 256             // sizeof(struct File)
  const BLKFILES: nat := 16
  const MAXNAMELEN: nat := 128

  // What can be a name in a directory; walk_path asks for no other.
  predicate Proper(name: seq<Byte>) { 0 < |name| < MAXNAMELEN && 0 !in name }

  // ---- An entry and its bytes ----

  datatype Entry = Entry(name: seq<Byte>, kind: U32, file: File)

  predicate Writable(e: Entry) { Proper(e.name) && 0 <= e.file.size < W && |e.file.direct| == NDIRECT }

  // f_size, f_type, f_direct, f_indirect
  function FieldWords(e: Entry): seq<U32>
    requires Writable(e)
  {
    [e.file.size, e.kind] + e.file.direct + [e.file.indirect]
  }

  function EntryBytes(e: Entry): (r: seq<Byte>)
    requires Writable(e)
    ensures |r| == FILESIZE
  {
    e.name + seq(MAXNAMELEN - |e.name|, _ => 0) + TableBytes(FieldWords(e)) + seq(76, _ => 0)
  }

  // strcmp(f[j].f_name, name) == 0, for entry j at `off`
  predicate NameIs(bytes: seq<Byte>, off: nat, name: seq<Byte>) {
    off + |name| < |bytes| && bytes[off..off + |name|] == name && bytes[off + |name|] == 0
  }

  function WordAt(bytes: seq<Byte>, a: nat): U32
    requires a + 4 <= |bytes|
  {
    Join(bytes[a], bytes[a + 1], bytes[a + 2], bytes[a + 3])
  }

  // f_direct[i] of the struct File at `off`.
  function DirectWord(bytes: seq<Byte>, off: nat, i: nat): U32
    requires off + FILESIZE <= |bytes| && i < NDIRECT
  {
    WordAt(bytes, off + 136 + 4 * i)
  }

  // The struct File at `off`, but for its name and type.
  function FileAt(bytes: seq<Byte>, off: nat): File
    requires off + FILESIZE <= |bytes|
  {
    File(WordAt(bytes, off + 128), seq(NDIRECT, i requires 0 <= i < NDIRECT => DirectWord(bytes, off, i)), WordAt(bytes, off + 176))
  }

  lemma WordOfTable(ptrs: seq<U32>, i: nat)
    requires i < |ptrs|
    ensures WordAt(TableBytes(ptrs), 4 * i) == ptrs[i]
  {
    var bytes := TableBytes(ptrs);
    assert bytes[4 * i] == ByteOf(ptrs[i], 0) && bytes[4 * i + 1] == ByteOf(ptrs[i], 1);
    assert bytes[4 * i + 2] == ByteOf(ptrs[i], 2) && bytes[4 * i + 3] == ByteOf(ptrs[i], 3);
    JoinBytes(ptrs[i]);
  }

  lemma FieldAt(e: Entry, i: nat)
    requires Writable(e) && i < 13
    ensures WordAt(EntryBytes(e), 128 + 4 * i) == FieldWords(e)[i]
  {
    WordOfTable(FieldWords(e), i);
    FieldsInEntry(e);
    WordOfPart(EntryBytes(e), 128, TableBytes(FieldWords(e)), 4 * i);
  }

  lemma FieldsInEntry(e: Entry)
    requires Writable(e)
    ensures EntryBytes(e)[128..180] == TableBytes(FieldWords(e))
  {}

  lemma WordOfPart(bytes: seq<Byte>, off: nat, part: seq<Byte>, a: nat)
    requires off + |part| <= |bytes| && bytes[off..off + |part|] == part && a + 4 <= |part|
    ensures WordAt(bytes, off + a) == WordAt(part, a)
  {
    assert part[a] == bytes[off + a] && part[a + 1] == bytes[off + a + 1];
    assert part[a + 2] == bytes[off + a + 2] && part[a + 3] == bytes[off + a + 3];
  }

  lemma FileReadsBack(e: Entry)
    requires Writable(e)
    ensures FileAt(EntryBytes(e), 0) == e.file
  {
    FieldAt(e, 0);
    FieldAt(e, 12);
    DirectReadsBack(e);
  }

  lemma DirectReadsBack(e: Entry)
    requires Writable(e)
    ensures FileAt(EntryBytes(e), 0).direct == e.file.direct
  {
    var direct := FileAt(EntryBytes(e), 0).direct;
    forall i: nat | i < NDIRECT ensures direct[i] == e.file.direct[i] {
      DirectOf(EntryBytes(e), 0, i);
      DirectAt(e, i);
    }
  }

  lemma DirectOf(bytes: seq<Byte>, off: nat, i: nat)
    requires off + FILESIZE <= |bytes| && i < NDIRECT
    ensures FileAt(bytes, off).direct[i] == DirectWord(bytes, off, i)
  {}

  lemma DirectAt(e: Entry, i: nat)
    requires Writable(e) && i < NDIRECT
    ensures DirectWord(EntryBytes(e), 0, i) == e.file.direct[i]
  {
    FieldAt(e, i + 2);
    assert FieldWords(e)[i + 2] == e.file.direct[i];
  }

  lemma NameReadsBack(e: Entry, name: seq<Byte>)
    requires Writable(e) && Proper(name)
    ensures NameIs(EntryBytes(e), 0, name) <==> e.name == name
  {
    var bytes := EntryBytes(e);
    assert bytes[..|e.name|] == e.name && bytes[|e.name|] == 0;
    OneName(bytes, 0, e.name, name);
  }

  // A place holds one name only.
  lemma OneName(bytes: seq<Byte>, off: nat, a: seq<Byte>, b: seq<Byte>)
    requires NameIs(bytes, off, a) && Proper(a) && Proper(b)
    ensures NameIs(bytes, off, b) <==> a == b
  {
    if NameIs(bytes, off, b) {
      NotLonger(bytes, off, a, b);
      NotLonger(bytes, off, b, a);
    }
  }

  lemma NotLonger(bytes: seq<Byte>, off: nat, a: seq<Byte>, b: seq<Byte>)
    requires NameIs(bytes, off, a) && NameIs(bytes, off, b) && 0 !in b
    ensures |b| <= |a|
  {
    if |a| < |b| { ByteOfName(bytes, off, b, |a|); }
  }

  lemma ByteOfName(bytes: seq<Byte>, off: nat, name: seq<Byte>, k: nat)
    requires NameIs(bytes, off, name) && k < |name|
    ensures bytes[off + k] == name[k]
  {
    assert bytes[off..off + |name|][k] == bytes[off + k];
  }

  // ---- A directory's slots ----

  // All the blocks of directory d are there.
  ghost predicate Whole(fs: Fs, d: nat) {
    && d < |fs.files| && |fs.free| == |fs.blocks| < 0x10_0000 && |fs.files[d].direct| == NDIRECT
    && fs.files[d].size >= 0 && fs.files[d].size % BLKSIZE == 0
    && forall m: nat {:trigger Ptr(fs, d, m)} :: m * BLKSIZE < fs.files[d].size ==>
         m < MAXBLOCKS && 0 < Ptr(fs, d, m) < |fs.blocks| && IsData(fs.blocks[Ptr(fs, d, m)])
  }

  function BlockCount(fs: Fs, d: nat): int
    requires d < |fs.files|
  {
    fs.files[d].size / BLKSIZE
  }

  // The bytes of block i of file d, if there is one.
  function BytesOf(fs: Fs, d: nat, i: nat): (r: seq<Byte>)
    ensures |r| == BLKSIZE
  {
    var b := Ptr(fs, d, i);
    if b < |fs.blocks| && IsData(fs.blocks[b]) then fs.blocks[b].bytes else Chunk([], 0)
  }

  // Where in its block entry j is.
  function Off(j: nat): nat { 256 * j }

  // Which entry of the directory is entry j of block i.
  function Place(i: nat, j: nat): nat { 16 * i + j }

  // Entry j of block i has this name.
  predicate Named(fs: Fs, d: nat, i: nat, j: nat, name: seq<Byte>) { NameIs(BytesOf(fs, d, i), Off(j), name) }

  // ---- dir_lookup ----

  // The inner loop, from entry j of a block on.
  function FindIn(bytes: seq<Byte>, j: nat, name: seq<Byte>): (r: Option<nat>)
    ensures r.Some? ==> j <= r.value < BLKFILES && NameIs(bytes, Off(r.value), name)
    ensures r.Some? ==> forall k: nat :: j <= k < r.value ==> !NameIs(bytes, Off(k), name)
    ensures r.None? ==> forall k: nat :: j <= k < BLKFILES ==> !NameIs(bytes, Off(k), name)
    decreases BLKFILES - j
  {
    if j >= BLKFILES then None else if NameIs(bytes, Off(j), name) then Some(j) else FindIn(bytes, j + 1, name)
  }

  // The outer loop, from block i on. A slot is named by its block and its place there.
  function LookupFrom(fs: Fs, d: nat, i: nat, name: seq<Byte>): Outcome<(nat, nat)>
    requires d < |fs.files| && |fs.free| == |fs.blocks| < 0x10_0000
    decreases BlockCount(fs, d) - i
  {
    if i >= BlockCount(fs, d) then Err(fs, -E_NOT_FOUND)
    else match GetBlock(fs, d, i)
      case Panic => Panic
      case Err(fs1, code) => Err(fs1, code)
      case Ok(fs1, b) =>
        if !Usable(fs1, d, b) || BlockCount(fs1, d) != BlockCount(fs, d) then Panic
        else match FindIn(fs1.blocks[b].bytes, 0, name)
          case Some(j) => Ok(fs1, (i, j))
          case None => LookupFrom(fs1, d, i + 1, name)
  }

  // One turn of the outer loop: what file_get_block says goes.
  lemma LookupTurn(fs: Fs, d: nat, i: nat, name: seq<Byte>)
    requires d < |fs.files| && |fs.free| == |fs.blocks| < 0x10_0000 && i < BlockCount(fs, d)
    ensures var r, g := LookupFrom(fs, d, i, name), GetBlock(fs, d, i);
      && (g.Panic? ==> r == Panic)
      && (g.Err? ==> r == Err(g.fs, g.code))
      && (g.Ok? && Usable(g.fs, d, g.value) && BlockCount(g.fs, d) == BlockCount(fs, d) ==>
            match FindIn(g.fs.blocks[g.value].bytes, 0, name)
            case Some(j) => r == Ok(g.fs, (i, j))
            case None => r == LookupFrom(g.fs, d, i + 1, name))
  {}

  lemma WholeBlock(fs: Fs, d: nat, i: nat)
    requires Whole(fs, d) && i < BlockCount(fs, d)
    ensures GetBlock(fs, d, i) == Ok(fs, Ptr(fs, d, i)) && Usable(fs, d, Ptr(fs, d, i))
    ensures BytesOf(fs, d, i) == fs.blocks[Ptr(fs, d, i)].bytes
  {
    InSize(fs.files[d].size, i);
  }

  lemma InSize(size: int, i: nat)
    requires size >= 0 && size % BLKSIZE == 0
    ensures i < size / BLKSIZE <==> i * BLKSIZE < size
  {}

  // Slot (i, j) is the first with this name.
  ghost predicate First(fs: Fs, d: nat, i: nat, j: nat, name: seq<Byte>)
    requires d < |fs.files|
  {
    && i < BlockCount(fs, d) && j < BLKFILES && Named(fs, d, i, j, name)
    && forall i': nat, j': nat {:trigger Named(fs, d, i', j', name)} :: (i' < i && j' < BLKFILES) || (i' == i && j' < j) ==> !Named(fs, d, i', j', name)
  }

  ghost predicate Absent(fs: Fs, d: nat, name: seq<Byte>)
    requires d < |fs.files|
  {
    forall i: nat, j: nat {:trigger Named(fs, d, i, j, name)} :: i < BlockCount(fs, d) && j < BLKFILES ==> !Named(fs, d, i, j, name)
  }

  // The directory itself stays as it is, and the answer is the first slot with the name.
  lemma {:induction false} LookupFinds(fs: Fs, d: nat, i: nat, name: seq<Byte>)
    requires Whole(fs, d) && i <= BlockCount(fs, d) && NotBelow(fs, d, i, name)
    ensures var r := LookupFrom(fs, d, i, name);
      || (r.Ok? && r.fs == fs && First(fs, d, r.value.0, r.value.1, name))
      || (r == Err(fs, -E_NOT_FOUND) && Absent(fs, d, name))
    decreases BlockCount(fs, d) - i
  {
    if i < BlockCount(fs, d) {
      var found := BlockSearched(fs, d, i, name);
      if found.None? { LookupFinds(fs, d, i + 1, name); }
    }
  }

  ghost predicate NotBelow(fs: Fs, d: nat, i: nat, name: seq<Byte>) {
    forall i': nat, j': nat {:trigger Named(fs, d, i', j', name)} :: i' < i && j' < BLKFILES ==> !Named(fs, d, i', j', name)
  }

  lemma BlockSearched(fs: Fs, d: nat, i: nat, name: seq<Byte>) returns (found: Option<nat>)
    requires Whole(fs, d) && i < BlockCount(fs, d) && NotBelow(fs, d, i, name)
    ensures found.Some? ==> LookupFrom(fs, d, i, name) == Ok(fs, (i, found.value)) && First(fs, d, i, found.value, name)
    ensures found.None? ==> LookupFrom(fs, d, i, name) == LookupFrom(fs, d, i + 1, name) && NotBelow(fs, d, i + 1, name)
  {
    WholeBlock(fs, d, i);
    LookupTurn(fs, d, i, name);
    found := FindIn(BytesOf(fs, d, i), 0, name);
  }

  lemma OnlyFirst(fs: Fs, d: nat, i: nat, j: nat, i': nat, j': nat, name: seq<Byte>)
    requires d < |fs.files| && First(fs, d, i, j, name) && First(fs, d, i', j', name)
    ensures (i, j) == (i', j')
  {}

  // So the answer is the first slot with the name, whenever there is one.
  lemma LookupIsFirst(fs: Fs, d: nat, i: nat, j: nat, name: seq<Byte>)
    requires Whole(fs, d) && First(fs, d, i, j, name)
    ensures LookupFrom(fs, d, 0, name) == Ok(fs, (i, j))
  {
    LookupFinds(fs, d, 0, name);
    var r := LookupFrom(fs, d, 0, name);
    if r.Ok? { OnlyFirst(fs, d, i, j, r.value.0, r.value.1, name); }
  }

  lemma LookupIsNone(fs: Fs, d: nat, name: seq<Byte>)
    requires Whole(fs, d) && Absent(fs, d, name)
    ensures LookupFrom(fs, d, 0, name) == Err(fs, -E_NOT_FOUND)
  {
    LookupFinds(fs, d, 0, name);
  }

  // ---- The directory the formatter writes ----

  // The entries one after another, in whole blocks.
  function DirData(ents: seq<Entry>): (r: seq<Byte>)
    requires forall e :: e in ents ==> Writable(e)
    ensures |r| == Blocks(FILESIZE * |ents|) * BLKSIZE
  {
    seq(Blocks(FILESIZE * |ents|) * BLKSIZE, p requires 0 <= p => ByteOfDir(ents, p))
  }

  function ByteOfDir(ents: seq<Entry>, p: nat): Byte
    requires forall e :: e in ents ==> Writable(e)
  {
    if p / FILESIZE < |ents| then EntryBytes(ents[p / FILESIZE])[p % FILESIZE] else 0
  }

  function SlotBytes(ents: seq<Entry>, k: nat): (r: seq<Byte>)
    requires forall e :: e in ents ==> Writable(e)
    ensures |r| == FILESIZE
  {
    if k < |ents| then EntryBytes(ents[k]) else seq(FILESIZE, _ => 0)
  }

  lemma SlotOfByte(i: nat, j: nat, x: nat)
    requires j < BLKFILES && x < FILESIZE
    ensures var p := i * BLKSIZE + (Off(j) + x); p / FILESIZE == Place(i, j) && p % FILESIZE == x
  {
    assert i * BLKSIZE + (Off(j) + x) == FILESIZE * Place(i, j) + x;
  }

  lemma SlotInBlock(ents: seq<Entry>, i: nat, j: nat)
    requires (forall e :: e in ents ==> Writable(e)) && i < Blocks(FILESIZE * |ents|) && j < BLKFILES
    ensures Chunk(DirData(ents), i)[Off(j)..Off(j) + FILESIZE] == SlotBytes(ents, Place(i, j))
  {
    var slot := Chunk(DirData(ents), i)[Off(j)..Off(j) + FILESIZE];
    forall x: nat | x < FILESIZE ensures slot[x] == SlotBytes(ents, Place(i, j))[x] {
      SlotOfByte(i, j, x);
      assert slot[x] == DirData(ents)[i * BLKSIZE + (Off(j) + x)];
    }
  }

  lemma NameInSlot(bytes: seq<Byte>, off: nat, slot: seq<Byte>, name: seq<Byte>)
    requires off + FILESIZE <= |bytes| && bytes[off..off + FILESIZE] == slot && Proper(name)
    ensures NameIs(bytes, off, name) <==> NameIs(slot, 0, name)
    ensures FileAt(bytes, off) == FileAt(slot, 0)
  {
    assert bytes[off..off + |name|] == slot[0..|name|];
    assert bytes[off + |name|] == slot[|name|];
    forall a: nat | a + 4 <= FILESIZE ensures WordAt(bytes, off + a) == WordAt(slot, a) { WordOfPart(bytes, off, slot, a); }
    FilesSame(bytes, off, slot);
  }

  lemma FilesSame(bytes: seq<Byte>, off: nat, slot: seq<Byte>)
    requires off + FILESIZE <= |bytes| && FILESIZE == |slot|
    requires forall a: nat {:trigger WordAt(slot, a)} :: a + 4 <= FILESIZE ==> WordAt(bytes, off + a) == WordAt(slot, a)
    ensures FileAt(bytes, off) == FileAt(slot, 0)
  {
    var f, g := FileAt(bytes, off), FileAt(slot, 0);
    assert WordAt(slot, 128) == g.size && WordAt(slot, 176) == g.indirect;
    forall i: nat | i < NDIRECT ensures f.direct[i] == g.direct[i] { assert g.direct[i] == WordAt(slot, 136 + 4 * i); }
    assert f.direct == g.direct;
  }

  lemma LaidIsWhole(fs: Fs, d: nat, ents: seq<Entry>)
    requires (forall e :: e in ents ==> Writable(e)) && Laid(fs, d, DirData(ents))
    ensures Whole(fs, d) && BlockCount(fs, d) == Blocks(FILESIZE * |ents|)
    ensures forall i: nat :: i < BlockCount(fs, d) ==> BytesOf(fs, d, i) == Chunk(DirData(ents), i)
  {
    var n := Blocks(FILESIZE * |ents|);
    assert fs.files[d].size == n * BLKSIZE;
    forall i: nat | i < n ensures BytesOf(fs, d, i) == Chunk(DirData(ents), i) { InSize(fs.files[d].size, i); }
  }

  lemma LaidSlot(fs: Fs, d: nat, ents: seq<Entry>, i: nat, j: nat, name: seq<Byte>)
    requires (forall e :: e in ents ==> Writable(e)) && Laid(fs, d, DirData(ents)) && Proper(name)
    requires i < Blocks(FILESIZE * |ents|) && j < BLKFILES
    ensures var k := Place(i, j);
      && (Named(fs, d, i, j, name) <==> k < |ents| && ents[k].name == name)
      && (k < |ents| ==> FileAt(BytesOf(fs, d, i), Off(j)) == ents[k].file)
  {
    var k := Place(i, j);
    LaidIsWhole(fs, d, ents);
    SlotInBlock(ents, i, j);
    NameInSlot(BytesOf(fs, d, i), Off(j), SlotBytes(ents, k), name);
    if k < |ents| {
      NameReadsBack(ents[k], name);
      FileReadsBack(ents[k]);
    } else {
      assert SlotBytes(ents, k)[0..|name|][0] == 0 && name[0] in name;
    }
  }

  lemma InDir(n: nat, i: nat, j: nat)
    requires Place(i, j) < n
    ensures i < Blocks(FILESIZE * n)
  {}

  lemma FirstLaid(fs: Fs, d: nat, ents: seq<Entry>, i: nat, j: nat)
    requires (forall e :: e in ents ==> Writable(e)) && Laid(fs, d, DirData(ents))
    requires var k := Place(i, j); j < BLKFILES && k < |ents| && forall l :: 0 <= l < k ==> ents[l].name != ents[k].name
    ensures First(fs, d, i, j, ents[Place(i, j)].name)
  {
    var k := Place(i, j);
    assert ents[k] in ents;
    InDir(|ents|, i, j);
    LaidIsWhole(fs, d, ents);
    LaidSlot(fs, d, ents, i, j, ents[k].name);
    forall i': nat, j': nat | (i' < i && j' < BLKFILES) || (i' == i && j' < j) ensures !Named(fs, d, i', j', ents[k].name) {
      LaidSlot(fs, d, ents, i', j', ents[k].name);
    }
  }

  // Looking a name up finds its first entry, and in it the file that was put there.
  lemma LookupLaid(fs: Fs, d: nat, ents: seq<Entry>, i: nat, j: nat)
    requires (forall e :: e in ents ==> Writable(e)) && Laid(fs, d, DirData(ents))
    requires var k := Place(i, j); j < BLKFILES && k < |ents| && forall l :: 0 <= l < k ==> ents[l].name != ents[k].name
    ensures LookupFrom(fs, d, 0, ents[Place(i, j)].name) == Ok(fs, (i, j))
    ensures FileAt(BytesOf(fs, d, i), Off(j)) == ents[Place(i, j)].file
  {
    var k := Place(i, j);
    assert ents[k] in ents;
    InDir(|ents|, i, j);
    LaidIsWhole(fs, d, ents);
    FirstLaid(fs, d, ents, i, j);
    LookupIsFirst(fs, d, i, j, ents[k].name);
    LaidSlot(fs, d, ents, i, j, ents[k].name);
  }

  lemma LookupMisses(fs: Fs, d: nat, ents: seq<Entry>, name: seq<Byte>)
    requires (forall e :: e in ents ==> Writable(e)) && Laid(fs, d, DirData(ents))
    requires Proper(name) && forall k :: 0 <= k < |ents| ==> ents[k].name != name
    ensures LookupFrom(fs, d, 0, name) == Err(fs, -E_NOT_FOUND)
  {
    LaidIsWhole(fs, d, ents);
    forall i: nat, j: nat | i < BlockCount(fs, d) && j < BLKFILES ensures !Named(fs, d, i, j, name) { LaidSlot(fs, d, ents, i, j, name); }
    LookupIsNone(fs, d, name);
  }

  // ---- The whole image, by name ----

  const FTYPE_REG: U32 := 0

  ghost predicate FilesOk(files: seq<File>) { forall f :: f in files ==> 0 <= f.size < W && |f.direct| == NDIRECT }

  function Entries(names: seq<seq<Byte>>, files: seq<File>): (r: seq<Entry>)
    requires |names| == |files|
    ensures |r| == |names| && forall i :: 0 <= i < |r| ==> r[i] == Entry(names[i], FTYPE_REG, files[i])
  {
    seq(|names|, i requires 0 <= i < |names| => Entry(names[i], FTYPE_REG, files[i]))
  }

  lemma {:induction false} AddAllFiles(img: Image, contents: seq<seq<Byte>>)
    requires FilesOk(img.files) && AddAll(img, contents).Some?
    ensures FilesOk(AddAll(img, contents).value.files) && |AddAll(img, contents).value.files| == |img.files| + |contents|
    decreases |contents|
  {
    if contents != [] { AddAllFiles(AddFile(img, contents[0]).value, contents[1..]); }
  }

  // fsformat: these files under these names.
  ghost function FormatNamed(nblocks: nat, names: seq<seq<Byte>>, contents: seq<seq<Byte>>): Option<Image>
    requires |names| == |contents| && forall n :: n in names ==> Proper(n)
  {
    if OpenDisk(nblocks).None? || AddAll(OpenDisk(nblocks).value, contents).None? then None
    else
      AddAllFiles(OpenDisk(nblocks).value, contents);
      Format(nblocks, contents, DirData(Entries(names, AddAll(OpenDisk(nblocks).value, contents).value.files)))
  }

  // It succeeds exactly if there are at most 128 files, none too large, and a block is left over.
  lemma FormatFits(nblocks: nat, names: seq<seq<Byte>>, contents: seq<seq<Byte>>)
    requires |names| == |contents| && (forall n :: n in names ==> Proper(n)) && nblocks < 0x10_0000
    requires forall i :: 0 <= i < |contents| ==> |contents[i]| < MAXFILESIZE
    ensures FormatNamed(nblocks, names, contents).Some? <==>
      |contents| <= MAX_DIR_ENTS && Reserved(nblocks) + Total(contents) + Blocks(FILESIZE * |contents|) < nblocks
  {
    if OpenDisk(nblocks).Some? { AddAllFits(OpenDisk(nblocks).value, contents); }
  }

  // The image is a well-formed file system exactly if there is a file on it.
  lemma ImageWellFormed(nblocks: nat, names: seq<seq<Byte>>, contents: seq<seq<Byte>>)
    requires |names| == |contents| && (forall n :: n in names ==> Proper(n)) && nblocks < 0x10_0000
    requires FormatNamed(nblocks, names, contents).Some?
    ensures Good(View(FormatNamed(nblocks, names, contents).value)) <==> names != []
  {
    AddAllFiles(OpenDisk(nblocks).value, contents);
    var ents := Entries(names, AddAll(OpenDisk(nblocks).value, contents).value.files);
    assert |ents| <= MAX_DIR_ENTS && |DirData(ents)| <= MAXFILESIZE;
    FormatWellFormed(nblocks, contents, DirData(ents));
  }

  // Opening any of the files by its name finds it, and reading it gives back its contents.
  lemma OpenAndRead(nblocks: nat, names: seq<seq<Byte>>, contents: seq<seq<Byte>>, fs: Fs, i: nat, j: nat)
    requires |names| == |contents| && (forall n :: n in names ==> Proper(n)) && nblocks < 0x10_0000
    requires FormatNamed(nblocks, names, contents).Some? && fs == View(FormatNamed(nblocks, names, contents).value)
    requires var k := Place(i, j); j < BLKFILES && k < |names| && forall l :: 0 <= l < k ==> names[l] != names[k]
    ensures |contents| < |fs.files| && |fs.free| == |fs.blocks| < 0x10_0000
    ensures var k := Place(i, j);
      && LookupFrom(fs, |contents|, 0, names[k]) == Ok(fs, (i, j))
      && FileAt(BytesOf(fs, |contents|, i), Off(j)) == fs.files[k] && ReadsBack(fs, k, contents[k])
  {
    var img := AddAll(OpenDisk(nblocks).value, contents).value;
    AddAllFiles(OpenDisk(nblocks).value, contents);
    var ents := Entries(names, img.files);
    RootLaid(nblocks, contents, ents, fs);
    RoundTrip(nblocks, contents, DirData(ents), fs, Place(i, j));
    LookupLaid(fs, |contents|, ents, i, j);
  }

  lemma RootLaid(nblocks: nat, contents: seq<seq<Byte>>, ents: seq<Entry>, fs: Fs)
    requires nblocks < 0x10_0000 && |ents| == |contents| > 0 && (forall e :: e in ents ==> Writable(e))
    requires Format(nblocks, contents, DirData(ents)).Some? && fs == View(Format(nblocks, contents, DirData(ents)).value)
    ensures |DirData(ents)| <= MAXFILESIZE && Laid(fs, |contents|, DirData(ents))
  {
    FormatBuilds(nblocks, contents, DirData(ents));
    LaidFile(Format(nblocks, contents, DirData(ents)).value, contents + [DirData(ents)], |contents|);
  }

  // And no other name is there.
  lemma NoOtherNames(nblocks: nat, names: seq<seq<Byte>>, contents: seq<seq<Byte>>, fs: Fs, name: seq<Byte>)
    requires |names| == |contents| && (forall n :: n in names ==> Proper(n)) && nblocks < 0x10_0000
    requires FormatNamed(nblocks, names, contents).Some? && fs == View(FormatNamed(nblocks, names, contents).value)
    requires Proper(name) && name !in names
    ensures |contents| < |fs.files| && |fs.free| == |fs.blocks| < 0x10_0000
    ensures LookupFrom(fs, |contents|, 0, name) == Err(fs, -E_NOT_FOUND)
  {
    AddAllFiles(OpenDisk(nblocks).value, contents);
    if names == [] {
      EmptyRootMisses(nblocks, fs, name);
    } else {
      var ents := Entries(names, AddAll(OpenDisk(nblocks).value, contents).value.files);
      RootLaid(nblocks, contents, ents, fs);
      LookupMisses(fs, |contents|, ents, name);
    }
  }

  // The root without entries has a block of zeros.
  lemma EmptyRootMisses(nblocks: nat, fs: Fs, name: seq<Byte>)
    requires nblocks < 0x10_0000 && OpenDisk(nblocks).Some? && AddRoot(OpenDisk(nblocks).value, []).Some?
    requires fs == View(AddRoot(OpenDisk(nblocks).value, []).value) && Proper(name)
    ensures LookupFrom(fs, 0, 0, name) == Err(fs, -E_NOT_FOUND)
  {
    assert fs.files[0].size == BLKSIZE && Ptr(fs, 0, 0) == Reserved(nblocks);
    assert BytesOf(fs, 0, 0) == Chunk([], 0);
    forall j: nat | j < BLKFILES ensures !Named(fs, 0, 0, j, name) { ZerosNameNothing(j, name); }
    LookupIsNone(fs, 0, name);
  }

  lemma ZerosNameNothing(j: nat, name: seq<Byte>)
    requires j < BLKFILES && Proper(name)
    ensures !NameIs(Chunk([], 0), Off(j), name)
  {
    if NameIs(Chunk([], 0), Off(j), name) { ByteOfName(Chunk([], 0), Off(j), name, 0); }
  }
}
