/** Where a File structure is: in the super block, or in an entry of a directory's block. */
module Homes {
  import opened Words
  import opened FileSystem
  import opened Directory

  // A struct File *: &super->s_root, or entry j of block b.
  datatype Home = Super | Slot(b: nat, j: nat)

  // The bitmap, the blocks, and the structure in the super block.
  datatype Disk = Disk(free: seq<bool>, blocks: seq<Block>, root: File)

  // A 32-bit word as a signed number, and back.
  function Signed(w: U32): int { if w < 0x8000_0000 then w else w - 0x1_0000_0000 }

  function Word(n: int): U32 { n % 0x1_0000_0000 }

  // A structure the fields have room for.
  predicate Fits(file: File) { -0x8000_0000 <= file.size < 0x8000_0000 && |file.direct| == NDIRECT }

  lemma SignedWord(n: int)
    requires -0x8000_0000 <= n < 0x8000_0000
    ensures Signed(Word(n)) == n
  {}

  lemma WordSigned(w: U32)
    ensures Word(Signed(w)) == w && -0x8000_0000 <= Signed(w) < 0x8000_0000
  {}

  // ---- The bytes of an entry ----

  // Byte x of a block is part of the size or of a pointer of entry j.
  predicate InFields(j: nat, x: nat) { Off(j) + 128 <= x < Off(j) + 132 || Off(j) + 136 <= x < Off(j) + 180 }

  // The structure in entry j of a block.
  function FieldsAt(bytes: seq<Byte>, j: nat): (r: File)
    requires |bytes| == BLKSIZE && j < BLKFILES
    ensures |r.direct| == NDIRECT
  {
    var file := FileAt(bytes, Off(j));
    file.(size := Signed(file.size))
  }

  function SizeBytes(file: File): (r: seq<Byte>)
    ensures |r| == 4
  {
    TableBytes([Word(file.size)])
  }

  function PointerBytes(file: File): (r: seq<Byte>)
    requires |file.direct| == NDIRECT
    ensures |r| == 44
  {
    TableBytes(file.direct + [file.indirect])
  }

  // The block after its entry j has got these fields.
  function WithFields(bytes: seq<Byte>, j: nat, file: File): (r: seq<Byte>)
    requires |bytes| == BLKSIZE && j < BLKFILES && |file.direct| == NDIRECT
    ensures |r| == BLKSIZE
  {
    seq(BLKSIZE, x requires 0 <= x < BLKSIZE => if InFields(j, x) then ByteOfField(file, x - Off(j)) else bytes[x])
  }

  // Byte k of an entry with these fields.
  function ByteOfField(file: File, k: nat): Byte
    requires (128 <= k < 132 || 136 <= k < 180) && |file.direct| == NDIRECT
  {
    if k < 132 then SizeBytes(file)[k - 128] else PointerBytes(file)[k - 136]
  }

  lemma WordRead(bytes: seq<Byte>, off: nat, ptrs: seq<U32>, i: nat)
    requires i < |ptrs| && off + 4 * |ptrs| <= |bytes| && bytes[off..off + 4 * |ptrs|] == TableBytes(ptrs)
    ensures WordAt(bytes, off + 4 * i) == ptrs[i]
  {
    WordOfTable(ptrs, i);
    WordOfPart(bytes, off, TableBytes(ptrs), 4 * i);
  }

  // Fields that spell a structure are that structure.
  lemma FieldsSpell(bytes: seq<Byte>, j: nat, file: File)
    requires |bytes| == BLKSIZE && j < BLKFILES && Fits(file)
    requires bytes[Off(j) + 128..Off(j) + 132] == SizeBytes(file) && bytes[Off(j) + 136..Off(j) + 180] == PointerBytes(file)
    ensures FieldsAt(bytes, j) == file
  {
    var words := file.direct + [file.indirect];
    WordRead(bytes, Off(j) + 128, [Word(file.size)], 0);
    SignedWord(file.size);
    WordRead(bytes, Off(j) + 136, words, 10);
    forall i: nat | i < NDIRECT ensures FieldsAt(bytes, j).direct[i] == file.direct[i] {
      WordRead(bytes, Off(j) + 136, words, i);
      DirectOf(bytes, Off(j), i);
      assert words[i] == file.direct[i];
    }
  }

  lemma FieldsReadBack(bytes: seq<Byte>, j: nat, file: File)
    requires |bytes| == BLKSIZE && j < BLKFILES && Fits(file)
    ensures FieldsAt(WithFields(bytes, j, file), j) == file
  {
    var r := WithFields(bytes, j, file);
    forall k: nat | k < 4 ensures r[Off(j) + 128 + k] == SizeBytes(file)[k] { assert InFields(j, Off(j) + 128 + k); }
    forall k: nat | k < 44 ensures r[Off(j) + 136 + k] == PointerBytes(file)[k] { assert InFields(j, Off(j) + 136 + k); }
    assert r[Off(j) + 128..Off(j) + 132] == SizeBytes(file);
    assert r[Off(j) + 136..Off(j) + 180] == PointerBytes(file);
    FieldsSpell(r, j, file);
  }

  lemma ByteOfWordAt(bytes: seq<Byte>, a: nat, k: nat)
    requires a + 4 <= |bytes| && k < 4
    ensures ByteOf(WordAt(bytes, a), k) == bytes[a + k]
  {
    BytesOfJoin(bytes[a], bytes[a + 1], bytes[a + 2], bytes[a + 3]);
  }

  // And they spell it: the bytes follow from the structure.
  lemma Spells(bytes: seq<Byte>, j: nat)
    requires |bytes| == BLKSIZE && j < BLKFILES
    ensures var file := FieldsAt(bytes, j);
      && Fits(file) && bytes[Off(j) + 128..Off(j) + 132] == SizeBytes(file)
      && bytes[Off(j) + 136..Off(j) + 180] == PointerBytes(file)
  {
    var file := FieldsAt(bytes, j);
    WordSigned(WordAt(bytes, Off(j) + 128));
    forall k: nat | k < 4 ensures bytes[Off(j) + 128 + k] == SizeBytes(file)[k] { ByteOfWordAt(bytes, Off(j) + 128, k); }
    forall k: nat | k < 44 ensures bytes[Off(j) + 136 + k] == PointerBytes(file)[k] { PointerByte(bytes, j, k); }
    assert bytes[Off(j) + 128..Off(j) + 132] == SizeBytes(file);
    assert bytes[Off(j) + 136..Off(j) + 180] == PointerBytes(file);
  }

  lemma PointerByte(bytes: seq<Byte>, j: nat, k: nat)
    requires |bytes| == BLKSIZE && j < BLKFILES && k < 44
    ensures bytes[Off(j) + 136 + k] == PointerBytes(FieldsAt(bytes, j))[k]
  {
    var i := k / 4;
    if i < NDIRECT { DirectOf(bytes, Off(j), i); }
    assert (FieldsAt(bytes, j).direct + [FieldsAt(bytes, j).indirect])[i] == WordAt(bytes, Off(j) + 136 + 4 * i);
    ByteOfWordAt(bytes, Off(j) + 136 + 4 * i, k % 4);
  }

  // Two blocks have the same structure in entry j exactly if they have the same bytes there.
  lemma SameFieldsExactly(a: seq<Byte>, b: seq<Byte>, j: nat)
    requires |a| == |b| == BLKSIZE && j < BLKFILES
    ensures FieldsAt(a, j) == FieldsAt(b, j) <==> forall x: nat :: InFields(j, x) ==> a[x] == b[x]
  {
    Spells(a, j);
    Spells(b, j);
    var file := FieldsAt(a, j);
    if forall x: nat :: InFields(j, x) ==> a[x] == b[x] {
      assert b[Off(j) + 128..Off(j) + 132] == SizeBytes(file);
      assert b[Off(j) + 136..Off(j) + 180] == PointerBytes(file);
      FieldsSpell(b, j, file);
    }
    if FieldsAt(b, j) == file {
      forall x: nat | InFields(j, x) ensures a[x] == b[x] { SameByte(a, b, j, x, file); }
    }
  }

  lemma SameByte(a: seq<Byte>, b: seq<Byte>, j: nat, x: nat, file: File)
    requires |a| == |b| == BLKSIZE && j < BLKFILES && InFields(j, x) && |file.direct| == NDIRECT
    requires a[Off(j) + 128..Off(j) + 132] == SizeBytes(file) == b[Off(j) + 128..Off(j) + 132]
    requires a[Off(j) + 136..Off(j) + 180] == PointerBytes(file) == b[Off(j) + 136..Off(j) + 180]
    ensures a[x] == b[x]
  {
    if x < Off(j) + 132 {
      assert a[Off(j) + 128..Off(j) + 132][x - Off(j) - 128] == a[x];
      assert b[Off(j) + 128..Off(j) + 132][x - Off(j) - 128] == b[x];
    } else {
      assert a[Off(j) + 136..Off(j) + 180][x - Off(j) - 136] == a[x];
      assert b[Off(j) + 136..Off(j) + 180][x - Off(j) - 136] == b[x];
    }
  }

  // ---- Structures on the disk ----

  predicate Sits(blocks: seq<Block>, h: Home) {
    h.Slot? ==> h.b < |blocks| && IsData(blocks[h.b]) && h.j < BLKFILES
  }

  // *f, for a struct File *f
  function FileIn(disk: Disk, h: Home): File {
    match h
    case Super => disk.root
    case Slot(b, j) => if Sits(disk.blocks, h) then FieldsAt(disk.blocks[b].bytes, j) else NewFile()
  }

  // Assignments to fields of *f.
  function SetFile(disk: Disk, h: Home, file: File): (r: Disk)
    ensures r.free == disk.free && |r.blocks| == |disk.blocks|
  {
    match h
    case Super => disk.(root := file)
    case Slot(b, j) =>
      if Sits(disk.blocks, h) && |file.direct| == NDIRECT then
        disk.(blocks := disk.blocks[b := Data(WithFields(disk.blocks[b].bytes, j, file))])
      else disk
  }

  lemma SetThenRead(disk: Disk, h: Home, file: File)
    requires Sits(disk.blocks, h) && Fits(file)
    ensures FileIn(SetFile(disk, h, file), h) == file
  {
    if h.Slot? { FieldsReadBack(disk.blocks[h.b].bytes, h.j, file); }
  }
}
