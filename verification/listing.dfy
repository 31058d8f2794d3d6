/** What others see of a file in its directory's bytes, and what a write to a directory can do. */
module Listing {
  import opened Words
  import opened FileSystem
  import opened Directory
  import opened FileCreation
  import opened Homes
  import opened InPlace
  import opened Lodging
  import opened Rewriting
  import opened FileRuns

  // ---- Writing a file changes its directory ----

  // The entry at pos in directory g has this size.
  ghost predicate ShowsSize(fs: Fs, g: nat, pos: nat, size: seq<Byte>)
    requires |size| == 4
  {
    forall i: nat :: i < 4 ==> Content(fs, g, pos + 128 + i) == Some(size[i])
  }

  // After a write that makes the file longer, or not, the size in its entry is the file's, as
  // bytes of the directory.
  lemma EntryShowsSize(disk: Disk, homes: seq<Home>, f: nat, data: seq<Byte>, offset: nat, g: nat, m: nat)
    requires Sound(disk, homes) && f < |homes| && offset + |data| < 0x8000_0000 && Leaves(Seen(disk, homes), homes, f, data, offset)
    requires homes[f].Slot? && Hosted(Seen(disk, homes), f, homes[f], g, m)
    ensures Ready(disk) && FileIn(disk, homes[f]).size >= 0
    ensures var r, pos, was := WriteIn(disk, homes[f], data, offset), NamePos(m, homes[f].j), FileIn(disk, homes[f]).size;
      r.Done? ==>
        var size := if offset + |data| > was then offset + |data| else was;
        && FileIn(r.disk, homes[f]).size == size
        && ShowsSize(Seen(r.disk, homes), g, pos, SizeBytes(FileIn(r.disk, homes[f])))
  {
    var fs, h := Seen(disk, homes), homes[f];
    var g1, m1 := WriteSound(disk, homes, f, data, offset);
    var r, o := WriteIn(disk, h, data, offset), Write(fs, f, data, offset);
    if r.Done? {
      HostsAgree(disk, homes, r.disk, o.fs, f, g1, m1, g, m);
      WriteCorrect(fs, f, data, offset);
      LeadsShow(disk, homes, r.disk, o.fs, f, g, m);
    }
  }

  lemma HostsAgree(disk: Disk, homes: seq<Home>, disk': Disk, fs': Fs, f: nat, g: nat, m: nat, g1: nat, m1: nat)
    requires Sound(disk, homes) && Leads(disk, homes, disk', fs', f, g, m) && homes[f].Slot?
    requires Hosted(Seen(disk, homes), f, homes[f], g1, m1)
    ensures g1 == g && m1 == m
  {
    OwnershipMeans(Seen(disk, homes));
    assert Ptr(Seen(disk, homes), g1, m1) == homes[f].b == Ptr(Seen(disk, homes), g, m);
  }

  lemma LeadsShow(disk: Disk, homes: seq<Home>, disk': Disk, fs': Fs, f: nat, g: nat, m: nat)
    requires Sound(disk, homes) && Leads(disk, homes, disk', fs', f, g, m) && homes[f].Slot?
    ensures f < |fs'.files| && FileIn(disk', homes[f]).size == fs'.files[f].size
    ensures ShowsSize(Seen(disk', homes), g, NamePos(m, homes[f].j), SizeBytes(FileIn(disk', homes[f])))
  {
    EntryContents(disk, homes, disk', fs', f, g, m);
    SpellsFile(disk', homes[f]);
    SizeShown(Seen(disk', homes), disk', homes[f], g, m, SizeBytes(FileIn(disk', homes[f])), PointerBytes(FileIn(disk', homes[f])));
  }

  lemma SizeShown(fs: Fs, disk: Disk, h: Home, g: nat, m: nat, size: seq<Byte>, pointers: seq<Byte>)
    requires h.Slot? && Sits(disk.blocks, h) && HostHas(fs, disk, h, (g, m)) && Spelling(disk, h, size, pointers)
    ensures ShowsSize(fs, g, NamePos(m, h.j), size)
  {
    var pos := NamePos(m, h.j);
    forall i: nat | i < 4 ensures Content(fs, g, pos + 128 + i) == Some(size[i]) {
      SpelledByte(disk, h, size, pointers, 128 + i);
      assert pos <= pos + 128 + i < pos + 256;
    }
  }

  // ---- A write to a directory can break ownership ----

  // The number 1, the super block's, as the first pointer of an entry.
  const ONE: seq<Byte> := [1, 0, 0, 0]

  lemma BlockThere(fs: Fs, f: nat, m: nat)
    requires Good(fs) && f < |fs.files| && m < MAXBLOCKS && Ptr(fs, f, m) != 0
    ensures Sized(fs) && GetBlock(fs, f, m) == Ok(fs, Ptr(fs, f, m)) && Usable(fs, f, Ptr(fs, f, m))
  {
    OwnershipMeans(fs);
    GoodShaped(fs);
  }

  lemma OneBlockWritten(fs: Fs, f: nat, m: nat, off: nat, data: seq<Byte>)
    requires Good(fs) && f < |fs.files| && m < MAXBLOCKS && Ptr(fs, f, m) != 0 && data != [] && off + |data| <= BLKSIZE
    ensures Sized(fs) && WriteFrom(fs, f, m, off, data).Ok?
  {
    BlockThere(fs, f, m);
    var fs1 := PutBytes(fs, Ptr(fs, f, m), off, data);
    assert data[..|data|] == data && data[|data|..] == [];
    var bn := Min(BLKSIZE - off, |data|);
    assert WriteFrom(PutBytes(fs, Ptr(fs, f, m), off, data[..bn]), f, m + 1, 0, data[bn..]).Ok?;
  }

  // A write within a block of a directory succeeds.
  lemma WriteThere(fs: Fs, f: nat, m: nat, off: nat, data: seq<Byte>, pos: nat)
    requires Good(fs) && f < |fs.files| && fs.files[f].size % BLKSIZE == 0 && m < MAXBLOCKS && Ptr(fs, f, m) != 0
    requires data != [] && off + |data| <= BLKSIZE && pos == m * BLKSIZE + off
    ensures Sized(fs) && Write(fs, f, data, pos).Ok?
  {
    OneBlockWritten(fs, f, m, off, data);
    GoodShaped(fs);
    assert m * BLKSIZE < fs.files[f].size;
    WholeBlocks(m, fs.files[f].size);
    InBlock(m, off);
  }

  lemma WholeBlocks(m: nat, size: int)
    requires m * BLKSIZE < size && size % BLKSIZE == 0
    ensures m * BLKSIZE + BLKSIZE <= size
  {}

  lemma PointerRead(bytes: seq<Byte>, j: nat)
    requires |bytes| == BLKSIZE && j < BLKFILES
    requires bytes[Off(j) + 136..Off(j) + 140] == ONE
    ensures FieldsAt(bytes, j).direct[0] == 1
  {
    DirectOf(bytes, Off(j), 0);
    WordOfPart(bytes, Off(j) + 136, ONE, 0);
  }

  lemma PointerWritten(fs: Fs, fs': Fs, f: nat, m: nat, h: Home, pos: nat)
    requires Good(fs') && h.Slot? && h.j < BLKFILES && m < MAXBLOCKS && Ptr(fs', f, m) == h.b != 0 && Sits(fs'.blocks, h)
    requires pos == m * BLKSIZE + (Off(h.j) + 136) && Has(fs', f, pos, ONE)
    ensures FieldsAt(fs'.blocks[h.b].bytes, h.j).direct[0] == 1
  {
    forall i: nat | i < 4 ensures fs'.blocks[h.b].bytes[Off(h.j) + 136 + i] == ONE[i] {
      HasByte(fs', f, m, Off(h.j) + 136, ONE, pos, i);
    }
    assert fs'.blocks[h.b].bytes[Off(h.j) + 136..Off(h.j) + 140] == ONE;
    PointerRead(fs'.blocks[h.b].bytes, h.j);
  }

  lemma HasByte(fs: Fs, f: nat, m: nat, off: nat, data: seq<Byte>, pos: nat, i: nat)
    requires Has(fs, f, pos, data) && pos == m * BLKSIZE + off && i < |data| && off + i < BLKSIZE
    ensures ByteAt(fs, f, m, off + i) == Some(data[i])
  {
    assert ByteAt(fs, f, m, off + i) == Some(data[m * BLKSIZE + (off + i) - pos]);
  }

  // The write succeeds, and the file system is not well owned any more.
  ghost predicate Breaks(disk: Disk, homes: seq<Home>, f: nat, data: seq<Byte>, pos: nat)
    requires f < |homes|
  {
    Ready(disk) && FileIn(disk, homes[f]).size >= 0 && var r := WriteIn(disk, homes[f], data, pos); r.Done? && !Good(Seen(r.disk, homes))
  }

  // Writing four bytes into a directory that make the first pointer of an entry in use lead to
  // the super block.
  lemma DirectoryWriteBreaks(disk: Disk, homes: seq<Home>, f: nat, k: nat, m: nat, data: seq<Byte>, pos: nat)
    requires Sound(disk, homes) && f < |homes| && FileIn(disk, homes[f]).size % BLKSIZE == 0
    requires k < |homes| && homes[k].Slot? && Hosted(Seen(disk, homes), k, homes[k], f, m) && data == ONE && pos == 4096 * m + 256 * homes[k].j + 136
    ensures Breaks(disk, homes, f, data, pos)
  {
    var fs, h := Seen(disk, homes), homes[k];
    var g, m1 := SoundBegins(disk, homes, f);
    GoodSized(fs);
    PosSmall(m, h.j, pos);
    WriteThere(fs, f, m, Off(h.j) + 136, data, pos);
    WriteEnds(disk, fs, f, homes[f], g, m1, data, pos);
    WriteCorrect(fs, f, data, pos);
    var r, o := WriteIn(disk, homes[f], data, pos), Write(fs, f, data, pos);
    HostBusy(o.fs, k, h, f, m);
    PointerWritten(fs, o.fs, f, m, h, pos);
    assert h != homes[f];
    AlikeFields(o.fs.blocks, r.disk.blocks, homes[f], h);
    OneIsReserved(Seen(r.disk, homes), k);
  }

  lemma PosSmall(m: nat, j: nat, pos: nat)
    requires m < MAXBLOCKS && j < BLKFILES && pos == 4096 * m + 256 * j + 136
    ensures pos + 4 < 0x8000_0000 && pos == m * BLKSIZE + (Off(j) + 136) && Off(j) + 140 <= BLKSIZE
  {}

  lemma OneIsReserved(fs: Fs, k: nat)
    requires k < |fs.files| && |fs.files[k].direct| == NDIRECT && fs.files[k].direct[0] == 1
    ensures !Good(fs)
  {
    assert Ptr(fs, k, 0) == 1;
    if Good(fs) { OwnershipMeans(fs); }
  }
}
