/** The offline formatter: it lays files out one after another on an empty disk, so that the
    file server can read them back. */
module Formatter {
  import opened Words
  import opened FileSystem

  const MAXFILESIZE: nat := 4235264      // (NDIRECT + NINDIRECT) * BLKSIZE
  const MAX_DIR_ENTS: nat := 128

  // The disk so far: `pos` is the first block not handed out yet.
  datatype Image = Image(blocks: seq<Block>, files: seq<File>, pos: nat)

  // The file system the image will be once finishdisk has written the bitmap.
  function View(img: Image): Fs {
    Fs(seq(|img.blocks|, b => b >= img.pos), img.blocks, img.files)
  }

  // Block m of data, padded with zeros.
  function Chunk(data: seq<Byte>, m: nat): (r: seq<Byte>)
    ensures |r| == BLKSIZE
    ensures forall j: nat :: j < BLKSIZE && m * BLKSIZE + j < |data| ==> r[j] == data[m * BLKSIZE + j]
  {
    seq(BLKSIZE, j requires 0 <= j < BLKSIZE => if m * BLKSIZE + j < |data| then data[m * BLKSIZE + j] else 0)
  }

  function DirectOf(start: nat, n: nat): (r: seq<U32>)
    requires start + n < W
    ensures |r| == NDIRECT && forall i: nat :: i < NDIRECT ==> r[i] == if i < n then start + i else 0
  {
    seq(NDIRECT, i requires 0 <= i < NDIRECT => if i < n then start + i else 0)
  }

  function TableOf(start: nat, n: nat): (r: seq<U32>)
    requires start + n < W
    ensures |r| == NINDIRECT && forall i: nat :: i < NINDIRECT ==> r[i] == if NDIRECT + i < n then start + NDIRECT + i else 0
  {
    seq(NINDIRECT, i requires 0 <= i < NINDIRECT => if NDIRECT + i < n then start + NDIRECT + i else 0)
  }

  // The blocks after copying data to blocks start .. start + n - 1.
  function Copied(blocks: seq<Block>, start: nat, n: nat, data: seq<Byte>): (r: seq<Block>)
    requires start + n <= |blocks|
    ensures |r| == |blocks|
    ensures forall b: nat :: b < |r| ==> r[b] == if start <= b < start + n then Data(Chunk(data, b - start)) else blocks[b]
  {
    seq(|blocks|, b requires 0 <= b < |blocks| => if start <= b < start + n then Data(Chunk(data, b - start)) else blocks[b])
  }

  // How many blocks a file takes: from ten blocks on, one more for the block table.
  function Needed(size: nat): nat { Blocks(size) + if Blocks(size) >= NDIRECT then 1 else 0 }

  // writefile (and finishdir): the data, then the block table if there is one, then the
  // entry. None when the disk would have no block left over.
  function AddFile(img: Image, data: seq<Byte>): Option<Image> {
    var n := Blocks(|data|);
    if img.pos + Needed(|data|) >= |img.blocks| || |img.blocks| >= 0x10_0000 then None
    else
      var blocks := Copied(img.blocks, img.pos, n, data);
      var table := if n >= NDIRECT then img.pos + n else 0;
      var blocks' := if n >= NDIRECT then blocks[table := Table(TableOf(img.pos, n))] else blocks;
      Some(Image(blocks', img.files + [File(|data|, DirectOf(img.pos, n), table)], img.pos + Needed(|data|)))
  }

  // ---- Each file keeps the file system well formed ----

  function NewOwner(owner: Owners, f: nat, start: nat, n: nat, b: U32): (nat, nat)
    requires b in owner || start <= b < start + n || (b == start + n && n >= NDIRECT)
  {
    if start <= b < start + n then (f, b - start)
    else if b == start + n && n >= NDIRECT then (f, INDIRECT) else owner[b]
  }

  function NewOwners(owner: Owners, f: nat, start: nat, n: nat): (r: Owners)
    requires start + n + 1 < W
    ensures forall b: U32 :: b in r <==> b in owner || start <= b < start + n || (b == start + n && n >= NDIRECT)
    ensures forall b: U32 :: b in r ==> r[b] == NewOwner(owner, f, start, n, b)
  {
    var base := OwnersOf(owner, f, start, n);
    if n >= NDIRECT then base[start + n := (f, INDIRECT)] else base
  }

  function OwnersOf(owner: Owners, f: nat, start: nat, n: nat): (r: Owners)
    requires start + n < W
    ensures forall b: U32 :: b in r <==> b in owner || start <= b < start + n
    ensures forall b: U32 :: b in r ==> r[b] == if start <= b < start + n then (f, b - start) else owner[b]
  {
    if n == 0 then owner else OwnersOf(owner, f, start, n - 1)[start + n - 1 := (f, n - 1)]
  }

  lemma BlocksBound(size: nat)
    requires size <= MAXFILESIZE
    ensures Blocks(size) <= MAXBLOCKS
    ensures forall m: nat :: m < Blocks(size) <==> m * BLKSIZE < size
  {
    forall m: nat | true ensures m < Blocks(size) <==> m * BLKSIZE < size { BlocksExact(m, size); }
  }

  // What the new file's slots hold; the other files' are as before.
  lemma NewPtrs(img: Image, owner: Owners, data: seq<Byte>)
    requires Inv(View(img), owner) && AddFile(img, data).Some? && |data| <= MAXFILESIZE && img.pos >= 3
    ensures var fs, fs', f, n := View(img), View(AddFile(img, data).value), |img.files|, Blocks(|data|);
      && (forall m: nat :: Ptr(fs', f, m) ==
            if m < n then img.pos + m else if m == INDIRECT && n >= NDIRECT then img.pos + n else 0)
      && (forall g: nat, m: nat :: g != f ==> Ptr(fs', g, m) == Ptr(fs, g, m))
  {
    BlocksBound(|data|);
    var fs, fs', f := View(img), View(AddFile(img, data).value), |img.files|;
    forall g: nat, m: nat | g != f ensures Ptr(fs', g, m) == Ptr(fs, g, m) {
      if g < f {
        assert Ptr(fs, g, INDIRECT) == fs.files[g].indirect;
        assert fs'.files[g] == fs.files[g];
      }
    }
  }

  // File f, which had nothing, got blocks start .. start + n - 1 and perhaps a table after them.
  ghost predicate GotBlocks(fs: Fs, fs': Fs, f: nat, start: nat, n: nat, end: nat) {
    && start + n <= end <= |fs.blocks| == |fs'.blocks| == |fs.free| == |fs'.free| && n <= MAXBLOCKS
    && end == start + n + (if n >= NDIRECT then 1 else 0)
    && (forall m: nat :: Ptr(fs, f, m) == 0)
    && (forall m: nat :: Ptr(fs', f, m) == if m < n then start + m else if m == INDIRECT && n >= NDIRECT then start + n else 0)
    && (forall g: nat, m: nat :: g != f ==> Ptr(fs', g, m) == Ptr(fs, g, m))
    && (forall b: nat :: b < |fs.free| ==> fs.free[b] == (b >= start) && fs'.free[b] == (b >= end))
  }

  lemma OwnedGot(fs: Fs, fs': Fs, owner: Owners, f: nat, start: nat, n: nat, end: nat)
    requires Owned(fs, owner) && GotBlocks(fs, fs', f, start, n, end) && Reserved(|fs.blocks|) <= start && |fs.blocks| < 0x10_0000
    ensures Owned(fs', NewOwners(owner, f, start, n))
  {
    var owner' := NewOwners(owner, f, start, n);
    forall b: U32 | b in owner' ensures Reserved(|fs.blocks|) <= b < |fs.blocks| && Ptr(fs', owner'[b].0, owner'[b].1) == b {
      OwnerHolds(fs, fs', owner, f, start, n, end, b);
    }
    forall g: nat, m: nat | Ptr(fs', g, m) != 0 ensures Ptr(fs', g, m) in owner' && owner'[Ptr(fs', g, m)] == (g, m) {
      HolderOwns(fs, fs', owner, f, start, n, end, g, m);
    }
  }

  lemma OwnerHolds(fs: Fs, fs': Fs, owner: Owners, f: nat, start: nat, n: nat, end: nat, b: U32)
    requires Owned(fs, owner) && GotBlocks(fs, fs', f, start, n, end) && Reserved(|fs.blocks|) <= start && |fs.blocks| < 0x10_0000
    requires b in NewOwners(owner, f, start, n)
    ensures var owner' := NewOwners(owner, f, start, n);
      Reserved(|fs.blocks|) <= b < |fs.blocks| && Ptr(fs', owner'[b].0, owner'[b].1) == b
  {
    if b in owner {
      assert Ptr(fs, owner[b].0, owner[b].1) == b;
      assert !fs.free[b];
    }
  }

  lemma HolderOwns(fs: Fs, fs': Fs, owner: Owners, f: nat, start: nat, n: nat, end: nat, g: nat, m: nat)
    requires Owned(fs, owner) && GotBlocks(fs, fs', f, start, n, end) && Reserved(|fs.blocks|) <= start && |fs.blocks| < 0x10_0000
    requires Ptr(fs', g, m) != 0
    ensures var owner' := NewOwners(owner, f, start, n); Ptr(fs', g, m) in owner' && owner'[Ptr(fs', g, m)] == (g, m)
  {
    var p := Ptr(fs', g, m);
    if g != f {
      assert p == Ptr(fs, g, m);
      UsedBelow(fs, owner, p, start);
      assert NewOwner(owner, f, start, n, p) == owner[p];
    } else if m < n {
      assert p == start + m;
      assert NewOwner(owner, f, start, n, p) == (f, m);
    } else {
      assert p == start + n && m == INDIRECT;
      assert NewOwner(owner, f, start, n, p) == (f, INDIRECT);
    }
  }

  lemma UsedBelow(fs: Fs, owner: Owners, p: U32, start: nat)
    requires Owned(fs, owner) && p in owner && |fs.free| == |fs.blocks|
    requires forall b: nat :: b < |fs.free| ==> fs.free[b] == (b >= start)
    ensures p < start && p < |fs.blocks|
  {}

  lemma AddFileInv(img: Image, owner: Owners, data: seq<Byte>)
    requires Inv(View(img), owner) && AddFile(img, data).Some? && |data| <= MAXFILESIZE && img.pos >= Reserved(|img.blocks|)
    ensures Inv(View(AddFile(img, data).value), NewOwners(owner, |img.files|, img.pos, Blocks(|data|)))
  {
    var img' := AddFile(img, data).value;
    var f, n := |img.files|, Blocks(|data|);
    BlocksBound(|data|);
    NewPtrs(img, owner, data);
    assert GotBlocks(View(img), View(img'), f, img.pos, n, img'.pos);
    OwnedGot(View(img), View(img'), owner, f, img.pos, n, img'.pos);
    AddFileShaped(img, owner, data);
  }

  lemma AddFileShaped(img: Image, owner: Owners, data: seq<Byte>)
    requires Inv(View(img), owner) && AddFile(img, data).Some? && |data| <= MAXFILESIZE && img.pos >= Reserved(|img.blocks|)
    requires GotBlocks(View(img), View(AddFile(img, data).value), |img.files|, img.pos, Blocks(|data|), AddFile(img, data).value.pos)
    ensures Sized(View(AddFile(img, data).value)) && Shaped(View(AddFile(img, data).value))
  {
    var img' := AddFile(img, data).value;
    var fs, fs', f, n := View(img), View(img'), |img.files|, Blocks(|data|);
    BlocksBound(|data|);
    forall g: nat, m: nat | m < MAXBLOCKS && 0 < Ptr(fs', g, m) < |fs'.blocks| ensures IsData(fs'.blocks[Ptr(fs', g, m)]) {
      if g != f { assert Ptr(fs, g, m) in owner && !fs.free[Ptr(fs, g, m)]; }
    }
    forall g: nat | g < |fs'.files| && fs'.files[g].indirect != 0
      ensures fs'.files[g].indirect < |fs'.blocks| && IsTable(fs'.blocks[fs'.files[g].indirect])
    {
      assert Ptr(fs', g, INDIRECT) == fs'.files[g].indirect;
      if g != f {
        assert fs'.files[g] == fs.files[g];
        assert Ptr(fs, g, INDIRECT) in owner && !fs.free[Ptr(fs, g, INDIRECT)];
      }
    }
  }

  // ---- The whole image ----

  // opendisk: the boot, super and bitmap blocks are handed out, the rest is zero.
  function OpenDisk(nblocks: nat): Option<Image> {
    if Reserved(nblocks) >= nblocks then None
    else Some(Image(seq(nblocks, _ => Data(Chunk([], 0))), [], Reserved(nblocks)))
  }

  function AddAll(img: Image, contents: seq<seq<Byte>>): Option<Image>
    decreases |contents|
  {
    if contents == [] then Some(img)
    else if |contents[0]| >= MAXFILESIZE then None
    else
      var img1 := AddFile(img, contents[0]);
      if img1.None? then None else AddAll(img1.value, contents[1..])
  }

  // ROUNDUP(n, BLKSIZE) on signed integers, with C's remainder: n = 0 gives a whole block.
  function RoundUp(n: int): int {
    n - 1 + BLKSIZE - if n >= 1 then (n - 1) % BLKSIZE else -((1 - n) % BLKSIZE)
  }

  lemma RoundUpIs(n: nat)
    ensures RoundUp(n) == if n == 0 then BLKSIZE else Blocks(n) * BLKSIZE
    ensures n > 0 ==> Blocks(RoundUp(n)) == Blocks(n)
  {}

  // finishdir, for entries in whole blocks. The length of the root is rounded up as a signed
  // integer, so a root without entries gets a block that nobody has handed out.
  function AddRoot(img: Image, dir: seq<Byte>): Option<Image> {
    if dir != [] then AddFile(img, dir)
    else if img.pos >= |img.blocks| || |img.blocks| >= 0x10_0000 then None
    else Some(img.(files := img.files + [File(RoundUp(0), DirectOf(img.pos, Blocks(RoundUp(0))), 0)]))
  }

  // The entries, filled up with zeros to whole blocks.
  function Padded(dir: seq<Byte>): (r: seq<Byte>)
    ensures |r| == Blocks(|dir|) * BLKSIZE && (dir == [] <==> r == [])
    ensures forall m: nat :: m < Blocks(|dir|) ==> Chunk(r, m) == Chunk(dir, m)
  {
    var r := seq(Blocks(|dir|) * BLKSIZE, p requires 0 <= p => if p < |dir| then dir[p] else 0);
    assert forall m: nat :: m < Blocks(|dir|) ==> Chunk(r, m) == Chunk(dir, m);
    r
  }

  // fsformat: the files, then the root directory, whose contents are `dir`.
  function Format(nblocks: nat, contents: seq<seq<Byte>>, dir: seq<Byte>): Option<Image> {
    if |contents| > MAX_DIR_ENTS || OpenDisk(nblocks).None? then None
    else
      var img := AddAll(OpenDisk(nblocks).value, contents);
      if img.None? then None else AddRoot(img.value, dir)
  }

  function Total(contents: seq<seq<Byte>>): nat {
    if contents == [] then 0 else Needed(|contents[0]|) + Total(contents[1..])
  }

  // The files fit exactly if a block is left over at the end.
  lemma {:induction false} AddAllFits(img: Image, contents: seq<seq<Byte>>)
    requires img.pos < |img.blocks| < 0x10_0000 && forall i :: 0 <= i < |contents| ==> |contents[i]| < MAXFILESIZE
    ensures AddAll(img, contents).Some? <==> img.pos + Total(contents) < |img.blocks|
    ensures AddAll(img, contents).Some? ==>
      AddAll(img, contents).value.pos == img.pos + Total(contents) && |AddAll(img, contents).value.blocks| == |img.blocks|
    decreases |contents|
  {
    if contents != [] && AddFile(img, contents[0]).Some? {
      AddAllFits(AddFile(img, contents[0]).value, contents[1..]);
    }
  }

  // File f is laid out with these contents.
  ghost predicate Laid(fs: Fs, f: nat, data: seq<Byte>) {
    && |fs.free| == |fs.blocks| < 0x10_0000 && f < |fs.files| && |fs.files[f].direct| == NDIRECT && fs.files[f].size == |data|
    && forall m: nat :: m * BLKSIZE < |data| ==>
         m < MAXBLOCKS && 0 < Ptr(fs, f, m) < |fs.blocks| && fs.blocks[Ptr(fs, f, m)] == Data(Chunk(data, m))
  }

  lemma OpenDiskInv(nblocks: nat)
    requires nblocks < 0x10_0000 && OpenDisk(nblocks).Some?
    ensures Inv(View(OpenDisk(nblocks).value), map[])
  {}

  lemma AddFileLays(img: Image, owner: Owners, data: seq<Byte>)
    requires Inv(View(img), owner) && AddFile(img, data).Some? && |data| <= MAXFILESIZE && img.pos >= Reserved(|img.blocks|)
    ensures Laid(View(AddFile(img, data).value), |img.files|, data)
  {
    BlocksBound(|data|);
    NewPtrs(img, owner, data);
  }

  lemma AddFileKeepsLaid(img: Image, owner: Owners, data: seq<Byte>, f: nat, data0: seq<Byte>)
    requires Inv(View(img), owner) && AddFile(img, data).Some? && |data| <= MAXFILESIZE && img.pos >= Reserved(|img.blocks|)
    requires Laid(View(img), f, data0)
    ensures Laid(View(AddFile(img, data).value), f, data0)
  {
    var fs, fs' := View(img), View(AddFile(img, data).value);
    BlocksBound(|data|);
    NewPtrs(img, owner, data);
    forall m: nat | m * BLKSIZE < |data0|
      ensures m < MAXBLOCKS && 0 < Ptr(fs', f, m) < |fs'.blocks| && fs'.blocks[Ptr(fs', f, m)] == Data(Chunk(data0, m))
    {
      assert Ptr(fs, f, m) in owner && !fs.free[Ptr(fs, f, m)];
      assert Ptr(fs', f, m) == Ptr(fs, f, m) < img.pos;
    }
  }

  // The files before `from` are laid out as data0 says, the rest of them as contents says.
  ghost predicate AllLaid(fs: Fs, contents: seq<seq<Byte>>) {
    |contents| <= |fs.files| && forall i: nat :: i < |contents| ==> Laid(fs, i, contents[i])
  }

  // Everything AddFile keeps.
  ghost predicate Built(img: Image, done: seq<seq<Byte>>) {
    && (exists owner :: Inv(View(img), owner)) && Reserved(|img.blocks|) <= img.pos && |img.files| == |done|
    && AllLaid(View(img), done)
  }

  lemma AddFileBuilt(img: Image, done: seq<seq<Byte>>, data: seq<Byte>)
    requires Built(img, done) && AddFile(img, data).Some? && |data| <= MAXFILESIZE
    ensures Built(AddFile(img, data).value, done + [data])
  {
    var owner: Owners :| Inv(View(img), owner);
    var img1 := AddFile(img, data).value;
    AddFileInv(img, owner, data);
    AddFileLays(img, owner, data);
    forall i: nat | i < |done| ensures Laid(View(img1), i, done[i]) { AddFileKeepsLaid(img, owner, data, i, done[i]); }
  }

  ghost predicate BuildSteps(built: (Image, seq<seq<Byte>>) -> bool) {
    forall img: Image, done: seq<seq<Byte>>, data: seq<Byte> {:trigger built(AddFile(img, data).value, done + [data])} ::
      built(img, done) && AddFile(img, data).Some? && |data| <= MAXFILESIZE ==> built(AddFile(img, data).value, done + [data])
  }

  lemma {:induction false} AddAllBuilds(built: (Image, seq<seq<Byte>>) -> bool, img: Image, done: seq<seq<Byte>>, contents: seq<seq<Byte>>)
    requires built(img, done) && BuildSteps(built) && AddAll(img, contents).Some?
    ensures built(AddAll(img, contents).value, done + contents)
    decreases |contents|
  {
    if contents == [] {
      assert done + contents == done;
    } else {
      var img1 := AddFile(img, contents[0]).value;
      assert built(AddFile(img, contents[0]).value, done + [contents[0]]);
      AddAllBuilds(built, img1, done + [contents[0]], contents[1..]);
      assert done + [contents[0]] + contents[1..] == done + contents;
    }
  }

  lemma FormatBuilds(nblocks: nat, contents: seq<seq<Byte>>, dir: seq<Byte>)
    requires nblocks < 0x10_0000 && |dir| <= MAXFILESIZE && dir != [] && Format(nblocks, contents, dir).Some?
    ensures Built(Format(nblocks, contents, dir).value, contents + [dir])
  {
    var img0 := OpenDisk(nblocks).value;
    OpenDiskInv(nblocks);
    assert Built(img0, []);
    var built := (img: Image, done: seq<seq<Byte>>) => Built(img, done);
    forall img: Image, done: seq<seq<Byte>>, data: seq<Byte> | built(img, done) && AddFile(img, data).Some? && |data| <= MAXFILESIZE
      ensures built(AddFile(img, data).value, done + [data])
    {
      AddFileBuilt(img, done, data);
    }
    AddAllBuilds(built, img0, [], contents);
    assert [] + contents == contents;
    AddFileBuilt(AddAll(img0, contents).value, contents, dir);
  }

  // ---- Reading it back ----

  lemma GetLaidBlock(fs: Fs, f: nat, data: seq<Byte>, n: nat)
    requires Laid(fs, f, data) && n * BLKSIZE < |data|
    ensures GetBlock(fs, f, n) == Ok(fs, Ptr(fs, f, n)) && Usable(fs, f, Ptr(fs, f, n))
  {}

  lemma ChunkIs(data: seq<Byte>, n: nat, k: nat, bn: nat)
    requires k + bn <= BLKSIZE && n * BLKSIZE + k + bn <= |data|
    ensures Chunk(data, n)[k..k + bn] == data[n * BLKSIZE + k..n * BLKSIZE + k + bn]
  {}

  lemma Slices(data: seq<Byte>, a: nat, b: nat, c: nat)
    requires a <= b <= c <= |data|
    ensures data[a..b] + data[b..c] == data[a..c]
  {}

  // What the loop of file_read has got when it has len bytes to go at pos.
  function Expected(fs: Fs, data: seq<Byte>, pos: nat, len: nat): Outcome<seq<Byte>>
    requires len == 0 || pos + len <= |data|
  {
    Ok(fs, if len == 0 then [] else data[pos..pos + len])
  }

  lemma ExpectedJoins(fs: Fs, data: seq<Byte>, pos: nat, bn: nat, len: nat)
    requires bn <= len && pos + len <= |data| && bn > 0
    ensures Prepend(data[pos..pos + bn], Expected(fs, data, pos + bn, len - bn)) == Expected(fs, data, pos, len)
  {
    Slices(data, pos, pos + bn, pos + len);
    assert data[pos..pos + bn] + [] == data[pos..pos + bn];
  }

  // A read that takes the file block by block gets all of it.
  ghost predicate ByBlocks(read: (nat, nat, nat) -> Outcome<seq<Byte>>, fs: Fs, data: seq<Byte>) {
    && (forall n: nat, k: nat {:trigger read(n, k, 0)} :: read(n, k, 0) == Ok(fs, []))
    && (forall n: nat, k: nat, len: nat {:trigger OneTurn(read, data, n, k, len)} ::
          k < BLKSIZE && len > 0 && n * BLKSIZE + k + len <= |data| ==> OneTurn(read, data, n, k, len))
  }

  ghost predicate OneTurn(read: (nat, nat, nat) -> Outcome<seq<Byte>>, data: seq<Byte>, n: nat, k: nat, len: nat)
    requires k < BLKSIZE
  {
    var bn := Min(BLKSIZE - k, len);
    read(n, k, len) == Prepend(Chunk(data, n)[k..k + bn], read(n + 1, 0, len - bn))
  }

  lemma {:induction false} ReadByBlocks(read: (nat, nat, nat) -> Outcome<seq<Byte>>, fs: Fs, data: seq<Byte>, n: nat, k: nat, len: nat, pos: nat)
    requires ByBlocks(read, fs, data) && k < BLKSIZE && (len == 0 || (pos == n * BLKSIZE + k && pos + len <= |data|))
    ensures read(n, k, len) == Expected(fs, data, pos, len)
    decreases len
  {
    if len > 0 {
      var bn := Min(BLKSIZE - k, len);
      assert OneTurn(read, data, n, k, len);
      ReadByBlocks(read, fs, data, n + 1, 0, len - bn, pos + bn);
      ChunkIs(data, n, k, bn);
      ExpectedJoins(fs, data, pos, bn, len);
    }
  }

  lemma ReadLaid(fs: Fs, f: nat, data: seq<Byte>, n: nat, k: nat, len: nat, pos: nat)
    requires Laid(fs, f, data) && k < BLKSIZE && (len == 0 || (pos == n * BLKSIZE + k && pos + len <= |data|))
    ensures ReadFrom(fs, f, n, k, len) == Expected(fs, data, pos, len)
  {
    var read := (n: nat, k: nat, len: nat) => if k < BLKSIZE then ReadFrom(fs, f, n, k, len) else Ok(fs, []);
    forall n: nat, k: nat, len: nat | k < BLKSIZE && len > 0 && n * BLKSIZE + k + len <= |data|
      ensures OneTurn(read, data, n, k, len)
    {
      ReadLaidTurn(fs, f, data, n, k, len);
    }
    ReadByBlocks(read, fs, data, n, k, len, pos);
  }

  lemma ReadLaidTurn(fs: Fs, f: nat, data: seq<Byte>, n: nat, k: nat, len: nat)
    requires Laid(fs, f, data) && k < BLKSIZE && len > 0 && n * BLKSIZE + k + len <= |data|
    ensures var bn := Min(BLKSIZE - k, len);
      ReadFrom(fs, f, n, k, len) == Prepend(Chunk(data, n)[k..k + bn], ReadFrom(fs, f, n + 1, 0, len - bn))
  {
    GetLaidBlock(fs, f, data, n);
  }

  // A formatted image is a well-formed file system exactly if its root has an entry. It has
  // the blocks below pos in use, and no others, either way.
  lemma FormatWellFormed(nblocks: nat, contents: seq<seq<Byte>>, dir: seq<Byte>)
    requires nblocks < 0x10_0000 && |dir| <= MAXFILESIZE && Format(nblocks, contents, dir).Some?
    ensures var img := Format(nblocks, contents, dir).value;
      && (Good(View(img)) <==> dir != [])
      && |img.files| == |contents| + 1 && |img.blocks| == nblocks && Reserved(nblocks) <= img.pos < nblocks
      && (forall b: nat :: b < nblocks ==> (View(img).free[b] <==> b >= img.pos))
  {
    AddAllSize(OpenDisk(nblocks).value, contents);
    var img := AddAll(OpenDisk(nblocks).value, contents).value;
    if dir != [] {
      FormatBuilds(nblocks, contents, dir);
    } else {
      RootUnowned(img);
    }
  }

  // The root without entries points at a free block.
  lemma RootUnowned(img: Image)
    requires AddRoot(img, []).Some?
    ensures !Good(View(AddRoot(img, []).value))
  {
    var fs, f := View(AddRoot(img, []).value), |img.files|;
    assert fs.files[f].direct[0] == img.pos && fs.free[img.pos];
    if Good(fs) { NoFreePointer(fs, f); }
  }

  lemma NoFreePointer(fs: Fs, f: nat)
    requires Good(fs) && f < |fs.files|
    ensures Sized(fs) && (fs.files[f].direct[0] != 0 ==> fs.files[f].direct[0] < |fs.free| && !fs.free[fs.files[f].direct[0]])
  {
    var owner: Owners :| Inv(fs, owner);
    assert Ptr(fs, f, 0) == fs.files[f].direct[0];
  }

  lemma LaidFile(img: Image, done: seq<seq<Byte>>, i: nat)
    requires Built(img, done) && i < |done|
    ensures Laid(View(img), i, done[i]) && Sized(View(img))
  {
    GoodSized(View(img));
  }

  lemma FormatLays(nblocks: nat, contents: seq<seq<Byte>>, dir: seq<Byte>, fs: Fs, i: nat)
    requires nblocks < 0x10_0000 && |dir| <= MAXFILESIZE && dir != [] && Format(nblocks, contents, dir).Some? && i < |contents|
    requires fs == View(Format(nblocks, contents, dir).value)
    ensures Laid(fs, i, contents[i]) && Sized(fs)
  {
    FormatBuilds(nblocks, contents, dir);
    LaidFile(Format(nblocks, contents, dir).value, contents + [dir], i);
  }

  // file_read gives back these contents, at any offset, without changing anything.
  ghost predicate ReadsBack(fs: Fs, f: nat, data: seq<Byte>) {
    && Sized(fs) && f < |fs.files| && fs.files[f].size == |data|
    && forall count: nat, offset: nat {:trigger Read(fs, f, count, offset)} :: offset < |data| ==>
         Read(fs, f, count, offset) == Ok(fs, data[offset..offset + Min(count, |data| - offset)])
  }

  lemma LaidReadsBack(fs: Fs, f: nat, data: seq<Byte>)
    requires Laid(fs, f, data) && Sized(fs)
    ensures ReadsBack(fs, f, data)
  {
    forall count: nat, offset: nat | offset < |data|
      ensures Read(fs, f, count, offset) == Ok(fs, data[offset..offset + Min(count, |data| - offset)])
    {
      ReadBack(fs, f, data, count, offset);
    }
  }

  // Every file put on the image reads back as it was.
  lemma RoundTrip(nblocks: nat, contents: seq<seq<Byte>>, dir: seq<Byte>, fs: Fs, i: nat)
    requires nblocks < 0x10_0000 && |dir| <= MAXFILESIZE && dir != [] && Format(nblocks, contents, dir).Some?
    requires fs == View(Format(nblocks, contents, dir).value) && i < |contents|
    ensures ReadsBack(fs, i, contents[i])
  {
    FormatLays(nblocks, contents, dir, fs, i);
    LaidReadsBack(fs, i, contents[i]);
  }

  lemma ReadBack(fs: Fs, f: nat, data: seq<Byte>, count: nat, offset: nat)
    requires Laid(fs, f, data) && offset < |data|
    ensures Read(fs, f, count, offset) == Ok(fs, data[offset..offset + Min(count, |data| - offset)])
  {
    var len := Min(count, |data| - offset);
    assert Read(fs, f, count, offset) == ReadFrom(fs, f, offset / BLKSIZE, offset % BLKSIZE, len);
    assert offset == offset / BLKSIZE * BLKSIZE + offset % BLKSIZE;
    ReadLaid(fs, f, data, offset / BLKSIZE, offset % BLKSIZE, len, offset);
    assert len == 0 ==> data[offset..offset + len] == [];
  }

  lemma {:induction false} AddAllSize(img: Image, contents: seq<seq<Byte>>)
    requires AddAll(img, contents).Some?
    ensures var img' := AddAll(img, contents).value;
      |img'.blocks| == |img.blocks| && img'.pos >= img.pos && |img'.files| == |img.files| + |contents| && (img.pos < |img.blocks| ==> img'.pos < |img.blocks|)
    decreases |contents|
  {
    if contents != [] { AddAllSize(AddFile(img, contents[0]).value, contents[1..]); }
  }

  // ---- The formatter as code ----

  class Disk {
    var blocks: seq<Block>
    var bitmap: seq<bool>
    var files: seq<File>
    var pos: nat

    ghost function State(): Image
      reads this
    {
      Image(blocks, files, pos)
    }

    // opendisk, for a disk that has room for its reserved blocks
    constructor (nblocks: nat)
      requires OpenDisk(nblocks).Some?
      ensures State() == OpenDisk(nblocks).value && bitmap == seq(nblocks, _ => true)
    {
      blocks := seq(nblocks, _ => Data(Chunk([], 0)));
      files, pos := [], Reserved(nblocks);
      bitmap := seq(nblocks, _ => true);
    }

    // alloc; false is a panic
    method Alloc(bytes: nat) returns (ok: bool, start: nat)
      modifies this`pos
      ensures start == old(pos) && pos == old(pos) + Blocks(bytes) && ok == (pos < |blocks|)
    {
      start := pos;
      pos := pos + (bytes + BLKSIZE - 1) / BLKSIZE;
      ok := pos < |blocks|;
    }

    // readn into the blocks from `start` on
    method Copy(start: nat, n: nat, data: seq<Byte>)
      requires start + n <= |blocks|
      modifies this`blocks
      ensures blocks == Copied(old(blocks), start, n, data)
    {
      for i := 0 to n
        invariant |blocks| == |old(blocks)|
        invariant forall b: nat :: b < |blocks| ==>
          blocks[b] == if start <= b < start + i then Data(Chunk(data, b - start)) else old(blocks)[b]
      {
        blocks := blocks[start + i := Data(Chunk(data, i))];
      }
    }

    // The block table of finishfile, in block `table`.
    method FillTable(table: nat, start: nat, n: nat)
      requires NDIRECT <= n <= MAXBLOCKS && table < |blocks| && start + n < W
      modifies this`blocks
      ensures blocks == old(blocks)[table := Table(TableOf(start, n))]
    {
      var ptrs: seq<U32> := seq(NINDIRECT, _ => 0);
      for i := NDIRECT to n
        invariant |ptrs| == NINDIRECT
        invariant forall k: nat :: k < NINDIRECT ==> ptrs[k] == if NDIRECT + k < i then start + NDIRECT + k else 0
      {
        ptrs := PutPtr(ptrs, i - NDIRECT, start + i);
      }
      assert ptrs == TableOf(start, n);
      blocks := blocks[table := Table(ptrs)];
    }

    // finishfile; false is a panic
    method FinishFile(start: nat, len: nat) returns (ok: bool, f: File)
      requires len <= MAXFILESIZE && pos < |blocks| < 0x10_0000 && start <= pos
      modifies this`pos, this`blocks
      ensures ok == (old(pos) + (if Blocks(len) >= NDIRECT then 1 else 0) < |blocks|) && |blocks| == |old(blocks)|
      ensures ok ==> pos == old(pos) + if Blocks(len) >= NDIRECT then 1 else 0
      ensures ok ==> f == File(len, DirectOf(start, Blocks(len)), if Blocks(len) >= NDIRECT then old(pos) else 0)
      ensures ok ==> blocks == if Blocks(len) >= NDIRECT then old(blocks)[old(pos) := Table(TableOf(start, Blocks(len)))] else old(blocks)
    {
      BlocksBound(len);
      var n := Blocks(len);
      var direct: seq<U32> := seq(NDIRECT, _ => 0);
      var i := 0;
      while i < n && i < NDIRECT
        invariant i <= n && i <= NDIRECT && |direct| == NDIRECT
        invariant forall k: nat :: k < NDIRECT ==> direct[k] == if k < i then start + k else 0
      {
        direct := PutPtr(direct, i, start + i);
        i := i + 1;
      }
      assert direct == DirectOf(start, n);
      f := File(len, direct, 0);
      ok := true;
      if i == NDIRECT {
        var table;
        ok, table := Alloc(BLKSIZE);
        if !ok { return; }
        f := f.(indirect := table);
        FillTable(table, start, n);
      }
    }

    // writefile once the file is open; false is a panic
    method WriteFile(data: seq<Byte>) returns (ok: bool)
      requires |data| <= MAXFILESIZE && |blocks| < 0x10_0000
      modifies this
      ensures ok <==> AddFile(old(State()), data).Some?
      ensures ok ==> State() == AddFile(old(State()), data).value && bitmap == old(bitmap)
    {
      var start, f;
      ok, start := Alloc(|data|);
      if !ok { return; }
      Copy(start, Blocks(|data|), data);
      ok, f := FinishFile(start, |data|);
      if !ok { return; }
      files := files + [f];
    }

    // finishdir, for these entries; false is a panic
    method FinishDir(ents: seq<Byte>) returns (ok: bool)
      requires |ents| <= MAXFILESIZE - BLKSIZE && |blocks| < 0x10_0000
      modifies this
      ensures ok <==> AddRoot(old(State()), Padded(ents)).Some?
      ensures ok ==> State() == AddRoot(old(State()), Padded(ents)).value && bitmap == old(bitmap)
    {
      var size: int := |ents|;
      var start, f;
      ok, start := Alloc(|ents|);
      if !ok { return; }
      ghost var blocks0 := blocks;
      Copy(start, Blocks(|ents|), ents);
      assert blocks == Copied(blocks0, start, Blocks(|ents|), Padded(ents));
      RoundUpIs(size);
      ok, f := FinishFile(start, RoundUp(size));
      if !ok { return; }
      files := files + [f];
    }

    // finishdisk
    method FinishDisk()
      requires pos <= |blocks| == |bitmap| && forall b :: 0 <= b < |bitmap| ==> bitmap[b]
      modifies this`bitmap
      ensures bitmap == View(State()).free
    {
      for i := 0 to pos
        invariant |bitmap| == |blocks|
        invariant forall b :: 0 <= b < |bitmap| ==> bitmap[b] == (b >= i)
      {
        bitmap := bitmap[i := false];
      }
    }
  }
}
