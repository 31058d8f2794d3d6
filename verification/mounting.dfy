/** The formatter's image as the file server starts with it: the structures in the root's blocks,
    the root's own in the super block. */
module Mounting {
  import opened Words
  import opened FileSystem
  import opened Formatter
  import opened Directory
  import opened FileCreation
  import opened Homes
  import opened InPlace
  import opened Lodging
  import opened FileRuns
  import opened Listing

  // File k of n is entry k of the root, which is the last.
  function ImageHomes(fs: Fs, n: nat): (r: seq<Home>)
    ensures |r| == n + 1 && r[n] == Super && forall k: nat :: k < n ==> r[k] == Slot(Ptr(fs, n, k / 16), k % 16)
  {
    seq(n, k requires 0 <= k < n => Slot(Ptr(fs, n, k / 16), k % 16)) + [Super]
  }

  function ImageDisk(fs: Fs, n: nat): Homes.Disk
    requires n < |fs.files|
  {
    Homes.Disk.Disk(fs.free, fs.blocks, fs.files[n])
  }

  ghost predicate IsImage(nblocks: nat, names: seq<seq<Byte>>, contents: seq<seq<Byte>>, fs: Fs) {
    && |names| == |contents| > 0 && (forall n :: n in names ==> Proper(n)) && nblocks < 0x10_0000
    && FormatNamed(nblocks, names, contents).Some? && fs == View(FormatNamed(nblocks, names, contents).value)
  }

  function RootData(names: seq<seq<Byte>>, files: seq<File>): seq<Byte>
    requires |names| <= |files| && (forall n :: n in names ==> Proper(n)) && FilesOk(files)
  {
    DirData(Entries(names, files[..|names|]))
  }

  lemma {:induction false} AddAllSmall(img: Image, contents: seq<seq<Byte>>)
    requires AddAll(img, contents).Some?
    ensures forall i :: 0 <= i < |contents| ==> |contents[i]| < MAXFILESIZE
    decreases |contents|
  {
    if contents != [] {
      AddAllSmall(AddFile(img, contents[0]).value, contents[1..]);
      forall i | 0 <= i < |contents| ensures |contents[i]| < MAXFILESIZE { if i > 0 { assert contents[i] == contents[1..][i - 1]; } }
    }
  }

  // How the image is laid out.
  lemma ImageLaid(nblocks: nat, names: seq<seq<Byte>>, contents: seq<seq<Byte>>, fs: Fs)
    requires IsImage(nblocks, names, contents, fs)
    ensures |fs.files| == |names| + 1 && FilesOk(fs.files) && Good(fs)
    ensures forall k: nat :: k < |names| ==> |contents[k]| < MAXFILESIZE && Laid(fs, k, contents[k])
    ensures |RootData(names, fs.files)| <= MAXFILESIZE && Laid(fs, |names|, RootData(names, fs.files))
  {
    var img := AddAll(OpenDisk(nblocks).value, contents).value;
    AddAllFiles(OpenDisk(nblocks).value, contents);
    AddAllSmall(OpenDisk(nblocks).value, contents);
    var ents := Entries(names, img.files);
    RootLaid(nblocks, contents, ents, fs);
    ImageWellFormed(nblocks, names, contents);
    assert fs.files[..|names|] == img.files;
    forall k: nat | k < |names| ensures Laid(fs, k, contents[k]) { FormatLays(nblocks, contents, DirData(ents), fs, k); }
  }

  // Each entry of the root holds its file's structure.
  lemma ImageEntry(nblocks: nat, names: seq<seq<Byte>>, contents: seq<seq<Byte>>, fs: Fs, k: nat)
    requires IsImage(nblocks, names, contents, fs) && k < |names|
    ensures |fs.files| == |names| + 1 && Hosted(fs, k, ImageHomes(fs, |names|)[k], |names|, k / 16)
    ensures FileIn(ImageDisk(fs, |names|), ImageHomes(fs, |names|)[k]) == fs.files[k] && Fits(fs.files[k])
  {
    var n := |names|;
    ImageLaid(nblocks, names, contents, fs);
    var ents := Entries(names, fs.files[..n]);
    assert DirData(ents) == RootData(names, fs.files);
    assert names[k] in names && ents[k].file == fs.files[k];
    ImagePlace(n, k);
    LaidSlot(fs, n, ents, k / 16, k % 16, names[k]);
    LaidIsWhole(fs, n, ents);
    InSize(fs.files[n].size, k / 16);
    assert Ptr(fs, n, k / 16) > 0;
    assert fs.files[k].size == |contents[k]|;
    EntryHolds(fs, n, k / 16, k % 16, fs.files[k]);
  }

  lemma ImagePlace(n: nat, k: nat)
    requires k < n
    ensures k % 16 < BLKFILES && Place(k / 16, k % 16) == k && k / 16 < Blocks(FILESIZE * n)
  {}

  lemma EntryHolds(fs: Fs, n: nat, i: nat, j: nat, file: File)
    requires n < |fs.files| && j < BLKFILES && 0 < Ptr(fs, n, i) < |fs.blocks| && IsData(fs.blocks[Ptr(fs, n, i)])
    requires FileAt(BytesOf(fs, n, i), Off(j)) == file && 0 <= file.size < 0x8000_0000
    ensures FileIn(ImageDisk(fs, n), Slot(Ptr(fs, n, i), j)) == file
  {}

  lemma OtherBlock(fs: Fs, n: nat, a: nat, b: nat)
    requires Good(fs) && Ptr(fs, n, a) != 0 && a != b
    ensures Ptr(fs, n, a) != Ptr(fs, n, b)
  {
    OwnershipMeans(fs);
  }

  lemma DistinctPlaces(fs: Fs, n: nat)
    requires Good(fs) && forall k: nat :: k < n ==> Ptr(fs, n, k / 16) != 0
    ensures Distinct(ImageHomes(fs, n))
  {
    var homes := ImageHomes(fs, n);
    forall k, l | 0 <= k < l < |homes| ensures homes[k] != homes[l] {
      if l < n && k / 16 != l / 16 { OtherBlock(fs, n, k / 16, l / 16); }
    }
  }

  lemma PlacesSound(fs: Fs, n: nat)
    requires Good(fs) && |fs.files| == n + 1 && Fits(fs.files[n])
    requires forall k: nat :: k < n ==>
      Hosted(fs, k, ImageHomes(fs, n)[k], n, k / 16) && FileIn(ImageDisk(fs, n), ImageHomes(fs, n)[k]) == fs.files[k] && Fits(fs.files[k])
    ensures Sound(ImageDisk(fs, n), ImageHomes(fs, n)) && Seen(ImageDisk(fs, n), ImageHomes(fs, n)) == fs
  {
    var disk, homes := ImageDisk(fs, n), ImageHomes(fs, n);
    assert Seen(disk, homes).files == fs.files;
    forall k: nat | k < |homes| ensures Lodged(fs, homes, k) {
      if k < n {
        assert Hosted(fs, k, homes[k], n, k / 16);
      } else {
        assert Hosted(fs, k, homes[k], n, 0);
      }
    }
    forall k: nat | k < n ensures Ptr(fs, n, k / 16) != 0 { assert Hosted(fs, k, homes[k], n, k / 16); }
    DistinctPlaces(fs, n);
  }

  // So the file server starts with a sound file system, and it is the one formatted.
  lemma ImageSound(nblocks: nat, names: seq<seq<Byte>>, contents: seq<seq<Byte>>, fs: Fs)
    requires IsImage(nblocks, names, contents, fs)
    ensures |fs.files| == |names| + 1
    ensures var disk, homes := ImageDisk(fs, |names|), ImageHomes(fs, |names|); Sound(disk, homes) && Seen(disk, homes) == fs
  {
    RootFits(nblocks, names, contents, fs);
    forall k: nat | k < |names|
      ensures Hosted(fs, k, ImageHomes(fs, |names|)[k], |names|, k / 16)
      ensures FileIn(ImageDisk(fs, |names|), ImageHomes(fs, |names|)[k]) == fs.files[k] && Fits(fs.files[k])
    {
      ImageEntry(nblocks, names, contents, fs, k);
    }
    PlacesSound(fs, |names|);
  }

  lemma RootFits(nblocks: nat, names: seq<seq<Byte>>, contents: seq<seq<Byte>>, fs: Fs)
    requires IsImage(nblocks, names, contents, fs)
    ensures |fs.files| == |names| + 1 && Good(fs) && Fits(fs.files[|names|]) && fs.files[|names|].size % BLKSIZE == 0
  {
    ImageLaid(nblocks, names, contents, fs);
    assert fs.files[|names|] in fs.files;
    RootSize(names, fs.files);
  }

  lemma RootSize(names: seq<seq<Byte>>, files: seq<File>)
    requires |names| <= |files| && (forall n :: n in names ==> Proper(n)) && FilesOk(files)
    ensures |RootData(names, files)| % BLKSIZE == 0
  {
    Multiple(Blocks(FILESIZE * |names|), |RootData(names, files)|);
  }

  lemma Multiple(a: nat, n: nat)
    requires n == a * BLKSIZE
    ensures n % BLKSIZE == 0
  {}

  // ---- What the files are known to hold ----

  function Whole(data: seq<Byte>): (r: map<nat, Byte>)
    ensures forall p: nat :: p in r <==> p < |data|
    ensures forall p: nat :: p in r ==> r[p] == data[p]
  {
    map p: nat | p < |data| :: data[p]
  }

  lemma LaidContent(fs: Fs, f: nat, data: seq<Byte>, p: nat)
    requires Laid(fs, f, data) && p < |data|
    ensures Content(fs, f, p) == Some(data[p])
  {
    var m, j := p / BLKSIZE, p % BLKSIZE;
    BlockAndRest(p);
    assert 0 < Ptr(fs, f, m) < |fs.blocks| && fs.blocks[Ptr(fs, f, m)] == Data(Chunk(data, m));
  }

  function ImageKnown(names: seq<seq<Byte>>, contents: seq<seq<Byte>>, fs: Fs): (r: Known)
    requires |names| == |contents| && |names| <= |fs.files| && (forall n :: n in names ==> Proper(n)) && FilesOk(fs.files)
    ensures |r| == |names| + 1 && r[|names|] == Whole(RootData(names, fs.files)) && forall k :: 0 <= k < |names| ==> r[k] == Whole(contents[k])
  {
    seq(|contents|, k requires 0 <= k < |contents| => Whole(contents[k])) + [Whole(RootData(names, fs.files))]
  }

  // The contents put on the image, and the root's entries, are the byte arrays to start with.
  lemma ImageAgrees(nblocks: nat, names: seq<seq<Byte>>, contents: seq<seq<Byte>>, fs: Fs)
    requires IsImage(nblocks, names, contents, fs)
    ensures |fs.files| == |names| + 1 && FilesOk(fs.files) && Agrees(fs, ImageKnown(names, contents, fs))
  {
    ImageLaid(nblocks, names, contents, fs);
    var known := ImageKnown(names, contents, fs);
    forall f: nat, p: nat | f < |known| && p in known[f] ensures Content(fs, f, p) == Some(known[f][p]) {
      LaidContent(fs, f, if f < |names| then contents[f] else RootData(names, fs.files), p);
    }
  }

  // On any image with a file: writing four bytes at byte 136 of the root, the first pointer of
  // its first entry, succeeds and breaks ownership.
  lemma RootWriteBreaks(nblocks: nat, names: seq<seq<Byte>>, contents: seq<seq<Byte>>, fs: Fs)
    requires IsImage(nblocks, names, contents, fs)
    ensures |fs.files| == |names| + 1
    ensures Breaks(ImageDisk(fs, |names|), ImageHomes(fs, |names|), |names|, ONE, 136)
  {
    RootFits(nblocks, names, contents, fs);
    ImageSound(nblocks, names, contents, fs);
    ImageEntry(nblocks, names, contents, fs, 0);
    FirstPointer(fs, |names|);
    DirectoryWriteBreaks(ImageDisk(fs, |names|), ImageHomes(fs, |names|), |names|, 0, 0, ONE, 136);
  }

  lemma FirstPointer(fs: Fs, n: nat)
    requires n > 0
    ensures ImageHomes(fs, n)[0] == Slot(Ptr(fs, n, 0), 0)
  {}
}
