/** A file system whose File structures are in its own directories' blocks: what is sound about
    it, and when each operation on one file leaves it so. */
module Lodging {
  import opened Words
  import opened FileSystem
  import opened Directory
  import opened FileCreation
  import opened Homes
  import opened InPlace

  // The files at these places, with their structures as they are there.
  function Seen(disk: Disk, homes: seq<Home>): (fs: Fs)
    ensures |fs.files| == |homes| && fs.free == disk.free && fs.blocks == disk.blocks
    ensures forall k :: 0 <= k < |homes| ==> fs.files[k] == FileIn(disk, homes[k])
  {
    Fs(disk.free, disk.blocks, seq(|homes|, k requires 0 <= k < |homes| => FileIn(disk, homes[k])))
  }

  // The entry is in a block of a file other than its own.
  ghost predicate Lodged(fs: Fs, homes: seq<Home>, k: nat)
    requires k < |homes|
  {
    exists g: nat, m: nat :: Hosted(fs, k, homes[k], g, m)
  }

  ghost predicate AllLodged(fs: Fs, homes: seq<Home>) { forall k: nat :: k < |homes| ==> Lodged(fs, homes, k) }

  predicate Distinct(homes: seq<Home>) { forall k, l :: 0 <= k < l < |homes| ==> homes[k] != homes[l] }

  // Every block has one owner, and every structure a place of its own in a block in use.
  ghost predicate Sound(disk: Disk, homes: seq<Home>) {
    var fs := Seen(disk, homes);
    Good(fs) && AllLodged(fs, homes) && Distinct(homes) && forall k :: 0 <= k < |homes| ==> Fits(fs.files[k])
  }

  lemma SoundBegins(disk: Disk, homes: seq<Home>, f: nat) returns (g: nat, m: nat)
    requires Sound(disk, homes) && f < |homes|
    ensures Begins(disk, Seen(disk, homes), f, homes[f], g, m) && Ready(disk)
  {
    var fs := Seen(disk, homes);
    assert Lodged(fs, homes, f);
    g, m :| Hosted(fs, f, homes[f], g, m);
    GoodSized(fs);
    HostBusy(fs, f, homes[f], g, m);
  }

  // ---- The fields of one entry make no difference to anything else ----

  lemma AlikeFields(blocks: seq<Block>, blocks': seq<Block>, h: Home, k: Home)
    requires Alike(blocks, blocks', h) && k.Slot? && k != h && Sits(blocks, k)
    ensures Sits(blocks', k) && FieldsAt(blocks'[k.b].bytes, k.j) == FieldsAt(blocks[k.b].bytes, k.j)
  {
    if h.Slot? && k.b == h.b { SameFieldsExactly(blocks[k.b].bytes, blocks'[k.b].bytes, k.j); }
  }

  lemma AlikePtrs(fs: Fs, blocks: seq<Block>, h: Home)
    requires Alike(fs.blocks, blocks, h)
    ensures forall x: nat, n: nat :: Ptr(fs.(blocks := blocks), x, n) == Ptr(fs, x, n)
  {}

  lemma AlikeGood(fs: Fs, blocks: seq<Block>, h: Home)
    requires Good(fs) && Alike(fs.blocks, blocks, h)
    ensures Good(fs.(blocks := blocks))
  {
    var owner: Owners :| Inv(fs, owner);
    AlikePtrs(fs, blocks, h);
    AlikeInv(fs, owner, blocks, h);
  }

  lemma AlikeInv(fs: Fs, owner: Owners, blocks: seq<Block>, h: Home)
    requires Inv(fs, owner) && Alike(fs.blocks, blocks, h)
    requires forall x: nat, n: nat :: Ptr(fs.(blocks := blocks), x, n) == Ptr(fs, x, n)
    ensures Inv(fs.(blocks := blocks), owner)
  {
    assert forall b: nat :: b < |blocks| ==> (IsData(fs.blocks[b]) ==> IsData(blocks[b])) && (IsTable(fs.blocks[b]) ==> IsTable(blocks[b]));
  }

  // ---- After an operation on file f ----

  // The other structures read as before.
  ghost predicate OthersRead(disk: Disk, disk': Disk, homes: seq<Home>, f: nat) {
    forall k: nat :: k < |homes| && k != f ==> FileIn(disk', homes[k]) == FileIn(disk, homes[k])
  }

  // The blocks of file f with structures in them are still its own.
  ghost predicate HostsStay(fs: Fs, fs': Fs, homes: seq<Home>, f: nat) {
    forall k: nat, m: nat {:trigger Hosted(fs, k, homes[k], f, m)} ::
      k < |homes| && homes[k].Slot? && Hosted(fs, k, homes[k], f, m) ==> Ptr(fs', f, m) == Ptr(fs, f, m)
  }

  lemma SeenAfter(disk: Disk, homes: seq<Home>, disk': Disk, fs': Fs, f: nat, g: nat, m: nat)
    requires Sound(disk, homes) && f < |homes| && Touched(Seen(disk, homes), disk.root, disk', fs', f, homes[f], g, m)
    requires OthersRead(disk, disk', homes, f)
    ensures Seen(disk', homes) == fs'.(blocks := disk'.blocks) && Good(Seen(disk', homes))
    ensures forall x: nat, n: nat :: Ptr(Seen(disk', homes), x, n) == Ptr(fs', x, n)
  {
    assert Seen(disk', homes).files == fs'.files;
    AlikePtrs(fs', disk'.blocks, homes[f]);
    AlikeGood(fs', disk'.blocks, homes[f]);
  }

  lemma SoundAfter(disk: Disk, homes: seq<Home>, disk': Disk, fs': Fs, f: nat, g: nat, m: nat)
    requires Sound(disk, homes) && f < |homes| && Touched(Seen(disk, homes), disk.root, disk', fs', f, homes[f], g, m)
    requires OthersRead(disk, disk', homes, f) && HostsStay(Seen(disk, homes), fs', homes, f)
    ensures Sound(disk', homes)
  {
    var fs, fs2 := Seen(disk, homes), Seen(disk', homes);
    SeenAfter(disk, homes, disk', fs', f, g, m);
    forall k: nat | k < |homes| ensures Lodged(fs2, homes, k) {
      assert Lodged(fs, homes, k);
      var g1, m1 :| Hosted(fs, k, homes[k], g1, m1);
      assert Hosted(fs2, k, homes[k], g1, m1);
    }
  }

  // ---- The blocks the other structures are in ----

  ghost predicate OtherBytes(fs: Fs, fs': Fs, f: nat) {
    forall g: nat, m: nat, x: nat {:trigger ByteAt(fs', g, m, x)} ::
      g != f && x < BLKSIZE && ByteAt(fs, g, m, x).Some? ==> ByteAt(fs', g, m, x) == ByteAt(fs, g, m, x)
  }

  // Of a structure in a block of file f, the fields are as before.
  ghost predicate FieldsStay(fs: Fs, fs': Fs, homes: seq<Home>, f: nat) {
    forall k: nat, m: nat, x: nat {:trigger Hosted(fs, k, homes[k], f, m), ByteAt(fs', f, m, x)} ::
      k < |homes| && homes[k].Slot? && Hosted(fs, k, homes[k], f, m) && InFields(homes[k].j, x) ==> ByteAt(fs', f, m, x) == ByteAt(fs, f, m, x)
  }

  lemma HostByte(fs: Fs, k: nat, h: Home, g: nat, m: nat, x: nat)
    requires Good(fs) && h.Slot? && Hosted(fs, k, h, g, m) && x < BLKSIZE
    ensures Sits(fs.blocks, h) && ByteAt(fs, g, m, x) == Some(fs.blocks[h.b].bytes[x])
  {
    HostBusy(fs, k, h, g, m);
  }

  lemma SameFieldBytes(fs: Fs, fs': Fs, k: nat, h: Home, g: nat, m: nat)
    requires Good(fs) && Good(fs') && h.Slot? && Hosted(fs, k, h, g, m) && Ptr(fs', g, m) == h.b
    ensures Sits(fs.blocks, h) && Sits(fs'.blocks, h)
    ensures FieldsAt(fs'.blocks[h.b].bytes, h.j) == FieldsAt(fs.blocks[h.b].bytes, h.j) <==>
      forall x: nat :: InFields(h.j, x) ==> ByteAt(fs', g, m, x) == ByteAt(fs, g, m, x)
  {
    HostBusy(fs, k, h, g, m);
    HostBusy(fs', k, h, g, m);
    assert forall x: nat :: x < BLKSIZE ==> ByteAt(fs, g, m, x) == Some(fs.blocks[h.b].bytes[x]) && ByteAt(fs', g, m, x) == Some(fs'.blocks[h.b].bytes[x]);
    SameFieldsExactly(fs'.blocks[h.b].bytes, fs.blocks[h.b].bytes, h.j);
  }

  // What the disk has at another structure's place is what the mirrored state has.
  lemma ReadOfOther(disk: Disk, homes: seq<Home>, disk': Disk, fs': Fs, f: nat, g: nat, m: nat, k: nat, g1: nat, m1: nat)
    requires Sound(disk, homes) && f < |homes| && Touched(Seen(disk, homes), disk.root, disk', fs', f, homes[f], g, m)
    requires k < |homes| && k != f && homes[k].Slot? && Hosted(Seen(disk, homes), k, homes[k], g1, m1) && Ptr(fs', g1, m1) == homes[k].b
    ensures FileIn(disk', homes[k]) == FileIn(disk, homes[k]) <==>
      forall x: nat :: InFields(homes[k].j, x) ==> ByteAt(fs', g1, m1, x) == ByteAt(Seen(disk, homes), g1, m1, x)
  {
    var fs := Seen(disk, homes);
    SameFieldBytes(fs, fs', k, homes[k], g1, m1);
    assert homes[k] != homes[f];
    AlikeFields(fs'.blocks, disk'.blocks, homes[f], homes[k]);
  }

  lemma OthersReadSame(disk: Disk, homes: seq<Home>, disk': Disk, fs': Fs, f: nat, g: nat, m: nat)
    requires Sound(disk, homes) && f < |homes| && Touched(Seen(disk, homes), disk.root, disk', fs', f, homes[f], g, m)
    requires HostsStay(Seen(disk, homes), fs', homes, f)
    requires OtherBytes(Seen(disk, homes), fs', f) && FieldsStay(Seen(disk, homes), fs', homes, f)
    ensures OthersRead(disk, disk', homes, f)
  {
    var fs := Seen(disk, homes);
    forall k: nat | k < |homes| && k != f ensures FileIn(disk', homes[k]) == FileIn(disk, homes[k]) {
      if homes[k].Slot? {
        assert Lodged(fs, homes, k);
        var g1, m1 :| Hosted(fs, k, homes[k], g1, m1);
        forall x: nat | InFields(homes[k].j, x) ensures ByteAt(fs', g1, m1, x) == ByteAt(fs, g1, m1, x) { HostByte(fs, k, homes[k], g1, m1, x); }
        ReadOfOther(disk, homes, disk', fs', f, g, m, k, g1, m1);
      } else {
        assert homes[f] != homes[k];
      }
    }
  }

  lemma StepSound(disk: Disk, homes: seq<Home>, disk': Disk, fs': Fs, f: nat, g: nat, m: nat)
    requires Sound(disk, homes) && f < |homes| && Touched(Seen(disk, homes), disk.root, disk', fs', f, homes[f], g, m)
    requires HostsStay(Seen(disk, homes), fs', homes, f)
    requires OtherBytes(Seen(disk, homes), fs', f) && FieldsStay(Seen(disk, homes), fs', homes, f)
    ensures Sound(disk', homes) && OthersRead(disk, disk', homes, f)
  {
    OthersReadSame(disk, homes, disk', fs', f, g, m);
    SoundAfter(disk, homes, disk', fs', f, g, m);
  }

  // What every operation leaves, whose mirror goes to fs'.
  ghost predicate Leads(disk: Disk, homes: seq<Home>, disk': Disk, fs': Fs, f: nat, g: nat, m: nat) {
    && f < |homes| && Touched(Seen(disk, homes), disk.root, disk', fs', f, homes[f], g, m)
    && Sound(disk', homes) && OthersRead(disk, disk', homes, f)
  }

  lemma PtrsHost(fs: Fs, fs': Fs, homes: seq<Home>, f: nat)
    requires PtrsStay(fs, fs', f)
    ensures HostsStay(fs, fs', homes, f)
  {}

  // ---- Reading ----

  lemma NothingWritten(fs: Fs, fs': Fs, homes: seq<Home>, f: nat, pos: nat)
    requires Good(fs) && KeptOutside(fs, fs', f, pos, pos)
    ensures OtherBytes(fs, fs', f) && FieldsStay(fs, fs', homes, f)
  {
    forall k: nat, m: nat, x: nat | k < |homes| && homes[k].Slot? && Hosted(fs, k, homes[k], f, m) && InFields(homes[k].j, x)
      ensures ByteAt(fs', f, m, x) == ByteAt(fs, f, m, x)
    {
      HostByte(fs, k, homes[k], f, m, x);
    }
  }

  lemma ReadSound(disk: Disk, homes: seq<Home>, f: nat, count: nat, offset: nat) returns (g: nat, m: nat)
    requires Sound(disk, homes) && f < |homes|
    ensures Ready(disk) && Sized(Seen(disk, homes))
    ensures var r, o := ReadIn(disk, homes[f], count, offset), Read(Seen(disk, homes), f, count, offset);
      && (o.Panic? ==> r.Stopped?)
      && (o.Err? ==> r.Failed? && r.code == o.code && Leads(disk, homes, r.disk, o.fs, f, g, m))
      && (o.Ok? ==> r.Done? && r.value == o.value && Leads(disk, homes, r.disk, o.fs, f, g, m))
  {
    var fs := Seen(disk, homes);
    g, m := SoundBegins(disk, homes, f);
    ReadEnds(disk, fs, f, homes[f], g, m, count, offset);
    ReadCorrect(fs, f, count, offset);
    var o, r := Read(fs, f, count, offset), ReadIn(disk, homes[f], count, offset);
    if !o.Panic? {
      PtrsHost(fs, o.fs, homes, f);
      NothingWritten(fs, o.fs, homes, f, offset);
      StepSound(disk, homes, r.disk, o.fs, f, g, m);
    }
  }

  // ---- Setting the size ----

  // Truncating file f gives up a block with another file's structure in it.
  ghost predicate Vacates(fs: Fs, homes: seq<Home>, f: nat, newsize: nat) {
    f < |fs.files| && newsize < fs.files[f].size &&
    exists k: nat, m: nat :: k < |homes| && homes[k].Slot? && Hosted(fs, k, homes[k], f, m) && GivesUp(newsize, m)
  }

  lemma SetSizeSameData(fs: Fs, f: nat, newsize: nat)
    requires Good(fs) && f < |fs.files|
    ensures Sized(fs)
    ensures forall c: nat :: c < |fs.blocks| && IsData(fs.blocks[c]) ==>
      c < |SetSize(fs, f, newsize).blocks| && SetSize(fs, f, newsize).blocks[c] == fs.blocks[c]
    ensures forall x: nat, n: nat ::
      Ptr(SetSize(fs, f, newsize), x, n) == if newsize < fs.files[f].size && x == f && GivesUp(newsize, n) then 0 else Ptr(fs, x, n)
  {
    var owner: Owners :| Inv(fs, owner);
    if newsize < fs.files[f].size {
      var owner1 := TruncateKeeps(fs, owner, f, newsize);
    }
    var owner' := SetSizeKeeps(fs, owner, f, newsize);
  }

  lemma SameDataReads(disk: Disk, homes: seq<Home>, disk': Disk, fs': Fs, f: nat, g: nat, m: nat)
    requires Sound(disk, homes) && f < |homes| && Touched(Seen(disk, homes), disk.root, disk', fs', f, homes[f], g, m)
    requires forall c: nat :: c < |disk.blocks| && IsData(disk.blocks[c]) ==> c < |fs'.blocks| && fs'.blocks[c] == disk.blocks[c]
    ensures OthersRead(disk, disk', homes, f)
  {
    forall k: nat | k < |homes| && k != f ensures FileIn(disk', homes[k]) == FileIn(disk, homes[k]) {
      assert homes[k] != homes[f];
      if homes[k].Slot? {
        var g1, m1 := SoundBegins(disk, homes, k);
        AlikeFields(fs'.blocks, disk'.blocks, homes[f], homes[k]);
      }
    }
  }

  // It leaves the file system sound exactly if it gives up no block with structures in it.
  lemma SetSizeExactly(disk: Disk, homes: seq<Home>, f: nat, newsize: nat) returns (g: nat, m: nat)
    requires Sound(disk, homes) && f < |homes| && newsize < 0x8000_0000
    ensures Ready(disk) && Sized(Seen(disk, homes))
    ensures var disk' := SetSizeIn(disk, homes[f], newsize);
      && (Sound(disk', homes) <==> !Vacates(Seen(disk, homes), homes, f, newsize))
      && (Sound(disk', homes) ==> Leads(disk, homes, disk', SetSize(Seen(disk, homes), f, newsize), f, g, m))
  {
    var fs := Seen(disk, homes);
    g, m := SoundBegins(disk, homes, f);
    SetSizeTouches(disk, fs, f, homes[f], g, m, newsize);
    SetSizeSameData(fs, f, newsize);
    var disk', fs' := SetSizeIn(disk, homes[f], newsize), SetSize(fs, f, newsize);
    SameDataReads(disk, homes, disk', fs', f, g, m);
    if Vacates(fs, homes, f, newsize) {
      SeenAfter(disk, homes, disk', fs', f, g, m);
      NoLongerLodged(fs, homes, f, newsize, Seen(disk', homes));
    } else {
      assert HostsStay(fs, fs', homes, f);
      SoundAfter(disk, homes, disk', fs', f, g, m);
    }
  }

  lemma NoLongerLodged(fs: Fs, homes: seq<Home>, f: nat, newsize: nat, fs': Fs)
    requires Good(fs) && Vacates(fs, homes, f, newsize)
    requires forall x: nat, n: nat :: Ptr(fs', x, n) == if x == f && GivesUp(newsize, n) then 0 else Ptr(fs, x, n)
    ensures !AllLodged(fs', homes)
  {
    var k: nat, m: nat :| k < |homes| && homes[k].Slot? && Hosted(fs, k, homes[k], f, m) && GivesUp(newsize, m);
    OwnershipMeans(fs);
    forall g1: nat, m1: nat | Ptr(fs, g1, m1) == homes[k].b ensures g1 == f && m1 == m { assert Ptr(fs, g1, m1) == Ptr(fs, f, m); }
    assert !Lodged(fs', homes, k);
  }

  // ---- Writing ----

  // The bytes written to file f are those there already, wherever another file's size or
  // pointers are.
  ghost predicate Leaves(fs: Fs, homes: seq<Home>, f: nat, data: seq<Byte>, offset: nat) {
    forall k: nat, m: nat, x: nat {:trigger Hosted(fs, k, homes[k], f, m), ByteAt(fs, f, m, x)} ::
      k < |homes| && homes[k].Slot? && Hosted(fs, k, homes[k], f, m) && InFields(homes[k].j, x) && offset <= m * BLKSIZE + x < offset + |data| ==>
        ByteAt(fs, f, m, x) == Some(data[m * BLKSIZE + x - offset])
  }

  // A byte that is written over with itself, or not at all, stays, even if the write fails.
  lemma {:induction false} WriteFromLeaves(good: Fs -> bool, fs: Fs, f: nat, n: nat, k: nat, data: seq<Byte>, m: nat, x: nat)
    requires good(fs) && f < |fs.files| && (data == [] || n * BLKSIZE + k + |data| <= fs.files[f].size) && k < BLKSIZE
    requires |fs.free| == |fs.blocks| < 0x10_0000 && BlockSteps(good, f, fs.files[f].size) && PutSteps(good, f)
    requires x < BLKSIZE && ByteAt(fs, f, m, x).Some?
    requires var pos := n * BLKSIZE + k; pos <= m * BLKSIZE + x < pos + |data| ==> ByteAt(fs, f, m, x) == Some(data[m * BLKSIZE + x - pos])
    ensures var r := WriteFrom(fs, f, n, k, data); !r.Panic? ==> ByteAt(r.fs, f, m, x) == ByteAt(fs, f, m, x)
    decreases |data|
  {
    if data != [] {
      NextBlock(n, k, |data|, fs.files[f].size);
      assert BlockStep(good, fs, f, n);
      var r := GetBlock(fs, f, n);
      if r.Ok? {
        var bn := Min(BLKSIZE - k, |data|);
        assert PutStep(good, r.fs, f, n, k, data[..bn]);
        var fs2 := PutBytes(r.fs, r.value, k, data[..bn]);
        GrownKeeps(fs, r.fs, f, 0);
        ByteStays(r.fs, fs2, f, n, k, data, bn, m, x);
        WriteFromLeaves(good, fs2, f, n + 1, 0, data[bn..], m, x);
      }
    }
  }

  lemma ByteStays(fs1: Fs, fs2: Fs, f: nat, n: nat, k: nat, data: seq<Byte>, bn: nat, m: nat, x: nat)
    requires x < BLKSIZE && k < BLKSIZE && bn <= |data| && bn <= BLKSIZE - k && (bn < |data| ==> k + bn == BLKSIZE) && ByteAt(fs1, f, m, x).Some?
    requires var pos := n * BLKSIZE + k; pos <= m * BLKSIZE + x < pos + |data| ==> ByteAt(fs1, f, m, x) == Some(data[m * BLKSIZE + x - pos])
    requires Has(fs2, f, n * BLKSIZE + k, data[..bn]) && KeptOutside(fs1, fs2, f, n * BLKSIZE + k, n * BLKSIZE + k + bn)
    ensures ByteAt(fs2, f, m, x) == ByteAt(fs1, f, m, x)
    ensures var pos := (n + 1) * BLKSIZE + 0;
      pos <= m * BLKSIZE + x < pos + |data[bn..]| ==> ByteAt(fs2, f, m, x) == Some(data[bn..][m * BLKSIZE + x - pos])
  {
    var pos, at := n * BLKSIZE + k, m * BLKSIZE + x;
    if pos <= at < pos + bn {
      assert ByteAt(fs2, f, m, x) == Some(data[..bn][at - pos]);
    } else {
      assert ByteAt(fs2, f, m, x) == ByteAt(fs1, f, m, x);
    }
  }

  // What is written into: the file, made longer if it must be.
  function Roomy(fs: Fs, f: nat, end: nat): Fs
    requires f < |fs.files| && |fs.free| == |fs.blocks| < 0x10_0000 && fs.files[f].size >= 0
  {
    if end > fs.files[f].size then SetSize(fs, f, end) else fs
  }

  lemma WriteParts(fs: Fs, f: nat, data: seq<Byte>, offset: nat) returns (n: nat, k: nat)
    requires f < |fs.files| && |fs.free| == |fs.blocks| < 0x10_0000 && fs.files[f].size >= 0
    ensures n * BLKSIZE + k == offset && k < BLKSIZE
    ensures var r, fs1 := Write(fs, f, data, offset), Roomy(fs, f, offset + |data|);
      f < |fs1.files| && |fs1.free| == |fs1.blocks| < 0x10_0000 ==>
        var r1 := WriteFrom(fs1, f, n, k, data); !r.Panic? ==> !r1.Panic? && r.fs == r1.fs
  {
    BlockAndRest(offset);
    n, k := offset / BLKSIZE, offset % BLKSIZE;
  }

  lemma ExtendLeavesByte(fs: Fs, f: nat, newsize: nat, m: nat, x: nat)
    requires Good(fs) && f < |fs.files| && newsize > fs.files[f].size && x < BLKSIZE && ByteAt(fs, f, m, x).Some?
    ensures Sized(fs)
    ensures var fs1 := SetSize(fs, f, newsize);
      Good(fs1) && |fs1.files| == |fs.files| && fs1.files[f].size == newsize && ByteAt(fs1, f, m, x) == ByteAt(fs, f, m, x)
  {
    ExtendCorrect(fs, f, newsize, 0);
    assert ByteAt(SetSize(fs, f, newsize), f, m, x) == ByteAt(fs, f, m, x);
  }

  lemma RoomyGood(fs: Fs, f: nat, end: nat)
    requires Good(fs) && f < |fs.files|
    ensures Sized(fs)
    ensures var fs1 := Roomy(fs, f, end); Good(fs1) && |fs1.files| == |fs.files| && fs1.files[f].size >= end
  {
    GoodSized(fs);
    if end > fs.files[f].size { ExtendCorrect(fs, f, end, 0); }
  }

  lemma RoomyByte(fs: Fs, f: nat, end: nat, m: nat, x: nat)
    requires Good(fs) && f < |fs.files| && x < BLKSIZE && ByteAt(fs, f, m, x).Some?
    ensures Sized(fs)
    ensures var fs1 := Roomy(fs, f, end); Good(fs1) && |fs1.files| == |fs.files| && fs1.files[f].size >= end && ByteAt(fs1, f, m, x) == ByteAt(fs, f, m, x)
  {
    GoodSized(fs);
    if end > fs.files[f].size { ExtendLeavesByte(fs, f, end, m, x); }
  }

  lemma WriteIntoLeaves(fs: Fs, f: nat, pos: nat, n: nat, k: nat, data: seq<Byte>, m: nat, x: nat)
    requires Good(fs) && f < |fs.files| && pos + |data| <= fs.files[f].size && pos == n * BLKSIZE + k && k < BLKSIZE
    requires x < BLKSIZE && ByteAt(fs, f, m, x).Some?
    requires pos <= m * BLKSIZE + x < pos + |data| ==> ByteAt(fs, f, m, x) == Some(data[m * BLKSIZE + x - pos])
    ensures Sized(fs)
    ensures var r := WriteFrom(fs, f, n, k, data); !r.Panic? ==> ByteAt(r.fs, f, m, x) == ByteAt(fs, f, m, x)
  {
    GoodSized(fs);
    GoodSteps(f, fs.files[f].size);
    WriteFromLeaves(fs => Good(fs), fs, f, n, k, data, m, x);
  }

  // `o` is what the write answers, which goes into fs1 from the block and the place in it where
  // it begins.
  ghost predicate Begun(fs: Fs, fs1: Fs, f: nat, data: seq<Byte>, offset: nat, n: nat, k: nat, o: Outcome<nat>) {
    && Good(fs1) && f < |fs1.files| && fs1.files[f].size >= offset + |data| && |fs1.free| == |fs1.blocks| < 0x10_0000
    && n * BLKSIZE + k == offset && k < BLKSIZE
    && (forall m: nat, x: nat {:trigger ByteAt(fs1, f, m, x)} :: x < BLKSIZE && ByteAt(fs, f, m, x).Some? ==> ByteAt(fs1, f, m, x) == ByteAt(fs, f, m, x))
    && (!o.Panic? ==> !WriteFrom(fs1, f, n, k, data).Panic? && o.fs == WriteFrom(fs1, f, n, k, data).fs)
  }

  lemma WriteBegins(fs: Fs, f: nat, data: seq<Byte>, offset: nat) returns (n: nat, k: nat)
    requires Good(fs) && f < |fs.files|
    ensures Sized(fs) && Begun(fs, Roomy(fs, f, offset + |data|), f, data, offset, n, k, Write(fs, f, data, offset))
  {
    GoodSized(fs);
    var fs1 := Roomy(fs, f, offset + |data|);
    RoomyGood(fs, f, offset + |data|);
    GoodSized(fs1);
    n, k := WriteParts(fs, f, data, offset);
    forall m: nat, x: nat | x < BLKSIZE && ByteAt(fs, f, m, x).Some? ensures ByteAt(fs1, f, m, x) == ByteAt(fs, f, m, x) {
      RoomyByte(fs, f, offset + |data|, m, x);
    }
  }

  lemma WriteLeavesByte(fs: Fs, fs1: Fs, f: nat, data: seq<Byte>, offset: nat, m: nat, x: nat, n: nat, k: nat, o: Outcome<nat>)
    requires Begun(fs, fs1, f, data, offset, n, k, o) && x < BLKSIZE && ByteAt(fs, f, m, x).Some?
    requires offset <= m * BLKSIZE + x < offset + |data| ==> ByteAt(fs, f, m, x) == Some(data[m * BLKSIZE + x - offset])
    ensures !o.Panic? ==> ByteAt(o.fs, f, m, x) == ByteAt(fs, f, m, x)
  {
    assert ByteAt(fs1, f, m, x) == ByteAt(fs, f, m, x);
    WriteIntoLeaves(fs1, f, offset, n, k, data, m, x);
  }

  lemma BegunKeepsFields(fs: Fs, fs1: Fs, homes: seq<Home>, f: nat, data: seq<Byte>, offset: nat, n: nat, k: nat, o: Outcome<nat>)
    requires Good(fs) && Leaves(fs, homes, f, data, offset) && Begun(fs, fs1, f, data, offset, n, k, o)
    ensures !o.Panic? ==> FieldsStay(fs, o.fs, homes, f)
  {
    if !o.Panic? {
      forall k1: nat, m: nat, x: nat | k1 < |homes| && homes[k1].Slot? && Hosted(fs, k1, homes[k1], f, m) && InFields(homes[k1].j, x)
        ensures ByteAt(o.fs, f, m, x) == ByteAt(fs, f, m, x)
      {
        HostByte(fs, k1, homes[k1], f, m, x);
        WriteLeavesByte(fs, fs1, f, data, offset, m, x, n, k, o);
      }
    }
  }

  lemma WriteKeepsFields(fs: Fs, homes: seq<Home>, f: nat, data: seq<Byte>, offset: nat)
    requires Good(fs) && f < |fs.files| && Leaves(fs, homes, f, data, offset)
    ensures Sized(fs)
    ensures var r := Write(fs, f, data, offset); !r.Panic? ==> OtherBytes(fs, r.fs, f) && FieldsStay(fs, r.fs, homes, f)
  {
    WriteCorrect(fs, f, data, offset);
    var n, k := WriteBegins(fs, f, data, offset);
    BegunKeepsFields(fs, Roomy(fs, f, offset + |data|), homes, f, data, offset, n, k, Write(fs, f, data, offset));
  }

  // A write that leaves the fields of other files' entries alone leaves the file system sound,
  // whether or not it succeeds.
  lemma WriteSound(disk: Disk, homes: seq<Home>, f: nat, data: seq<Byte>, offset: nat) returns (g: nat, m: nat)
    requires Sound(disk, homes) && f < |homes| && offset + |data| < 0x8000_0000 && Leaves(Seen(disk, homes), homes, f, data, offset)
    ensures Ready(disk) && Sized(Seen(disk, homes)) && Seen(disk, homes).files[f].size >= 0
    ensures var r, o := WriteIn(disk, homes[f], data, offset), Write(Seen(disk, homes), f, data, offset);
      && (o.Panic? ==> r.Stopped?)
      && (o.Err? ==> r.Failed? && r.code == o.code && Leads(disk, homes, r.disk, o.fs, f, g, m))
      && (o.Ok? ==> r.Done? && r.value == o.value && Leads(disk, homes, r.disk, o.fs, f, g, m))
  {
    var fs := Seen(disk, homes);
    g, m := SoundBegins(disk, homes, f);
    WriteEnds(disk, fs, f, homes[f], g, m, data, offset);
    WriteKeepsFields(fs, homes, f, data, offset);
    var o, r := Write(fs, f, data, offset), WriteIn(disk, homes[f], data, offset);
    if !o.Panic? {
      PtrsHost(fs, o.fs, homes, f);
      StepSound(disk, homes, r.disk, o.fs, f, g, m);
    }
  }

  // A write that succeeds leaves every other file's structure as it is exactly if it writes
  // over their fields, where it does, what is there already.
  lemma WriteLeavesExactly(disk: Disk, homes: seq<Home>, f: nat, data: seq<Byte>, offset: nat)
    requires Sound(disk, homes) && f < |homes| && offset + |data| < 0x8000_0000
    ensures Ready(disk) && FileIn(disk, homes[f]).size >= 0
    ensures var r := WriteIn(disk, homes[f], data, offset);
      r.Done? ==> (OthersRead(disk, r.disk, homes, f) <==> Leaves(Seen(disk, homes), homes, f, data, offset))
  {
    var fs := Seen(disk, homes);
    var g, m := SoundBegins(disk, homes, f);
    GoodSized(fs);
    WriteEnds(disk, fs, f, homes[f], g, m, data, offset);
    WriteCorrect(fs, f, data, offset);
    var o, r := Write(fs, f, data, offset), WriteIn(disk, homes[f], data, offset);
    if o.Ok? {
      if Leaves(fs, homes, f, data, offset) {
        var g1, m1 := WriteSound(disk, homes, f, data, offset);
      } else if OthersRead(disk, r.disk, homes, f) {
        ReadSoLeft(disk, homes, r.disk, o.fs, f, g, m, data, offset);
      }
    }
  }

  lemma ReadSoLeft(disk: Disk, homes: seq<Home>, disk': Disk, fs': Fs, f: nat, g: nat, m: nat, data: seq<Byte>, offset: nat)
    requires Sound(disk, homes) && f < |homes| && Kept(Seen(disk, homes), disk.root, disk', fs', f, homes[f], g, m)
    requires OthersRead(disk, disk', homes, f) && Has(fs', f, offset, data)
    ensures Leaves(Seen(disk, homes), homes, f, data, offset)
  {
    var fs := Seen(disk, homes);
    forall k: nat, m1: nat, x: nat |
      k < |homes| && homes[k].Slot? && Hosted(fs, k, homes[k], f, m1) && InFields(homes[k].j, x) && offset <= m1 * BLKSIZE + x < offset + |data|
      ensures ByteAt(fs, f, m1, x) == Some(data[m1 * BLKSIZE + x - offset])
    {
      ReadOfOther(disk, homes, disk', fs', f, g, m, k, f, m1);
      assert ByteAt(fs', f, m1, x) == Some(data[m1 * BLKSIZE + x - offset]);
    }
  }

  // ---- Creating a file ----

  // A name is written before the fields of its entry, and apart from all others'.
  lemma NameApart(i: nat, j: nat, len: nat, m: nat, k: nat, x: nat)
    requires j < BLKFILES && k < BLKFILES && len <= 128 && InFields(k, x)
    ensures x < BLKSIZE && !(NamePos(i, j) <= m * BLKSIZE + x < NamePos(i, j) + len)
  {}

  lemma NameLeavesFields(fs: Fs, fs': Fs, homes: seq<Home>, f: nat, i: nat, j: nat, len: nat)
    requires Good(fs) && KeptOutside(fs, fs', f, NamePos(i, j), NamePos(i, j) + len) && j < BLKFILES && len <= 128
    ensures OtherBytes(fs, fs', f) && FieldsStay(fs, fs', homes, f)
  {
    forall k: nat, m: nat, x: nat | k < |homes| && homes[k].Slot? && Hosted(fs, k, homes[k], f, m) && InFields(homes[k].j, x)
      ensures ByteAt(fs', f, m, x) == ByteAt(fs, f, m, x)
    {
      NameApart(i, j, len, m, homes[k].j, x);
      HostByte(fs, k, homes[k], f, m, x);
    }
  }

  // Making an entry leaves the files there are sound, whether or not it succeeds.
  lemma CreateSound(disk: Disk, homes: seq<Home>, f: nat, name: seq<Byte>) returns (g: nat, m: nat)
    requires Sound(disk, homes) && f < |homes| && Proper(name) && Seen(disk, homes).files[f].size + BLKSIZE < 0x8000_0000
    ensures Ready(disk) && FileIn(disk, homes[f]).size >= 0
    ensures var r, o := InPlace.CreateIn(disk, homes[f], name), FileCreation.CreateIn(Seen(disk, homes), f, name);
      && (FileIn(disk, homes[f]).size % BLKSIZE != 0 || o.Panic? ==> r.Stopped?)
      && (r.Failed? ==> o.Err? && r.code == o.code && Leads(disk, homes, r.disk, o.fs, f, g, m))
      && (r.Done? ==>
            && o.Ok? && r.value == (o.value.0, Slot(Ptr(o.fs, f, o.value.0), o.value.1)) && o.value.1 < BLKFILES && o.value.0 < MAXBLOCKS
            && Ptr(o.fs, f, o.value.0) > 0 && Leads(disk, homes, r.disk, o.fs, f, g, m))
  {
    var fs := Seen(disk, homes);
    g, m := SoundBegins(disk, homes, f);
    GoodSized(fs);
    if fs.files[f].size % BLKSIZE == 0 {
      CreateEnds(disk, fs, f, homes[f], g, m, name);
      CreateKeeps(fs, f, name);
      var r, o := InPlace.CreateIn(disk, homes[f], name), FileCreation.CreateIn(fs, f, name);
      if !o.Panic? {
        PtrsHost(fs, o.fs, homes, f);
        if o.Ok? {
          NameLeavesFields(fs, o.fs, homes, f, o.value.0, o.value.1, |name| + 1);
        } else {
          NothingWritten(fs, o.fs, homes, f, 0);
        }
        StepSound(disk, homes, r.disk, o.fs, f, g, m);
      }
    }
  }

  lemma SeenAdded(disk: Disk, homes: seq<Home>, h: Home)
    ensures Seen(disk, homes + [h]) == Added(Seen(disk, homes), FileIn(disk, h))
  {}

  // With the new file counted in, the file system is sound exactly if the entry taken is no
  // file's already and there is no block pointer in it, nor a negative size.
  lemma CreateExactly(disk: Disk, homes: seq<Home>, f: nat, name: seq<Byte>)
    requires Sound(disk, homes) && f < |homes| && Proper(name) && Seen(disk, homes).files[f].size + BLKSIZE < 0x8000_0000
    ensures Ready(disk) && FileIn(disk, homes[f]).size >= 0
    ensures var r := InPlace.CreateIn(disk, homes[f], name);
      r.Done? ==>
        var (_, h) := r.value; var file := FileIn(r.disk, h);
        Sound(r.disk, homes + [h]) <==> h !in homes && NoPointers(file) && file.size >= 0
  {
    var g, m := CreateSound(disk, homes, f, name);
    var r := InPlace.CreateIn(disk, homes[f], name);
    if r.Done? {
      var (i, h) := r.value;
      var fs' := FileCreation.CreateIn(Seen(disk, homes), f, name).fs;
      SeenAfter(disk, homes, r.disk, fs', f, g, m);
      AddedSound(r.disk, homes, h, f, i);
    }
  }

  lemma AddedSound(disk: Disk, homes: seq<Home>, h: Home, f: nat, i: nat)
    requires Sound(disk, homes) && f < |homes| && h.Slot? && h.b != 0 && Ptr(Seen(disk, homes), f, i) == h.b && i < MAXBLOCKS && h.j < BLKFILES
    ensures var file := FileIn(disk, h); Sound(disk, homes + [h]) <==> h !in homes && NoPointers(file) && file.size >= 0
  {
    var fs, file, homes' := Seen(disk, homes), FileIn(disk, h), homes + [h];
    SeenAdded(disk, homes, h);
    assert Hosted(fs, |homes|, h, f, i);
    HostBusy(fs, |homes|, h, f, i);
    Spells(disk.blocks[h.b].bytes, h.j);
    if Good(Added(fs, file)) { AddedSize(fs, file); }
    if file.size >= 0 { AddedExactly(fs, file); }
    if h !in homes && NoPointers(file) && file.size >= 0 { AddedLodged(fs, homes, h, f, i, file); }
    if Distinct(homes') {
      forall k | 0 <= k < |homes| ensures homes[k] != h { assert homes'[k] != homes'[|homes|]; }
    }
  }

  lemma AddedSize(fs: Fs, file: File)
    requires Good(Added(fs, file))
    ensures file.size >= 0
  {
    GoodSized(Added(fs, file));
    assert Added(fs, file).files[|fs.files|] == file;
  }

  lemma AddedLodged(fs: Fs, homes: seq<Home>, h: Home, f: nat, i: nat, file: File)
    requires AllLodged(fs, homes) && |homes| == |fs.files| && f < |homes| && Hosted(fs, |homes|, h, f, i) && NoPointers(file)
    ensures AllLodged(Added(fs, file), homes + [h])
  {
    var fs', homes' := Added(fs, file), homes + [h];
    forall x: nat, n: nat | true ensures Ptr(fs', x, n) == Ptr(fs, x, n) { AddedPtrs(fs, file, x, n); }
    forall k: nat | k < |homes'| ensures Lodged(fs', homes', k) {
      if k < |homes| {
        assert Lodged(fs, homes, k);
        var g, m :| Hosted(fs, k, homes[k], g, m);
        assert Hosted(fs', k, homes'[k], g, m);
      } else {
        assert Hosted(fs', k, homes'[k], f, i);
      }
    }
  }
}
