/** The file operations on structures where they are, inside the blocks of directories, and that
    they do what the same operations do on structures kept apart from the blocks. */
module InPlace {
  import opened Words
  import opened FileSystem
  import opened Directory
  import opened FileCreation
  import opened Homes

  datatype Result<T> = Done(disk: Disk, value: T) | Failed(disk: Disk, code: int) | Stopped

  predicate Ready(disk: Disk) { |disk.free| == |disk.blocks| < 0x10_0000 }

  // ---- The operations ----

  // What a function that looks at nothing but one structure, the bitmap and that file's block
  // table sees; and its effect.
  function Alone(disk: Disk, h: Home): Fs { Fs(disk.free, disk.blocks, [FileIn(disk, h)]) }

  function Back(fs: Fs, root: File, h: Home): (r: Disk)
    requires |fs.files| == 1
    ensures r.free == fs.free && |r.blocks| == |fs.blocks|
  {
    SetFile(Disk(fs.free, fs.blocks, root), h, fs.files[0])
  }

  // file_get_block
  function GetBlockIn(disk: Disk, h: Home, n: nat): Result<U32>
    requires Ready(disk)
  {
    GetBlockFiles(Alone(disk, h), 0, n);
    match GetBlock(Alone(disk, h), 0, n)
    case Panic => Stopped
    case Err(fs, code) => Failed(Back(fs, disk.root, h), code)
    case Ok(fs, b) => Done(Back(fs, disk.root, h), b)
  }

  predicate UsableIn(disk: Disk, b: U32) { Ready(disk) && b < |disk.blocks| && IsData(disk.blocks[b]) }

  function PrependIn(chunk: seq<Byte>, r: Result<seq<Byte>>): Result<seq<Byte>> {
    if r.Done? then Done(r.disk, chunk + r.value) else r
  }

  function ReadFromIn(disk: Disk, h: Home, n: nat, k: nat, len: nat): Result<seq<Byte>>
    requires Ready(disk) && k < BLKSIZE
    decreases len
  {
    if len == 0 then Done(disk, [])
    else match GetBlockIn(disk, h, n)
      case Stopped => Stopped
      case Failed(disk1, code) => Failed(disk1, code)
      case Done(disk1, b) =>
        var bn := Min(BLKSIZE - k, len);
        if !UsableIn(disk1, b) then Stopped
        else PrependIn(disk1.blocks[b].bytes[k..k + bn], ReadFromIn(disk1, h, n + 1, 0, len - bn))
  }

  // file_read
  function ReadIn(disk: Disk, h: Home, count: nat, offset: nat): Result<seq<Byte>>
    requires Ready(disk)
  {
    var size := FileIn(disk, h).size;
    if offset >= size then Done(disk, []) else ReadFromIn(disk, h, offset / BLKSIZE, offset % BLKSIZE, Min(count, size - offset))
  }

  function PutBytesIn(disk: Disk, b: nat, off: nat, data: seq<Byte>): (r: Disk)
    requires b < |disk.blocks| && IsData(disk.blocks[b]) && off + |data| <= BLKSIZE
    ensures |r.blocks| == |disk.blocks| && r.free == disk.free
  {
    disk.(blocks := disk.blocks[b := Data(Spliced(disk.blocks[b].bytes, off, data))])
  }

  function WriteFromIn(disk: Disk, h: Home, n: nat, k: nat, data: seq<Byte>): Result<nat>
    requires Ready(disk) && k < BLKSIZE
    decreases |data|
  {
    if data == [] then Done(disk, 0)
    else match GetBlockIn(disk, h, n)
      case Stopped => Stopped
      case Failed(disk1, code) => Failed(disk1, code)
      case Done(disk1, b) =>
        var bn := Min(BLKSIZE - k, |data|);
        if !UsableIn(disk1, b) then Stopped
        else WriteFromIn(PutBytesIn(disk1, b, k, data[..bn]), h, n + 1, 0, data[bn..])
  }

  // file_set_size
  function SetSizeIn(disk: Disk, h: Home, newsize: nat): (r: Disk)
    requires Ready(disk) && FileIn(disk, h).size >= 0
  {
    SetSizeFiles(Alone(disk, h), 0, newsize);
    Back(SetSize(Alone(disk, h), 0, newsize), disk.root, h)
  }

  // file_write
  function WriteIn(disk: Disk, h: Home, data: seq<Byte>, offset: nat): Result<nat>
    requires Ready(disk) && FileIn(disk, h).size >= 0
  {
    var disk1 := if offset + |data| > FileIn(disk, h).size then SetSizeIn(disk, h, offset + |data|) else disk;
    if !Ready(disk1) then Stopped
    else
      var r := WriteFromIn(disk1, h, offset / BLKSIZE, offset % BLKSIZE, data);
      if r.Done? then Done(r.disk, |data|) else r
  }

  // dir->f_size += BLKSIZE
  function Longer(disk: Disk, h: Home): (r: Disk)
    ensures r.free == disk.free && |r.blocks| == |disk.blocks|
  {
    SetFile(disk, h, FileIn(disk, h).(size := FileIn(disk, h).size + BLKSIZE))
  }

  // The loop of dir_alloc_file, from block i on. The answer is where in the directory the
  // entry is, and a pointer to it.
  function AllocFromIn(disk: Disk, h: Home, i: nat, nblock: nat): (r: Result<(nat, Home)>)
    requires Ready(disk)
    decreases nblock - i
  {
    if i >= nblock then
      match GetBlockIn(Longer(disk, h), h, i)
      case Stopped => Stopped
      case Failed(disk1, code) => Failed(disk1, code)
      case Done(disk1, b) => Done(disk1, (i, Slot(b, 0)))
    else match GetBlockIn(disk, h, i)
      case Stopped => Stopped
      case Failed(disk1, code) => Failed(disk1, code)
      case Done(disk1, b) =>
        if !UsableIn(disk1, b) then Stopped
        else match FindFree(disk1.blocks[b].bytes, 0)
          case Some(j) => Done(disk1, (i, Slot(b, j)))
          case None => AllocFromIn(disk1, h, i + 1, nblock)
  }

  // strcpy(f->f_name, name)
  function SetNameIn(disk: Disk, i: nat, h: Home, name: seq<Byte>): Result<(nat, Home)> {
    if h.Slot? && h.b < |disk.blocks| && IsData(disk.blocks[h.b]) && Off(h.j) + |name| < BLKSIZE then
      Done(PutBytesIn(disk, h.b, Off(h.j), name + [0]), (i, h))
    else Stopped
  }

  // file_create once walk_path has found the directory and the name is not there
  function CreateIn(disk: Disk, h: Home, name: seq<Byte>): Result<(nat, Home)>
    requires Ready(disk) && FileIn(disk, h).size >= 0
  {
    if FileIn(disk, h).size % BLKSIZE != 0 then Stopped
    else match AllocFromIn(disk, h, 0, FileIn(disk, h).size / BLKSIZE)
      case Stopped => Stopped
      case Failed(disk1, code) => Failed(disk1, code)
      case Done(disk1, (i, slot)) => SetNameIn(disk1, i, slot, name)
  }

  // ---- No operation on one structure changes another ----

  ghost predicate SameRest(fs: Fs, fs': Fs, f: nat) {
    && |fs'.files| == |fs.files| && |fs'.free| == |fs.free| && |fs'.blocks| == |fs.blocks|
    && forall k: nat :: k < |fs.files| && k != f ==> fs'.files[k] == fs.files[k]
  }

  lemma GetBlockFiles(fs: Fs, f: nat, n: nat)
    requires f < |fs.files| && |fs.free| == |fs.blocks| < 0x10_0000
    ensures var r := GetBlock(fs, f, n); !r.Panic? ==> SameRest(fs, r.fs, f)
  {}

  lemma {:induction false} FreeFromFiles(fs: Fs, f: nat, n: nat, end: nat)
    requires f < |fs.files| && |fs.free| == |fs.blocks| < 0x10_0000
    ensures SameRest(fs, FreeFrom(fs, f, n, end), f)
    decreases end - n
  {
    if n < end { FreeFromFiles(FreeFileBlock(fs, f, n), f, n + 1, end); }
  }

  lemma SetSizeFiles(fs: Fs, f: nat, newsize: nat)
    requires f < |fs.files| && |fs.free| == |fs.blocks| < 0x10_0000 && fs.files[f].size >= 0
    ensures SameRest(fs, SetSize(fs, f, newsize), f)
  {
    FreeFromFiles(fs, f, Blocks(newsize), Blocks(fs.files[f].size));
  }

  // ---- One structure seen alone, and among the others ----

  // The blocks are the same, but for the fields in the entry at h.
  ghost predicate Alike(blocks: seq<Block>, blocks': seq<Block>, h: Home) {
    && |blocks| == |blocks'| && Sits(blocks, h) && Sits(blocks', h)
    && (forall b: nat :: b < |blocks| && !(h.Slot? && b == h.b) ==> blocks'[b] == blocks[b])
    && (h.Slot? ==> forall x: nat :: x < BLKSIZE && !InFields(h.j, x) ==> blocks'[h.b].bytes[x] == blocks[h.b].bytes[x])
  }

  ghost predicate OneOf(one: Fs, fs: Fs, f: nat, h: Home) {
    && |one.files| == 1 && f < |fs.files| && one.files[0] == fs.files[f] && one.free == fs.free
    && |fs.free| == |fs.blocks| < 0x10_0000 && Alike(fs.blocks, one.blocks, h)
  }

  // The block of the entry is in use.
  predicate Busy(fs: Fs, h: Home) { h.Slot? ==> h.b < |fs.free| && !fs.free[h.b] }

  lemma OnePtr(one: Fs, fs: Fs, f: nat, h: Home, n: nat)
    requires OneOf(one, fs, f, h)
    ensures Ptr(one, 0, n) == Ptr(fs, f, n) && (HasSlot(one, 0, n) <==> HasSlot(fs, f, n))
  {}

  ghost predicate OneResult<T>(one: Outcome<T>, r: Outcome<T>, f: nat, h: Home) {
    match r
    case Panic => one.Panic?
    case Err(fs, code) => one.Err? && one.code == code && OneOf(one.fs, fs, f, h)
    case Ok(fs, value) => one.Ok? && one.value == value && OneOf(one.fs, fs, f, h)
  }

  lemma WalkOne(one: Fs, fs: Fs, f: nat, h: Home, n: nat, alloc: bool)
    requires OneOf(one, fs, f, h) && (alloc ==> Busy(fs, h))
    ensures OneResult(Walk(one, 0, n, alloc), Walk(fs, f, n, alloc), f, h)
    ensures !Walk(fs, f, n, alloc).Panic? && Busy(fs, h) ==> Busy(Walk(fs, f, n, alloc).fs, h)
  {}

  lemma SetPtrOne(one: Fs, fs: Fs, f: nat, h: Home, n: nat, p: U32)
    requires OneOf(one, fs, f, h) && HasSlot(fs, f, n)
    ensures HasSlot(one, 0, n) && OneOf(SetPtr(one, 0, n, p), SetPtr(fs, f, n, p), f, h)
  {
    OnePtr(one, fs, f, h, n);
  }

  lemma AssignOne(one: Fs, fs: Fs, f: nat, h: Home, n: nat, b: U32)
    requires OneOf(one, fs, f, h) && HasSlot(fs, f, n) && Busy(fs, h) && b < |fs.free| && fs.free[b]
    ensures HasSlot(one, 0, n) && OneOf(Assign(one, 0, n, b), Assign(fs, f, n, b), f, h)
  {
    SetPtrOne(one, fs, f, h, n, b);
  }

  lemma GetBlockOne(one: Fs, fs: Fs, f: nat, h: Home, n: nat)
    requires OneOf(one, fs, f, h) && Busy(fs, h)
    ensures OneResult(GetBlock(one, 0, n), GetBlock(fs, f, n), f, h)
  {
    WalkOne(one, fs, f, h, n, true);
    var w := Walk(fs, f, n, true);
    if w.Ok? {
      var w1 := Walk(one, 0, n, true);
      OnePtr(w1.fs, w.fs, f, h, n);
      var free := FirstFree(w.fs.free, 0);
      if HasSlot(w.fs, f, n) && free.Some? { AssignOne(w1.fs, w.fs, f, h, n, free.value); }
    }
  }

  lemma FreeFileBlockOne(one: Fs, fs: Fs, f: nat, h: Home, n: nat)
    requires OneOf(one, fs, f, h)
    ensures OneOf(FreeFileBlock(one, 0, n), FreeFileBlock(fs, f, n), f, h)
  {
    WalkOne(one, fs, f, h, n, false);
    OnePtr(one, fs, f, h, n);
    if HasSlot(fs, f, n) { SetPtrOne(one, fs, f, h, n, 0); }
  }

  lemma {:induction false} FreeFromOne(one: Fs, fs: Fs, f: nat, h: Home, n: nat, end: nat)
    requires OneOf(one, fs, f, h)
    ensures OneOf(FreeFrom(one, 0, n, end), FreeFrom(fs, f, n, end), f, h)
    decreases end - n
  {
    if n < end {
      FreeFileBlockOne(one, fs, f, h, n);
      FreeFromOne(FreeFileBlock(one, 0, n), FreeFileBlock(fs, f, n), f, h, n + 1, end);
    }
  }

  lemma SetSizeOne(one: Fs, fs: Fs, f: nat, h: Home, newsize: nat)
    requires OneOf(one, fs, f, h) && fs.files[f].size >= 0
    ensures OneOf(SetSize(one, 0, newsize), SetSize(fs, f, newsize), f, h)
  {
    FreeFromOne(one, fs, f, h, Blocks(newsize), Blocks(fs.files[f].size));
  }

  // ---- In place, and with the structures kept apart ----

  // The disk is fs, but that the entry at h has the fields of file f.
  ghost predicate Mirrors(disk: Disk, fs: Fs, f: nat, h: Home) {
    && f < |fs.files| && disk.free == fs.free && Ready(disk) && FileIn(disk, h) == fs.files[f] && Fits(fs.files[f])
    && Alike(fs.blocks, disk.blocks, h)
  }

  lemma MirrorsAlone(disk: Disk, fs: Fs, f: nat, h: Home)
    requires Mirrors(disk, fs, f, h)
    ensures OneOf(Alone(disk, h), fs, f, h)
  {}

  lemma BackMirrors(one: Fs, fs: Fs, f: nat, h: Home, root: File)
    requires OneOf(one, fs, f, h) && Fits(fs.files[f])
    ensures Mirrors(Back(one, root, h), fs, f, h)
  {
    SetThenRead(Disk(one.free, one.blocks, root), h, one.files[0]);
  }

  ghost predicate Follows<T>(r: Result<T>, o: Outcome<T>, f: nat, h: Home) {
    match o
    case Panic => r.Stopped?
    case Err(fs, code) => r.Failed? && r.code == code && Mirrors(r.disk, fs, f, h)
    case Ok(fs, value) => r.Done? && r.value == value && Mirrors(r.disk, fs, f, h)
  }

  // The entry at h is in a block of another file's, its slot m.
  predicate Hosted(fs: Fs, f: nat, h: Home, g: nat, m: nat) {
    h.Slot? ==> g != f && m < MAXBLOCKS && h.b != 0 && Ptr(fs, g, m) == h.b && h.j < BLKFILES
  }

  // Nothing but file f has changed.
  ghost predicate OnlyFile(fs: Fs, fs': Fs, f: nat) {
    && SameRest(fs, fs', f)
    && forall g: nat, m: nat :: g != f ==> Ptr(fs', g, m) == Ptr(fs, g, m)
  }

  lemma OnlyFileTrans(a: Fs, b: Fs, c: Fs, f: nat)
    requires OnlyFile(a, b, f) && OnlyFile(b, c, f)
    ensures OnlyFile(a, c, f)
  {}

  lemma HostBusy(fs: Fs, f: nat, h: Home, g: nat, m: nat)
    requires Good(fs) && Hosted(fs, f, h, g, m)
    ensures Busy(fs, h) && Sits(fs.blocks, h)
    ensures h.Slot? ==> forall n: nat :: Ptr(fs, f, n) != h.b
  {
    OwnershipMeans(fs);
    GoodShaped(fs);
  }

  lemma GoodShaped(fs: Fs)
    requires Good(fs)
    ensures Sized(fs) && Shaped(fs)
  {
    var owner: Owners :| Inv(fs, owner);
  }

  // What file_get_block keeps, in terms of `Good`.
  lemma GetBlockGood(fs: Fs, f: nat, n: nat)
    requires Good(fs) && f < |fs.files| && n * BLKSIZE < fs.files[f].size
    ensures Sized(fs)
    ensures var r := GetBlock(fs, f, n);
      && (!r.Panic? ==> Good(r.fs) && Grown(fs, r.fs) && OnlyFile(fs, r.fs, f))
      && (r.Ok? ==> n < MAXBLOCKS && Ptr(r.fs, f, n) == r.value && 0 < r.value && Usable(r.fs, f, r.value))
  {
    GoodSized(fs);
    var owner: Owners :| Inv(fs, owner);
    var owner' := GetBlockKeeps(fs, owner, f, n);
    GetBlockFiles(fs, f, n);
    var r := GetBlock(fs, f, n);
    if r.Err? { assert Grown(fs, fs); }
  }

  lemma GetBlockMirrors(disk: Disk, fs: Fs, f: nat, h: Home, n: nat)
    requires Mirrors(disk, fs, f, h) && Busy(fs, h) && Grows(fs, f, n)
    ensures Follows(GetBlockIn(disk, h, n), GetBlock(fs, f, n), f, h)
  {
    MirrorsAlone(disk, fs, f, h);
    GetBlockOne(Alone(disk, h), fs, f, h, n);
    GetBlockFiles(Alone(disk, h), 0, n);
    var one, r := GetBlock(Alone(disk, h), 0, n), GetBlock(fs, f, n);
    if !r.Panic? { BackMirrors(one.fs, r.fs, f, h, disk.root); }
  }

  // The structure keeps its size and its form.
  predicate Grows(fs: Fs, f: nat, n: nat) {
    f < |fs.files| && |fs.free| == |fs.blocks| < 0x10_0000 &&
    var r := GetBlock(fs, f, n);
    !r.Panic? ==> f < |r.fs.files| && (Fits(fs.files[f]) ==> Fits(r.fs.files[f]))
  }

  // One call of file_get_block, in a good state.
  lemma GetBlockStep(disk: Disk, fs: Fs, f: nat, h: Home, g: nat, m: nat, n: nat)
    requires Good(fs) && Mirrors(disk, fs, f, h) && Hosted(fs, f, h, g, m) && n * BLKSIZE < fs.files[f].size
    ensures Sized(fs)
    ensures var r := GetBlock(fs, f, n);
      && Follows(GetBlockIn(disk, h, n), r, f, h)
      && (!r.Panic? ==> Good(r.fs) && Grown(fs, r.fs) && OnlyFile(fs, r.fs, f) && Hosted(r.fs, f, h, g, m))
      && (r.Ok? ==> n < MAXBLOCKS && Ptr(r.fs, f, n) == r.value && 0 < r.value && Usable(r.fs, f, r.value))
  {
    GetBlockGood(fs, f, n);
    var r := GetBlock(fs, f, n);
    if !r.Panic? { GoodSized(r.fs); }
    HostBusy(fs, f, h, g, m);
    GetBlockMirrors(disk, fs, f, h, n);
  }

  // The block it answers with is the same in both, and is not the entry's.
  lemma SameBlock(disk: Disk, fs: Fs, f: nat, h: Home, g: nat, m: nat, n: nat)
    requires Good(fs) && Mirrors(disk, fs, f, h) && Hosted(fs, f, h, g, m) && Ptr(fs, f, n) != 0 && Usable(fs, f, Ptr(fs, f, n))
    ensures UsableIn(disk, Ptr(fs, f, n)) && disk.blocks[Ptr(fs, f, n)] == fs.blocks[Ptr(fs, f, n)]
    ensures h.Slot? ==> h.b != Ptr(fs, f, n)
  {
    HostBusy(fs, f, h, g, m);
  }

  // ---- Whole loops ----

  // The disk mirrors a good state in which nothing but file f has changed.
  ghost predicate Touched(fs0: Fs, root: File, disk: Disk, fs: Fs, f: nat, h: Home, g: nat, m: nat) {
    (h.Slot? ==> disk.root == root) && Good(fs) && Mirrors(disk, fs, f, h) && Hosted(fs, f, h, g, m) && OnlyFile(fs0, fs, f)
  }

  // No pointer of the file has gone.
  ghost predicate PtrsStay(fs: Fs, fs': Fs, f: nat) {
    forall n: nat :: Ptr(fs, f, n) != 0 ==> Ptr(fs', f, n) == Ptr(fs, f, n)
  }

  // What the loops keep.
  ghost predicate Kept(fs0: Fs, root: File, disk: Disk, fs: Fs, f: nat, h: Home, g: nat, m: nat) {
    Touched(fs0, root, disk, fs, f, h, g, m) && PtrsStay(fs0, fs, f)
  }

  // One turn, for any property `inv` of disk and mirrored state.
  ghost predicate Turn(inv: (Disk, Fs) -> bool, disk: Disk, fs: Fs, f: nat, h: Home, n: nat) {
    f < |fs.files| && Ready(disk) && |fs.free| == |fs.blocks| < 0x10_0000 &&
    match GetBlock(fs, f, n)
    case Panic => GetBlockIn(disk, h, n).Stopped?
    case Err(fs1, code) => var r := GetBlockIn(disk, h, n); r.Failed? && r.code == code && inv(r.disk, fs1)
    case Ok(fs1, b) =>
      var r := GetBlockIn(disk, h, n);
      && r.Done? && r.value == b && inv(r.disk, fs1) && Usable(fs1, f, b) && UsableIn(r.disk, b) && r.disk.blocks[b] == fs1.blocks[b]
      && n < MAXBLOCKS && Ptr(fs1, f, n) == b && b > 0 && fs1.files[f].size == fs.files[f].size
  }

  ghost predicate Turns(inv: (Disk, Fs) -> bool, f: nat, h: Home, size: int) {
    forall disk: Disk, fs: Fs, n: nat {:trigger Turn(inv, disk, fs, f, h, n)} ::
      inv(disk, fs) && f < |fs.files| && fs.files[f].size == size && n * BLKSIZE < size ==> Turn(inv, disk, fs, f, h, n)
  }

  lemma KeptTurn(fs0: Fs, root: File, disk: Disk, fs: Fs, f: nat, h: Home, g: nat, m: nat, n: nat)
    requires Kept(fs0, root, disk, fs, f, h, g, m) && n * BLKSIZE < fs.files[f].size
    ensures Turn((d, s) => Kept(fs0, root, d, s, f, h, g, m), disk, fs, f, h, n)
  {
    GetBlockStep(disk, fs, f, h, g, m, n);
    var r := GetBlock(fs, f, n);
    if !r.Panic? { KeptNext(fs0, root, GetBlockIn(disk, h, n).disk, fs, r.fs, f, h, g, m); }
    if r.Ok? { SameBlock(GetBlockIn(disk, h, n).disk, r.fs, f, h, g, m, n); }
  }

  lemma KeptNext(fs0: Fs, root: File, disk: Disk, fs: Fs, fs1: Fs, f: nat, h: Home, g: nat, m: nat)
    requires OnlyFile(fs0, fs, f) && PtrsStay(fs0, fs, f) && OnlyFile(fs, fs1, f) && Grown(fs, fs1)
    requires Good(fs1) && Mirrors(disk, fs1, f, h) && Hosted(fs1, f, h, g, m) && (h.Slot? ==> disk.root == root)
    ensures Kept(fs0, root, disk, fs1, f, h, g, m)
  {
    OnlyFileTrans(fs0, fs, fs1, f);
  }

  lemma KeptTurns(fs0: Fs, root: File, f: nat, h: Home, g: nat, m: nat, size: int)
    ensures Turns((d, s) => Kept(fs0, root, d, s, f, h, g, m), f, h, size)
  {
    var inv := (d, s) => Kept(fs0, root, d, s, f, h, g, m);
    forall disk: Disk, fs: Fs, n: nat | inv(disk, fs) && f < |fs.files| && fs.files[f].size == size && n * BLKSIZE < size
      ensures Turn(inv, disk, fs, f, h, n)
    {
      KeptTurn(fs0, root, disk, fs, f, h, g, m, n);
    }
  }

  ghost predicate Ends<T>(inv: (Disk, Fs) -> bool, r: Result<T>, o: Outcome<T>) {
    match o
    case Panic => r.Stopped?
    case Err(fs, code) => r.Failed? && r.code == code && inv(r.disk, fs)
    case Ok(fs, value) => r.Done? && r.value == value && inv(r.disk, fs)
  }

  lemma NextBlock(n: nat, k: nat, len: nat, size: int)
    requires k < BLKSIZE && len > 0 && n * BLKSIZE + k + len <= size
    ensures n * BLKSIZE < size
    ensures var rest := len - Min(BLKSIZE - k, len); rest == 0 || (n + 1) * BLKSIZE + 0 + rest <= size
  {}

  lemma {:induction false} ReadFromEnds(inv: (Disk, Fs) -> bool, disk: Disk, fs: Fs, f: nat, h: Home, n: nat, k: nat, len: nat)
    requires inv(disk, fs) && f < |fs.files| && Ready(disk) && |fs.free| == |fs.blocks| < 0x10_0000 && k < BLKSIZE
    requires Turns(inv, f, h, fs.files[f].size) && (len == 0 || n * BLKSIZE + k + len <= fs.files[f].size)
    ensures Ends(inv, ReadFromIn(disk, h, n, k, len), ReadFrom(fs, f, n, k, len))
    decreases len
  {
    if len > 0 {
      NextBlock(n, k, len, fs.files[f].size);
      assert Turn(inv, disk, fs, f, h, n);
      var r := GetBlock(fs, f, n);
      if r.Ok? {
        var bn := Min(BLKSIZE - k, len);
        ReadFromEnds(inv, GetBlockIn(disk, h, n).disk, r.fs, f, h, n + 1, 0, len - bn);
      }
      ReadJoinsIn(inv, disk, fs, f, h, n, k, len);
    }
  }

  lemma ReadJoinsIn(inv: (Disk, Fs) -> bool, disk: Disk, fs: Fs, f: nat, h: Home, n: nat, k: nat, len: nat)
    requires len > 0 && k < BLKSIZE && Turn(inv, disk, fs, f, h, n)
    requires var r := GetBlock(fs, f, n);
      r.Ok? ==> var bn := Min(BLKSIZE - k, len);
        Ends(inv, ReadFromIn(GetBlockIn(disk, h, n).disk, h, n + 1, 0, len - bn), ReadFrom(r.fs, f, n + 1, 0, len - bn))
    ensures Ends(inv, ReadFromIn(disk, h, n, k, len), ReadFrom(fs, f, n, k, len))
  {}

  // Storing into a block of the file.
  ghost predicate Stores(inv: (Disk, Fs) -> bool, f: nat) {
    forall disk: Disk, fs: Fs, n: nat, off: nat, data: seq<Byte> {:trigger StoreTurn(inv, disk, fs, f, n, off, data)} ::
      inv(disk, fs) && n < MAXBLOCKS && Ptr(fs, f, n) > 0 && off + |data| <= BLKSIZE && UsableIn(disk, Ptr(fs, f, n)) && Usable(fs, f, Ptr(fs, f, n)) ==>
        StoreTurn(inv, disk, fs, f, n, off, data)
  }

  ghost predicate StoreTurn(inv: (Disk, Fs) -> bool, disk: Disk, fs: Fs, f: nat, n: nat, off: nat, data: seq<Byte>)
    requires off + |data| <= BLKSIZE && UsableIn(disk, Ptr(fs, f, n)) && Usable(fs, f, Ptr(fs, f, n))
  {
    inv(PutBytesIn(disk, Ptr(fs, f, n), off, data), PutBytes(fs, Ptr(fs, f, n), off, data))
  }

  lemma KeptStore(fs0: Fs, root: File, disk: Disk, fs: Fs, f: nat, h: Home, g: nat, m: nat, n: nat, off: nat, data: seq<Byte>)
    requires Kept(fs0, root, disk, fs, f, h, g, m) && n < MAXBLOCKS && Ptr(fs, f, n) > 0 && off + |data| <= BLKSIZE
    requires UsableIn(disk, Ptr(fs, f, n)) && Usable(fs, f, Ptr(fs, f, n))
    ensures Kept(fs0, root, PutBytesIn(disk, Ptr(fs, f, n), off, data), PutBytes(fs, Ptr(fs, f, n), off, data), f, h, g, m)
  {
    var owner: Owners :| Inv(fs, owner);
    PutBytesInv(fs, owner, f, n, off, data);
    SameBlock(disk, fs, f, h, g, m, n);
  }

  lemma KeptStores(fs0: Fs, root: File, f: nat, h: Home, g: nat, m: nat)
    ensures Stores((d, s) => Kept(fs0, root, d, s, f, h, g, m), f)
  {
    var inv := (d, s) => Kept(fs0, root, d, s, f, h, g, m);
    forall disk: Disk, fs: Fs, n: nat, off: nat, data: seq<Byte> |
      inv(disk, fs) && n < MAXBLOCKS && Ptr(fs, f, n) > 0 && off + |data| <= BLKSIZE && UsableIn(disk, Ptr(fs, f, n)) && Usable(fs, f, Ptr(fs, f, n))
      ensures StoreTurn(inv, disk, fs, f, n, off, data)
    {
      KeptStore(fs0, root, disk, fs, f, h, g, m, n, off, data);
    }
  }

  lemma {:induction false} WriteFromEnds(inv: (Disk, Fs) -> bool, disk: Disk, fs: Fs, f: nat, h: Home, n: nat, k: nat, data: seq<Byte>)
    requires inv(disk, fs) && f < |fs.files| && Ready(disk) && |fs.free| == |fs.blocks| < 0x10_0000 && k < BLKSIZE
    requires Turns(inv, f, h, fs.files[f].size) && Stores(inv, f) && (data == [] || n * BLKSIZE + k + |data| <= fs.files[f].size)
    ensures Ends(inv, WriteFromIn(disk, h, n, k, data), WriteFrom(fs, f, n, k, data))
    decreases |data|
  {
    if data != [] {
      NextBlock(n, k, |data|, fs.files[f].size);
      assert Turn(inv, disk, fs, f, h, n);
      var r := GetBlock(fs, f, n);
      if r.Ok? {
        var bn, disk1 := Min(BLKSIZE - k, |data|), GetBlockIn(disk, h, n).disk;
        assert StoreTurn(inv, disk1, r.fs, f, n, k, data[..bn]);
        WriteFromEnds(inv, PutBytesIn(disk1, r.value, k, data[..bn]), PutBytes(r.fs, r.value, k, data[..bn]), f, h, n + 1, 0, data[bn..]);
      }
    }
  }

  // ---- dir_alloc_file ----

  // One more block for the directory: the size in its own entry.
  ghost predicate Enlarged(inv: (Disk, Fs) -> bool, disk: Disk, fs: Fs, f: nat, h: Home) {
    && f < |fs.files| && FileIn(disk, h) == fs.files[f]
    && inv(Longer(disk, h), OneMore(fs, f))
  }

  ghost predicate Enlarges(inv: (Disk, Fs) -> bool, f: nat, h: Home, size: int) {
    forall disk: Disk, fs: Fs {:trigger Enlarged(inv, disk, fs, f, h)} ::
      inv(disk, fs) && f < |fs.files| && fs.files[f].size == size ==> Enlarged(inv, disk, fs, f, h)
  }

  lemma SetAlike(disk: Disk, h: Home, file: File)
    requires Sits(disk.blocks, h)
    ensures Alike(disk.blocks, SetFile(disk, h, file).blocks, h)
  {}

  lemma AlikeTrans(a: seq<Block>, b: seq<Block>, c: seq<Block>, h: Home)
    requires Alike(a, b, h) && Alike(b, c, h)
    ensures Alike(a, c, h)
  {}

  // Assignments to the fields, in both.
  lemma SetMirrors(disk: Disk, fs: Fs, f: nat, h: Home, file: File)
    requires Mirrors(disk, fs, f, h) && Fits(file)
    ensures Mirrors(SetFile(disk, h, file), PutFile(fs, f, file), f, h)
  {
    SetThenRead(disk, h, file);
    SetAlike(disk, h, file);
    AlikeTrans(fs.blocks, disk.blocks, SetFile(disk, h, file).blocks, h);
  }

  lemma OneMoreKept(fs0: Fs, root: File, disk: Disk, fs: Fs, f: nat, h: Home, g: nat, m: nat)
    requires Kept(fs0, root, disk, fs, f, h, g, m) && fs.files[f].size + BLKSIZE < 0x8000_0000
    ensures Kept(fs0, root, Longer(disk, h), OneMore(fs, f), f, h, g, m)
  {
    SetMirrors(disk, fs, f, h, fs.files[f].(size := fs.files[f].size + BLKSIZE));
    OneMoreGood(fs, f);
    OneMoreOnly(fs, f);
    OnlyFileTrans(fs0, fs, OneMore(fs, f), f);
  }

  lemma OneMoreOnly(fs: Fs, f: nat)
    requires f < |fs.files|
    ensures OnlyFile(fs, OneMore(fs, f), f) && forall x: nat, n: nat :: Ptr(OneMore(fs, f), x, n) == Ptr(fs, x, n)
  {}

  lemma KeptEnlarges(fs0: Fs, root: File, f: nat, h: Home, g: nat, m: nat, size: int)
    requires size + BLKSIZE < 0x8000_0000
    ensures Enlarges((d, s) => Kept(fs0, root, d, s, f, h, g, m), f, h, size)
  {
    var inv := (d, s) => Kept(fs0, root, d, s, f, h, g, m);
    forall disk: Disk, fs: Fs | inv(disk, fs) && f < |fs.files| && fs.files[f].size == size ensures Enlarged(inv, disk, fs, f, h) {
      OneMoreKept(fs0, root, disk, fs, f, h, g, m);
    }
  }

  // The pointer to the entry found leads to where the entry is.
  ghost predicate SpotEnds(inv: (Disk, Fs) -> bool, r: Result<(nat, Home)>, o: Outcome<(nat, nat)>, f: nat) {
    match o
    case Panic => r.Stopped?
    case Err(fs, code) => r.Failed? && r.code == code && inv(r.disk, fs)
    case Ok(fs, (i, j)) =>
      && r.Done? && r.value == (i, Slot(Ptr(fs, f, i), j)) && inv(r.disk, fs) && j < BLKFILES && i < MAXBLOCKS && Ptr(fs, f, i) > 0
      && Usable(fs, f, Ptr(fs, f, i)) && UsableIn(r.disk, Ptr(fs, f, i)) && r.disk.blocks[Ptr(fs, f, i)] == fs.blocks[Ptr(fs, f, i)]
  }

  lemma {:induction false} AllocFromEnds(inv: (Disk, Fs) -> bool, disk: Disk, fs: Fs, f: nat, h: Home, i: nat)
    requires inv(disk, fs) && f < |fs.files| && Ready(disk) && |fs.free| == |fs.blocks| < 0x10_0000
    requires var size := fs.files[f].size;
      size >= 0 && size % BLKSIZE == 0 && i <= size / BLKSIZE
      && Turns(inv, f, h, size) && Turns(inv, f, h, size + BLKSIZE) && Enlarges(inv, f, h, size)
    ensures SpotEnds(inv, AllocFromIn(disk, h, i, fs.files[f].size / BLKSIZE), AllocFrom(fs, f, i), f)
    decreases fs.files[f].size / BLKSIZE - i
  {
    InSize(fs.files[f].size, i);
    if i < fs.files[f].size / BLKSIZE {
      assert Turn(inv, disk, fs, f, h, i);
      var r := GetBlock(fs, f, i);
      if r.Ok? && FindFree(r.fs.blocks[r.value].bytes, 0).None? { AllocFromEnds(inv, GetBlockIn(disk, h, i).disk, r.fs, f, h, i + 1); }
      AllocJoins(inv, disk, fs, f, h, i, BlockCount(fs, f));
    } else {
      GrowEnds(inv, disk, fs, f, h);
    }
  }

  lemma AllocJoins(inv: (Disk, Fs) -> bool, disk: Disk, fs: Fs, f: nat, h: Home, i: nat, nblock: nat)
    requires Turn(inv, disk, fs, f, h, i) && nblock == BlockCount(fs, f) && i < nblock
    requires var r := GetBlock(fs, f, i);
      r.Ok? && FindFree(r.fs.blocks[r.value].bytes, 0).None? ==>
        SpotEnds(inv, AllocFromIn(GetBlockIn(disk, h, i).disk, h, i + 1, nblock), AllocFrom(r.fs, f, i + 1), f)
    ensures SpotEnds(inv, AllocFromIn(disk, h, i, nblock), AllocFrom(fs, f, i), f)
  {
    AllocTurn(fs, f, i);
    AllocTurnIn(disk, h, i, nblock);
  }

  lemma AllocTurnIn(disk: Disk, h: Home, i: nat, nblock: nat)
    requires Ready(disk) && i < nblock
    ensures var r, g := AllocFromIn(disk, h, i, nblock), GetBlockIn(disk, h, i);
      && (g.Stopped? ==> r == Stopped)
      && (g.Failed? ==> r == Failed(g.disk, g.code))
      && (g.Done? && UsableIn(g.disk, g.value) ==>
            match FindFree(g.disk.blocks[g.value].bytes, 0)
            case Some(j) => r == Done(g.disk, (i, Slot(g.value, j)))
            case None => r == AllocFromIn(g.disk, h, i + 1, nblock))
  {}

  function GrowIn(disk: Disk, h: Home, n: nat): Result<(nat, Home)>
    requires Ready(disk)
  {
    match GetBlockIn(Longer(disk, h), h, n)
    case Stopped => Stopped
    case Failed(disk1, code) => Failed(disk1, code)
    case Done(disk1, b) => Done(disk1, (n, Slot(b, 0)))
  }

  lemma AllocIsGrow(fs: Fs, f: nat)
    requires f < |fs.files| && |fs.free| == |fs.blocks| < 0x10_0000 && fs.files[f].size >= 0
    ensures AllocFrom(fs, f, BlockCount(fs, f)) == Grow(fs, f)
  {}

  lemma AllocInIsGrow(disk: Disk, h: Home, n: nat)
    requires Ready(disk)
    ensures AllocFromIn(disk, h, n, n) == GrowIn(disk, h, n)
  {}

  lemma GrowEnds(inv: (Disk, Fs) -> bool, disk: Disk, fs: Fs, f: nat, h: Home)
    requires inv(disk, fs) && f < |fs.files| && Ready(disk) && |fs.free| == |fs.blocks| < 0x10_0000
    requires fs.files[f].size >= 0 && fs.files[f].size % BLKSIZE == 0
    requires Turns(inv, f, h, fs.files[f].size + BLKSIZE) && Enlarges(inv, f, h, fs.files[f].size)
    ensures var n := fs.files[f].size / BLKSIZE; SpotEnds(inv, AllocFromIn(disk, h, n, n), AllocFrom(fs, f, n), f)
  {
    var n := BlockCount(fs, f);
    AllocIsGrow(fs, f);
    AllocInIsGrow(disk, h, n);
    LastBlock(fs.files[f].size);
    GrowsAt(inv, disk, fs, f, h, n, Grow(fs, f));
  }

  lemma GrowsAt(inv: (Disk, Fs) -> bool, disk: Disk, fs: Fs, f: nat, h: Home, n: nat, grown: Outcome<(nat, nat)>)
    requires inv(disk, fs) && f < |fs.files| && Ready(disk) && |fs.free| == |fs.blocks| < 0x10_0000
    requires Turns(inv, f, h, fs.files[f].size + BLKSIZE) && Enlarges(inv, f, h, fs.files[f].size) && n * BLKSIZE < fs.files[f].size + BLKSIZE
    requires grown == match GetBlock(OneMore(fs, f), f, n) case Panic => Panic case Err(s, code) => Err(s, code) case Ok(s, _) => Ok(s, (n, 0))
    ensures SpotEnds(inv, GrowIn(disk, h, n), grown, f)
  {
    assert Enlarged(inv, disk, fs, f, h);
    OneMoreSize(fs, f);
    GrownTurn(inv, Longer(disk, h), OneMore(fs, f), f, h, n, GrowIn(disk, h, n), grown);
  }

  lemma OneMoreSize(fs: Fs, f: nat)
    requires f < |fs.files|
    ensures f < |OneMore(fs, f).files| && OneMore(fs, f).files[f].size == fs.files[f].size + BLKSIZE
    ensures OneMore(fs, f).free == fs.free && OneMore(fs, f).blocks == fs.blocks
  {}

  lemma LastBlock(size: nat)
    ensures size / BLKSIZE * BLKSIZE < size + BLKSIZE
  {}

  lemma GrownTurn(inv: (Disk, Fs) -> bool, disk1: Disk, fs1: Fs, f: nat, h: Home, n: nat, r: Result<(nat, Home)>, grown: Outcome<(nat, nat)>)
    requires inv(disk1, fs1) && f < |fs1.files| && |fs1.free| == |fs1.blocks| < 0x10_0000 && Ready(disk1)
    requires Turns(inv, f, h, fs1.files[f].size) && n * BLKSIZE < fs1.files[f].size
    requires r == match GetBlockIn(disk1, h, n) case Stopped => Stopped case Failed(d, code) => Failed(d, code) case Done(d, p) => Done(d, (n, Slot(p, 0)))
    requires grown == match GetBlock(fs1, f, n) case Panic => Panic case Err(s, code) => Err(s, code) case Ok(s, _) => Ok(s, (n, 0))
    ensures SpotEnds(inv, r, grown, f)
  {
    assert Turn(inv, disk1, fs1, f, h, n);
  }

  // ---- The operations on a file among files ----

  ghost predicate Begins(disk: Disk, fs: Fs, f: nat, h: Home, g: nat, m: nat) {
    Good(fs) && Mirrors(disk, fs, f, h) && Hosted(fs, f, h, g, m)
  }

  lemma BeginsKept(disk: Disk, fs: Fs, f: nat, h: Home, g: nat, m: nat)
    requires Begins(disk, fs, f, h, g, m)
    ensures Sized(fs) && Kept(fs, disk.root, disk, fs, f, h, g, m)
  {
    GoodSized(fs);
  }

  lemma ReadEnds(disk: Disk, fs: Fs, f: nat, h: Home, g: nat, m: nat, count: nat, offset: nat)
    requires Begins(disk, fs, f, h, g, m)
    ensures Sized(fs) && Ends((d, s) => Kept(fs, disk.root, d, s, f, h, g, m), ReadIn(disk, h, count, offset), Read(fs, f, count, offset))
  {
    BeginsKept(disk, fs, f, h, g, m);
    if offset < fs.files[f].size {
      var n, k, len := ReadParts(disk, fs, f, h, count, offset);
      ReadRangeEnds(disk, fs, f, h, g, m, n, k, len, offset);
    }
  }

  lemma ReadParts(disk: Disk, fs: Fs, f: nat, h: Home, count: nat, offset: nat) returns (n: nat, k: nat, len: nat)
    requires Mirrors(disk, fs, f, h) && |fs.free| == |fs.blocks| && offset < fs.files[f].size
    ensures n * BLKSIZE + k == offset && k < BLKSIZE && offset + len <= fs.files[f].size
    ensures ReadIn(disk, h, count, offset) == ReadFromIn(disk, h, n, k, len)
    ensures Read(fs, f, count, offset) == ReadFrom(fs, f, n, k, len)
  {
    BlockAndRest(offset);
    n, k, len := offset / BLKSIZE, offset % BLKSIZE, Min(count, fs.files[f].size - offset);
    ReadInIs(disk, h, count, offset);
    ReadIs(fs, f, count, offset);
  }

  lemma ReadInIs(disk: Disk, h: Home, count: nat, offset: nat)
    requires Ready(disk) && offset < FileIn(disk, h).size
    ensures ReadIn(disk, h, count, offset) == ReadFromIn(disk, h, offset / BLKSIZE, offset % BLKSIZE, Min(count, FileIn(disk, h).size - offset))
  {}

  lemma ReadIs(fs: Fs, f: nat, count: nat, offset: nat)
    requires f < |fs.files| && |fs.free| == |fs.blocks| < 0x10_0000 && offset < fs.files[f].size
    ensures Read(fs, f, count, offset) == ReadFrom(fs, f, offset / BLKSIZE, offset % BLKSIZE, Min(count, fs.files[f].size - offset))
  {}

  lemma ReadRangeEnds(disk: Disk, fs: Fs, f: nat, h: Home, g: nat, m: nat, n: nat, k: nat, len: nat, pos: nat)
    requires Kept(fs, disk.root, disk, fs, f, h, g, m) && pos == n * BLKSIZE + k && k < BLKSIZE && pos + len <= fs.files[f].size
    ensures Sized(fs) && Ends((d, s) => Kept(fs, disk.root, d, s, f, h, g, m), ReadFromIn(disk, h, n, k, len), ReadFrom(fs, f, n, k, len))
  {
    GoodSized(fs);
    KeptTurns(fs, disk.root, f, h, g, m, fs.files[f].size);
    ReadFromEnds((d, s) => Kept(fs, disk.root, d, s, f, h, g, m), disk, fs, f, h, n, k, len);
  }

  lemma SetSizeMirrors(disk: Disk, fs: Fs, f: nat, h: Home, newsize: nat)
    requires Mirrors(disk, fs, f, h) && fs.files[f].size >= 0 && newsize < 0x8000_0000
    requires f < |SetSize(fs, f, newsize).files| && Fits(SetSize(fs, f, newsize).files[f])
    ensures Mirrors(SetSizeIn(disk, h, newsize), SetSize(fs, f, newsize), f, h)
  {
    MirrorsAlone(disk, fs, f, h);
    SetSizeOne(Alone(disk, h), fs, f, h, newsize);
    BackMirrors(SetSize(Alone(disk, h), 0, newsize), SetSize(fs, f, newsize), f, h, disk.root);
  }

  lemma SetSizeTouches(disk: Disk, fs: Fs, f: nat, h: Home, g: nat, m: nat, newsize: nat)
    requires Begins(disk, fs, f, h, g, m) && newsize < 0x8000_0000
    ensures Sized(fs) && Touched(fs, disk.root, SetSizeIn(disk, h, newsize), SetSize(fs, f, newsize), f, h, g, m)
    ensures newsize >= fs.files[f].size ==> Kept(fs, disk.root, SetSizeIn(disk, h, newsize), SetSize(fs, f, newsize), f, h, g, m)
  {
    var owner: Owners :| Inv(fs, owner);
    var owner' := SetSizeKeeps(fs, owner, f, newsize);
    SetSizeFiles(fs, f, newsize);
    SetSizeMirrors(disk, fs, f, h, newsize);
  }

  lemma WriteEnds(disk: Disk, fs: Fs, f: nat, h: Home, g: nat, m: nat, data: seq<Byte>, offset: nat)
    requires Begins(disk, fs, f, h, g, m) && offset + |data| < 0x8000_0000
    ensures Sized(fs) && Ends((d, s) => Kept(fs, disk.root, d, s, f, h, g, m), WriteIn(disk, h, data, offset), Write(fs, f, data, offset))
  {
    BeginsKept(disk, fs, f, h, g, m);
    var longer := offset + |data| > fs.files[f].size;
    var fs1 := if longer then SetSize(fs, f, offset + |data|) else fs;
    var disk1 := if longer then SetSizeIn(disk, h, offset + |data|) else disk;
    if longer { SetSizeTouches(disk, fs, f, h, g, m, offset + |data|); }
    assert Kept(fs, disk.root, disk1, fs1, f, h, g, m);
    GoodSized(fs1);
    assert fs1.files[f].size >= offset + |data|;
    BlockAndRest(offset);
    KeptTurns(fs, disk.root, f, h, g, m, fs1.files[f].size);
    KeptStores(fs, disk.root, f, h, g, m);
    WriteFromEnds((d, s) => Kept(fs, disk.root, d, s, f, h, g, m), disk1, fs1, f, h, offset / BLKSIZE, offset % BLKSIZE, data);
  }

  lemma CreateEnds(disk: Disk, fs: Fs, f: nat, h: Home, g: nat, m: nat, name: seq<Byte>)
    requires Begins(disk, fs, f, h, g, m) && Proper(name) && fs.files[f].size % BLKSIZE == 0 && fs.files[f].size + BLKSIZE < 0x8000_0000
    ensures Sized(fs)
    ensures SpotEnds((d, s) => Kept(fs, disk.root, d, s, f, h, g, m), CreateIn(disk, h, name), FileCreation.CreateIn(fs, f, name), f)
  {
    BeginsKept(disk, fs, f, h, g, m);
    var inv := (d, s) => Kept(fs, disk.root, d, s, f, h, g, m);
    KeptTurns(fs, disk.root, f, h, g, m, fs.files[f].size);
    KeptTurns(fs, disk.root, f, h, g, m, fs.files[f].size + BLKSIZE);
    KeptEnlarges(fs, disk.root, f, h, g, m, fs.files[f].size);
    AllocFromEnds(inv, disk, fs, f, h, 0);
    var a := AllocFrom(fs, f, 0);
    if a.Ok? { NamedEnds(fs, disk.root, AllocFromIn(disk, h, 0, fs.files[f].size / BLKSIZE).disk, a.fs, f, h, g, m, a.value.0, a.value.1, name); }
  }

  lemma NamedEnds(fs0: Fs, root: File, disk: Disk, fs: Fs, f: nat, h: Home, g: nat, m: nat, i: nat, j: nat, name: seq<Byte>)
    requires Kept(fs0, root, disk, fs, f, h, g, m) && j < BLKFILES && i < MAXBLOCKS && Ptr(fs, f, i) > 0 && Proper(name)
    requires Usable(fs, f, Ptr(fs, f, i)) && UsableIn(disk, Ptr(fs, f, i)) && disk.blocks[Ptr(fs, f, i)] == fs.blocks[Ptr(fs, f, i)]
    ensures SpotEnds((d, s) => Kept(fs0, root, d, s, f, h, g, m), SetNameIn(disk, i, Slot(Ptr(fs, f, i), j), name), SetName(fs, f, i, j, name), f)
  {
    FarApart(j, if j == 0 then 1 else 0, name);
    KeptStore(fs0, root, disk, fs, f, h, g, m, i, Off(j), name + [0]);
    var owner: Owners :| Inv(fs, owner);
    PutBytesInv(fs, owner, f, i, Off(j), name + [0]);
  }
}
