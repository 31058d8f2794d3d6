/** Runs of file operations, with files created in directories and their structures in the
    directories' blocks, against one byte array per file. */
module FileRuns {
  import opened Words
  import opened FileSystem
  import opened Directory
  import opened FileCreation
  import opened Homes
  import opened InPlace
  import opened Lodging

  datatype Op =
    | CreateOp(f: nat, name: seq<Byte>)
    | ReadOp(f: nat, count: nat, offset: nat)
    | WriteOp(f: nat, data: seq<Byte>, offset: nat)
    | SetSizeOp(f: nat, newsize: nat)

  // What an operation that succeeds answers; for file_create, which block of the directory the
  // entry is in, and the pointer to it.
  datatype Reply = Bytes(bytes: seq<Byte>) | Made(i: nat, h: Home) | Nothing

  // The file is open, names are proper, and no size goes past 32 bits.
  predicate Applies(disk: Disk, homes: seq<Home>, op: Op) {
    && Ready(disk) && op.f < |homes| && FileIn(disk, homes[op.f]).size >= 0
    && match op
       case CreateOp(f, name) => Proper(name) && FileIn(disk, homes[f]).size + BLKSIZE < 0x8000_0000
       case ReadOp(_, _, _) => true
       case WriteOp(_, data, offset) => offset + |data| < 0x8000_0000
       case SetSizeOp(_, newsize) => newsize < 0x8000_0000
  }

  function Answer<T>(r: Result<T>, reply: T -> Reply): Result<Reply> {
    match r
    case Stopped => Stopped
    case Failed(disk, code) => Failed(disk, code)
    case Done(disk, value) => Done(disk, reply(value))
  }

  function Do(disk: Disk, homes: seq<Home>, op: Op): Result<Reply>
    requires Applies(disk, homes, op)
  {
    match op
    case CreateOp(f, name) => Answer(InPlace.CreateIn(disk, homes[f], name), (at: (nat, Home)) => Made(at.0, at.1))
    case ReadOp(f, count, offset) => Answer(ReadIn(disk, homes[f], count, offset), (bytes: seq<Byte>) => Bytes(bytes))
    case WriteOp(f, data, offset) => Answer(WriteIn(disk, homes[f], data, offset), (_: nat) => Nothing)
    case SetSizeOp(f, newsize) => Done(SetSizeIn(disk, homes[f], newsize), Nothing)
  }

  // A created file is the last of the files from then on.
  function HomesAfter(homes: seq<Home>, r: Result<Reply>): seq<Home> {
    if r.Done? && r.value.Made? then homes + [r.value.h] else homes
  }

  // What a caller may not do, and which entries file_create may not take, for the files to stay
  // apart: see KeepsExactly and WriteLeavesExactly.
  ghost predicate Allowed(disk: Disk, homes: seq<Home>, op: Op)
    requires Applies(disk, homes, op)
  {
    match op
    case CreateOp(f, name) =>
      var r := InPlace.CreateIn(disk, homes[f], name);
      r.Done? ==> r.value.1 !in homes && NoPointers(FileIn(r.disk, r.value.1)) && FileIn(r.disk, r.value.1).size >= 0
    case ReadOp(_, _, _) => true
    case WriteOp(f, data, offset) => Leaves(Seen(disk, homes), homes, f, data, offset)
    case SetSizeOp(f, newsize) => !Vacates(Seen(disk, homes), homes, f, newsize)
  }

  // Where file f's structure is: in which file, and which of its blocks.
  ghost function HostOf(fs: Fs, homes: seq<Home>, f: nat): (nat, nat)
    requires f < |homes|
  {
    if Lodged(fs, homes, f) then var g: nat, m: nat :| Hosted(fs, f, homes[f], g, m); (g, m) else (0, 0)
  }

  lemma OneHost(fs: Fs, homes: seq<Home>, f: nat, g: nat, m: nat)
    requires Good(fs) && f < |homes| && homes[f].Slot? && Hosted(fs, f, homes[f], g, m)
    ensures HostOf(fs, homes, f) == (g, m)
  {
    OwnershipMeans(fs);
    assert Lodged(fs, homes, f);
    var at := HostOf(fs, homes, f);
    assert Hosted(fs, f, homes[f], at.0, at.1) && Ptr(fs, at.0, at.1) == Ptr(fs, g, m) != 0;
  }

  // ---- The bytes of an entry follow its file ----

  // The directory's byte array with these bytes as the size and the pointers of an entry.
  function Follow(known: Known, h: Home, host: (nat, nat), size: seq<Byte>, pointers: seq<Byte>): (r: Known)
    ensures |r| == |known|
  {
    if h.Slot? && host.0 < |known| then known[host.0 := PutFields(known[host.0], NamePos(host.1, h.j), size, pointers)] else known
  }

  function PutFields(bytes: map<nat, Byte>, pos: nat, size: seq<Byte>, pointers: seq<Byte>): map<nat, Byte> {
    Put(Put(bytes, pos + 128, size), pos + 136, pointers)
  }

  lemma LeadsSeen(disk: Disk, homes: seq<Home>, disk': Disk, fs': Fs, f: nat, g: nat, m: nat)
    requires Sound(disk, homes) && Leads(disk, homes, disk', fs', f, g, m)
    ensures Seen(disk', homes) == fs'.(blocks := disk'.blocks)
    ensures forall x: nat, n: nat :: Ptr(Seen(disk', homes), x, n) == Ptr(fs', x, n)
  {
    SeenAfter(disk, homes, disk', fs', f, g, m);
  }

  // But for the fields of the entry, every byte is as in the mirrored state.
  lemma SeenByte(fs: Fs, fs': Fs, h: Home, g: nat, m: nat, x: nat, n: nat, y: nat)
    requires Good(fs) && Alike(fs.blocks, fs'.blocks, h) && y < BLKSIZE && (h.Slot? ==> h.b != 0 && Ptr(fs, g, m) == h.b)
    requires Ptr(fs', x, n) == Ptr(fs, x, n)
    requires !(h.Slot? && x == g && n == m && InFields(h.j, y))
    ensures ByteAt(fs', x, n, y) == ByteAt(fs, x, n, y)
  {
    OwnershipMeans(fs);
    if h.Slot? && Ptr(fs, x, n) == h.b { assert Ptr(fs, x, n) == Ptr(fs, g, m); }
  }

  lemma InBlock(m: nat, y: nat)
    requires y < BLKSIZE
    ensures (m * BLKSIZE + y) / BLKSIZE == m && (m * BLKSIZE + y) % BLKSIZE == y
  {}

  lemma ContentAt(fs: Fs, g: nat, m: nat, y: nat, p: nat)
    requires y < BLKSIZE && p == m * BLKSIZE + y
    ensures Content(fs, g, p) == ByteAt(fs, g, m, y)
  {
    InBlock(m, y);
  }

  lemma EntryContent(fs: Fs, h: Home, g: nat, m: nat, k: nat, p: nat)
    requires h.Slot? && Sits(fs.blocks, h) && m < MAXBLOCKS && h.b != 0 && Ptr(fs, g, m) == h.b && k < 256 && p == NamePos(m, h.j) + k
    ensures Content(fs, g, p) == Some(fs.blocks[h.b].bytes[Off(h.j) + k])
  {
    var y := EntryOffset(m, h.j, k, p);
    ContentAt(fs, g, m, y, p);
  }

  lemma EntryOffset(m: nat, j: nat, k: nat, p: nat) returns (y: nat)
    requires j < BLKFILES && k < 256 && p == NamePos(m, j) + k
    ensures y == Off(j) + k < BLKSIZE && p == m * BLKSIZE + y
  {
    y := Off(j) + k;
  }

  // Which position of the directory is which byte of the entry.
  lemma EntryPos(m: nat, j: nat, p: nat) returns (y: nat)
    requires j < BLKFILES
    ensures y == p % BLKSIZE < BLKSIZE
    ensures p / BLKSIZE == m && InFields(j, y) ==> EntryField(NamePos(m, j), p)
  {
    BlockAndRest(p);
    y := p % BLKSIZE;
  }

  lemma OtherContent(disk: Disk, homes: seq<Home>, disk': Disk, fs': Fs, f: nat, g: nat, m: nat, x: nat, p: nat)
    requires Sound(disk, homes) && Leads(disk, homes, disk', fs', f, g, m)
    requires homes[f].Slot? && x == g ==> !EntryField(NamePos(m, homes[f].j), p)
    ensures Content(Seen(disk', homes), x, p) == Content(fs', x, p)
  {
    BlockAndRest(p);
    if homes[f].Slot? { var y := EntryPos(m, homes[f].j, p); }
    LeadsSeen(disk, homes, disk', fs', f, g, m);
    SeenByte(fs', Seen(disk', homes), homes[f], g, m, x, p / BLKSIZE, p % BLKSIZE);
  }

  predicate EntryField(pos: nat, p: nat) { pos + 128 <= p < pos + 132 || pos + 136 <= p < pos + 180 }

  // The byte of a field at k of an entry with these.
  function FieldOf(size: seq<Byte>, pointers: seq<Byte>, k: nat): Byte
    requires |size| == 4 && |pointers| == 44 && EntryField(0, k)
  {
    if k < 132 then size[k - 128] else pointers[k - 136]
  }

  lemma PutFieldsHas(bytes: map<nat, Byte>, pos: nat, size: seq<Byte>, pointers: seq<Byte>, p: nat)
    requires |size| == 4 && |pointers| == 44 && p in PutFields(bytes, pos, size, pointers)
    ensures if EntryField(pos, p) then PutFields(bytes, pos, size, pointers)[p] == FieldOf(size, pointers, p - pos)
            else p in bytes && PutFields(bytes, pos, size, pointers)[p] == bytes[p]
  {}

  // Contents that change at the fields of one entry only agree afterwards with the byte arrays
  // that follow it.
  lemma FollowContents(before: (nat, nat) -> Option<Byte>, after: (nat, nat) -> Option<Byte>, known: Known, h: Home, host: (nat, nat),
                       size: seq<Byte>, pointers: seq<Byte>)
    requires |size| == 4 && |pointers| == 44
    requires forall x: nat, p: nat :: x < |known| && p in known[x] ==> before(x, p) == Some(known[x][p])
    requires forall x: nat, p: nat :: !(h.Slot? && x == host.0 && EntryField(NamePos(host.1, h.j), p)) ==> after(x, p) == before(x, p)
    requires h.Slot? ==> forall p: nat :: EntryField(NamePos(host.1, h.j), p) ==> after(host.0, p) == Some(FieldOf(size, pointers, p - NamePos(host.1, h.j)))
    ensures var known' := Follow(known, h, host, size, pointers);
      forall x: nat, p: nat :: x < |known'| && p in known'[x] ==> after(x, p) == Some(known'[x][p])
  {
    var known', pos := Follow(known, h, host, size, pointers), if h.Slot? then NamePos(host.1, h.j) else 0;
    forall x: nat, p: nat | x < |known'| && p in known'[x] ensures after(x, p) == Some(known'[x][p]) {
      if h.Slot? && x == host.0 { PutFieldsHas(known[x], pos, size, pointers, p); }
    }
  }

  // Contents differ at the fields of one entry at most.
  ghost predicate SameElsewhere(fs: Fs, fs': Fs, h: Home, host: (nat, nat)) {
    && |fs'.files| == |fs.files|
    && forall x: nat, p: nat :: !(h.Slot? && x == host.0 && EntryField(NamePos(host.1, h.j), p)) ==> Content(fs', x, p) == Content(fs, x, p)
  }

  // The host has the bytes of the entry.
  ghost predicate HostHas(fs: Fs, disk: Disk, h: Home, host: (nat, nat))
    requires h.Slot? && Sits(disk.blocks, h)
  {
    var pos := NamePos(host.1, h.j);
    forall p: nat :: pos <= p < pos + 256 ==> Content(fs, host.0, p) == Some(disk.blocks[h.b].bytes[Off(h.j) + (p - pos)])
  }

  lemma ContentsElsewhere(disk: Disk, homes: seq<Home>, disk': Disk, fs': Fs, f: nat, g: nat, m: nat)
    requires Sound(disk, homes) && Leads(disk, homes, disk', fs', f, g, m)
    ensures SameElsewhere(fs', Seen(disk', homes), homes[f], (g, m))
  {
    forall x: nat, p: nat | !(homes[f].Slot? && x == g && EntryField(NamePos(m, homes[f].j), p))
      ensures Content(Seen(disk', homes), x, p) == Content(fs', x, p)
    {
      OtherContent(disk, homes, disk', fs', f, g, m, x, p);
    }
  }

  // The entry of the block spells these bytes.
  predicate Spelling(disk: Disk, h: Home, size: seq<Byte>, pointers: seq<Byte>) {
    && h.Slot? && Sits(disk.blocks, h) && |size| == 4 && |pointers| == 44
    && disk.blocks[h.b].bytes[Off(h.j) + 128..Off(h.j) + 132] == size
    && disk.blocks[h.b].bytes[Off(h.j) + 136..Off(h.j) + 180] == pointers
  }

  lemma SpelledByte(disk: Disk, h: Home, size: seq<Byte>, pointers: seq<Byte>, k: nat)
    requires Spelling(disk, h, size, pointers) && EntryField(0, k)
    ensures disk.blocks[h.b].bytes[Off(h.j) + k] == FieldOf(size, pointers, k)
  {
    if k < 132 {
      assert disk.blocks[h.b].bytes[Off(h.j) + 128..Off(h.j) + 132][k - 128] == disk.blocks[h.b].bytes[Off(h.j) + k];
    } else {
      assert disk.blocks[h.b].bytes[Off(h.j) + 136..Off(h.j) + 180][k - 136] == disk.blocks[h.b].bytes[Off(h.j) + k];
    }
  }

  lemma HostHasEntry(fs: Fs, disk: Disk, h: Home, g: nat, m: nat)
    requires h.Slot? && Sits(disk.blocks, h) && fs.blocks == disk.blocks && m < MAXBLOCKS && h.b != 0 && Ptr(fs, g, m) == h.b
    ensures HostHas(fs, disk, h, (g, m))
  {
    var pos := NamePos(m, h.j);
    forall p: nat | pos <= p < pos + 256 ensures Content(fs, g, p) == Some(disk.blocks[h.b].bytes[Off(h.j) + (p - pos)]) {
      EntryContent(fs, h, g, m, p - pos, p);
    }
  }

  lemma EntryContents(disk: Disk, homes: seq<Home>, disk': Disk, fs': Fs, f: nat, g: nat, m: nat)
    requires Sound(disk, homes) && Leads(disk, homes, disk', fs', f, g, m) && homes[f].Slot?
    ensures Sits(disk'.blocks, homes[f]) && HostHas(Seen(disk', homes), disk', homes[f], (g, m))
  {
    LeadsSeen(disk, homes, disk', fs', f, g, m);
    HostHasEntry(Seen(disk', homes), disk', homes[f], g, m);
  }

  lemma SpelledContents(after: (nat, nat) -> Option<Byte>, disk: Disk, h: Home, g: nat, pos: nat, size: seq<Byte>, pointers: seq<Byte>)
    requires Spelling(disk, h, size, pointers)
    requires forall p: nat :: pos <= p < pos + 256 ==> after(g, p) == Some(disk.blocks[h.b].bytes[Off(h.j) + (p - pos)])
    ensures forall p: nat :: EntryField(pos, p) ==> after(g, p) == Some(FieldOf(size, pointers, p - pos))
  {
    forall p: nat | EntryField(pos, p) ensures after(g, p) == Some(FieldOf(size, pointers, p - pos)) {
      SpelledByte(disk, h, size, pointers, p - pos);
    }
  }

  lemma FollowPlain(fs: Fs, fs': Fs, disk': Disk, h: Home, host: (nat, nat), known: Known, size: seq<Byte>, pointers: seq<Byte>)
    requires Agrees(fs, known) && SameElsewhere(fs, fs', h, host) && |size| == 4 && |pointers| == 44
    requires h.Slot? ==> Spelling(disk', h, size, pointers) && HostHas(fs', disk', h, host)
    ensures Agrees(fs', Follow(known, h, host, size, pointers))
  {
    var before, after := (x: nat, p: nat) => Content(fs, x, p), (x: nat, p: nat) => Content(fs', x, p);
    if h.Slot? { SpelledContents(after, disk', h, host.0, NamePos(host.1, h.j), size, pointers); }
    FollowContents(before, after, known, h, host, size, pointers);
  }

  lemma FollowAgrees(disk: Disk, homes: seq<Home>, disk': Disk, fs': Fs, f: nat, g: nat, m: nat, known: Known, size: seq<Byte>, pointers: seq<Byte>)
    requires Sound(disk, homes) && Leads(disk, homes, disk', fs', f, g, m) && Agrees(fs', known)
    requires |size| == 4 && |pointers| == 44 && (homes[f].Slot? ==> Spelling(disk', homes[f], size, pointers))
    ensures Agrees(Seen(disk', homes), Follow(known, homes[f], (g, m), size, pointers))
  {
    ContentsElsewhere(disk, homes, disk', fs', f, g, m);
    if homes[f].Slot? { EntryContents(disk, homes, disk', fs', f, g, m); }
    FollowPlain(fs', Seen(disk', homes), disk', homes[f], (g, m), known, size, pointers);
  }

  // What the entry spells is the file's structure.
  lemma SpellsFile(disk: Disk, h: Home)
    requires h.Slot? && Sits(disk.blocks, h)
    ensures |FileIn(disk, h).direct| == NDIRECT && Spelling(disk, h, SizeBytes(FileIn(disk, h)), PointerBytes(FileIn(disk, h)))
  {
    Spells(disk.blocks[h.b].bytes, h.j);
  }

  // ---- One operation ----

  // A byte array per file: the bytes written, and those of a directory's entries that are the
  // sizes and pointers of its files. A file just made has none.
  ghost function DoKnown(disk: Disk, homes: seq<Home>, known: Known, op: Op): Known
    requires Applies(disk, homes, op) && |known| == |homes| && !Do(disk, homes, op).Stopped?
  {
    var r := Do(disk, homes, op);
    var file := FileIn(r.disk, homes[op.f]);
    var known1 := match op
      case CreateOp(f, name) => if r.Done? && r.value.Made? && r.value.h.Slot? then known[f := Put(known[f], NamePos(r.value.i, r.value.h.j), name + [0])] else known
      case ReadOp(_, _, _) => known
      case WriteOp(f, data, offset) => WriteKnown(known, f, data, offset, r.Done?)
      case SetSizeOp(f, newsize) => known[f := Below(known[f], newsize)];
    var known2 := if |file.direct| == NDIRECT then Follow(known1, homes[op.f], HostOf(Seen(disk, homes), homes, op.f), SizeBytes(file), PointerBytes(file)) else known1;
    if op.CreateOp? && r.Done? then known2 + [map[]] else known2
  }

  lemma NamePut(fs: Fs, fs': Fs, known: Known, d: nat, pos: nat, data: seq<Byte>)
    requires Agrees(fs, known) && d < |known| && |fs'.files| == |fs.files|
    requires KeptOutside(fs, fs', d, pos, pos + |data|) && Has(fs', d, pos, data)
    ensures Agrees(fs', known[d := Put(known[d], pos, data)])
  {
    KeptContent(fs, fs', d, pos, pos + |data|);
    HasContent(fs', d, pos, data);
    var known' := known[d := Put(known[d], pos, data)];
    forall g: nat, p: nat | g < |known'| && p in known'[g] ensures Content(fs', g, p) == Some(known'[g][p]) {
      if g == d && pos <= p < pos + |data| {
        assert Content(fs', d, pos + (p - pos)) == Some(data[p - pos]);
      } else {
        assert Content(fs, g, p) == Some(known[g][p]);
      }
    }
  }

  // Creation puts the name into the directory's byte array and changes no other byte, with the
  // structures kept apart.
  lemma CreateAgreement(fs: Fs, known: Known, d: nat, name: seq<Byte>)
    requires Good(fs) && Agrees(fs, known) && d < |fs.files| && Proper(name)
    ensures Sized(fs)
    ensures var r := FileCreation.CreateIn(fs, d, name);
      fs.files[d].size % BLKSIZE == 0 ==>
        && (!r.Panic? ==> Good(r.fs) && |r.fs.files| == |fs.files|)
        && (r.Err? ==> Agrees(r.fs, known))
        && (r.Ok? ==> Agrees(r.fs, known[d := Put(known[d], NamePos(r.value.0, r.value.1), name + [0])]))
  {
    GoodSized(fs);
    if fs.files[d].size % BLKSIZE == 0 {
      CreateKeeps(fs, d, name);
      var r := FileCreation.CreateIn(fs, d, name);
      if r.Err? { KeptContent(fs, r.fs, d, 0, 0); }
      if r.Ok? { NamePut(fs, r.fs, known, d, NamePos(r.value.0, r.value.1), name + [0]); }
    }
  }

  lemma FollowStep(disk: Disk, homes: seq<Home>, disk': Disk, fs': Fs, f: nat, g: nat, m: nat, known: Known)
    requires Sound(disk, homes) && Leads(disk, homes, disk', fs', f, g, m) && Agrees(fs', known)
    ensures var file := FileIn(disk', homes[f]);
      && |file.direct| == NDIRECT
      && Agrees(Seen(disk', homes), Follow(known, homes[f], HostOf(Seen(disk, homes), homes, f), SizeBytes(file), PointerBytes(file)))
  {
    var h, file := homes[f], FileIn(disk', homes[f]);
    assert file == fs'.files[f];
    if h.Slot? {
      OneHost(Seen(disk, homes), homes, f, g, m);
      SpellsFile(disk', h);
    }
    FollowAgrees(disk, homes, disk', fs', f, g, m, known, SizeBytes(file), PointerBytes(file));
  }

  // What is to be shown of an operation that has not stopped.
  ghost predicate Correct(disk: Disk, homes: seq<Home>, known: Known, op: Op)
    requires Applies(disk, homes, op) && |known| == |homes| && !Do(disk, homes, op).Stopped?
  {
    var r := Do(disk, homes, op);
    Sound(r.disk, HomesAfter(homes, r)) && Agrees(Seen(r.disk, HomesAfter(homes, r)), DoKnown(disk, homes, known, op))
  }

  lemma ReadCorrectly(disk: Disk, homes: seq<Home>, known: Known, op: Op)
    requires Sound(disk, homes) && Agrees(Seen(disk, homes), known) && Applies(disk, homes, op) && op.ReadOp? && !Do(disk, homes, op).Stopped?
    ensures Correct(disk, homes, known, op)
    ensures var r := Do(disk, homes, op); r.Done? ==> r.value.Bytes? && ReadAgrees(known, op.f, op.offset, r.value.bytes)
  {
    var fs := Seen(disk, homes);
    var g, m := ReadSound(disk, homes, op.f, op.count, op.offset);
    ReadAgreement(fs, known, op.f, op.count, op.offset);
    FollowStep(disk, homes, Do(disk, homes, op).disk, Read(fs, op.f, op.count, op.offset).fs, op.f, g, m, known);
  }

  lemma WriteCorrectly(disk: Disk, homes: seq<Home>, known: Known, op: Op)
    requires Sound(disk, homes) && Agrees(Seen(disk, homes), known) && Applies(disk, homes, op) && op.WriteOp? && !Do(disk, homes, op).Stopped?
    requires Allowed(disk, homes, op)
    ensures Correct(disk, homes, known, op)
  {
    var fs := Seen(disk, homes);
    var g, m := WriteSound(disk, homes, op.f, op.data, op.offset);
    WriteAgreement(fs, known, op.f, op.data, op.offset);
    var o := Write(fs, op.f, op.data, op.offset);
    FollowStep(disk, homes, Do(disk, homes, op).disk, o.fs, op.f, g, m, WriteKnown(known, op.f, op.data, op.offset, o.Ok?));
  }

  lemma SetSizeCorrectly(disk: Disk, homes: seq<Home>, known: Known, op: Op)
    requires Sound(disk, homes) && Agrees(Seen(disk, homes), known) && Applies(disk, homes, op) && op.SetSizeOp? && !Do(disk, homes, op).Stopped?
    requires Allowed(disk, homes, op)
    ensures Correct(disk, homes, known, op)
  {
    var fs := Seen(disk, homes);
    var g, m := SetSizeExactly(disk, homes, op.f, op.newsize);
    SetSizeAgreement(fs, known, op.f, op.newsize);
    FollowStep(disk, homes, Do(disk, homes, op).disk, SetSize(fs, op.f, op.newsize), op.f, g, m, known[op.f := Below(known[op.f], op.newsize)]);
  }

  predicate Creates(disk: Disk, homes: seq<Home>, f: nat, name: seq<Byte>) {
    Ready(disk) && f < |homes| && Proper(name) && 0 <= FileIn(disk, homes[f]).size && FileIn(disk, homes[f]).size + BLKSIZE < 0x8000_0000
  }

  lemma CreateMakes(disk: Disk, homes: seq<Home>, known: Known, f: nat, name: seq<Byte>)
    requires Sound(disk, homes) && Agrees(Seen(disk, homes), known) && Creates(disk, homes, f, name)
    requires var r := InPlace.CreateIn(disk, homes[f], name); r.Done? && Sound(r.disk, homes + [r.value.1])
    ensures var r := InPlace.CreateIn(disk, homes[f], name); var (i, h) := r.value; var file := FileIn(r.disk, homes[f]);
      && h.Slot? && |file.direct| == NDIRECT
      && Agrees(Seen(r.disk, homes + [h]), Follow(known[f := Put(known[f], NamePos(i, h.j), name + [0])], homes[f],
                                                  HostOf(Seen(disk, homes), homes, f), SizeBytes(file), PointerBytes(file)) + [map[]])
  {
    var fs := Seen(disk, homes);
    var g, m := CreateSound(disk, homes, f, name);
    CreateAgreement(fs, known, f, name);
    var r := InPlace.CreateIn(disk, homes[f], name);
    var (i, h) := r.value;
    var known1 := known[f := Put(known[f], NamePos(i, h.j), name + [0])];
    FollowStep(disk, homes, r.disk, FileCreation.CreateIn(fs, f, name).fs, f, g, m, known1);
    CreateExactly(disk, homes, f, name);
    EntryFollows(disk, homes, r.disk, f, known1, h);
  }

  lemma CreateFails(disk: Disk, homes: seq<Home>, known: Known, f: nat, name: seq<Byte>)
    requires Sound(disk, homes) && Agrees(Seen(disk, homes), known) && Creates(disk, homes, f, name)
    requires InPlace.CreateIn(disk, homes[f], name).Failed?
    ensures var r := InPlace.CreateIn(disk, homes[f], name); var file := FileIn(r.disk, homes[f]);
      && Sound(r.disk, homes) && |file.direct| == NDIRECT
      && Agrees(Seen(r.disk, homes), Follow(known, homes[f], HostOf(Seen(disk, homes), homes, f), SizeBytes(file), PointerBytes(file)))
  {
    var fs := Seen(disk, homes);
    var g, m := CreateSound(disk, homes, f, name);
    CreateAgreement(fs, known, f, name);
    FollowStep(disk, homes, InPlace.CreateIn(disk, homes[f], name).disk, FileCreation.CreateIn(fs, f, name).fs, f, g, m, known);
  }

  lemma CreateCorrectly(disk: Disk, homes: seq<Home>, known: Known, op: Op)
    requires Sound(disk, homes) && Agrees(Seen(disk, homes), known) && Applies(disk, homes, op) && op.CreateOp? && !Do(disk, homes, op).Stopped?
    requires Allowed(disk, homes, op)
    ensures Correct(disk, homes, known, op)
  {
    if InPlace.CreateIn(disk, homes[op.f], op.name).Done? {
      CreateExactly(disk, homes, op.f, op.name);
      CreateMakes(disk, homes, known, op.f, op.name);
    } else {
      CreateFails(disk, homes, known, op.f, op.name);
    }
  }

  lemma EntryFollows(disk: Disk, homes: seq<Home>, disk': Disk, f: nat, known: Known, h: Home)
    requires f < |homes| && |FileIn(disk', homes[f]).direct| == NDIRECT && Sound(disk', homes) && Sound(disk', homes + [h]) && NoPointers(FileIn(disk', h))
    requires var file := FileIn(disk', homes[f]);
      Agrees(Seen(disk', homes), Follow(known, homes[f], HostOf(Seen(disk, homes), homes, f), SizeBytes(file), PointerBytes(file)))
    ensures var file := FileIn(disk', homes[f]);
      Agrees(Seen(disk', homes + [h]), Follow(known, homes[f], HostOf(Seen(disk, homes), homes, f), SizeBytes(file), PointerBytes(file)) + [map[]])
  {
    var file := FileIn(disk', homes[f]);
    EntryAdded(disk', homes, Follow(known, homes[f], HostOf(Seen(disk, homes), homes, f), SizeBytes(file), PointerBytes(file)), h);
  }

  lemma EntryAdded(disk: Disk, homes: seq<Home>, known: Known, h: Home)
    requires Sound(disk, homes) && Sound(disk, homes + [h]) && Agrees(Seen(disk, homes), known) && NoPointers(FileIn(disk, h))
    ensures Agrees(Seen(disk, homes + [h]), known + [map[]])
  {
    SeenAdded(disk, homes, h);
    GoodSized(Seen(disk, homes + [h]));
    assert Seen(disk, homes + [h]).files[|homes|] == FileIn(disk, h);
    AddedAgrees(Seen(disk, homes), known, FileIn(disk, h));
  }

  // An operation that is allowed and does not stop the server, whether or not it succeeds,
  // acts on the byte arrays.
  lemma DoAgrees(disk: Disk, homes: seq<Home>, known: Known, op: Op)
    requires Sound(disk, homes) && Agrees(Seen(disk, homes), known) && Applies(disk, homes, op) && Allowed(disk, homes, op)
    requires !Do(disk, homes, op).Stopped?
    ensures Correct(disk, homes, known, op)
    ensures var r := Do(disk, homes, op); r.Done? && op.ReadOp? ==> r.value.Bytes? && ReadAgrees(known, op.f, op.offset, r.value.bytes)
  {
    match op
    case CreateOp(_, _) => CreateCorrectly(disk, homes, known, op);
    case ReadOp(_, _, _) => ReadCorrectly(disk, homes, known, op);
    case WriteOp(_, _, _) => WriteCorrectly(disk, homes, known, op);
    case SetSizeOp(_, _) => SetSizeCorrectly(disk, homes, known, op);
  }

  // And only those that are allowed leave a sound file system, but for writes; of them see
  // WriteLeavesExactly and Rewriting.WriteKeepsExactly.
  lemma KeepsExactly(disk: Disk, homes: seq<Home>, op: Op)
    requires Sound(disk, homes) && Applies(disk, homes, op) && !op.WriteOp? && !Do(disk, homes, op).Stopped?
    ensures var r := Do(disk, homes, op); Sound(r.disk, HomesAfter(homes, r)) <==> Allowed(disk, homes, op)
  {
    match op
    case CreateOp(f, name) =>
      var g, m := CreateSound(disk, homes, f, name);
      CreateExactly(disk, homes, f, name);
    case ReadOp(f, count, offset) => var g, m := ReadSound(disk, homes, f, count, offset);
    case SetSizeOp(f, newsize) => var g, m := SetSizeExactly(disk, homes, f, newsize);
  }

  // ---- Runs ----

  ghost predicate Runs(disk: Disk, homes: seq<Home>, ops: seq<Op>)
    decreases |ops|
  {
    ops == [] ||
    (Applies(disk, homes, ops[0]) && Allowed(disk, homes, ops[0]) && !Do(disk, homes, ops[0]).Stopped?
     && Runs(Do(disk, homes, ops[0]).disk, HomesAfter(homes, Do(disk, homes, ops[0])), ops[1..]))
  }

  ghost function After(disk: Disk, homes: seq<Home>, ops: seq<Op>): (Disk, seq<Home>)
    requires Runs(disk, homes, ops)
    decreases |ops|
  {
    if ops == [] then (disk, homes) else After(Do(disk, homes, ops[0]).disk, HomesAfter(homes, Do(disk, homes, ops[0])), ops[1..])
  }

  ghost function KnownAfter(disk: Disk, homes: seq<Home>, known: Known, ops: seq<Op>): Known
    requires Runs(disk, homes, ops) && Sound(disk, homes) && Agrees(Seen(disk, homes), known)
    decreases |ops|
  {
    if ops == [] then known
    else
      DoAgrees(disk, homes, known, ops[0]);
      KnownAfter(Do(disk, homes, ops[0]).disk, HomesAfter(homes, Do(disk, homes, ops[0])), DoKnown(disk, homes, known, ops[0]), ops[1..])
  }

  // Over every run, with files created in directories as it goes, the file system stays sound
  // and keeps what was written: any later read, of a directory too, agrees with the byte arrays.
  lemma {:induction false} FilesAreByteArrays(disk: Disk, homes: seq<Home>, known: Known, ops: seq<Op>, f: nat, count: nat, offset: nat)
    requires Sound(disk, homes) && Agrees(Seen(disk, homes), known) && Runs(disk, homes, ops)
    ensures var (disk', homes') := After(disk, homes, ops); var known' := KnownAfter(disk, homes, known, ops);
      && Sound(disk', homes') && Agrees(Seen(disk', homes'), known') && Ready(disk')
      && (f < |homes'| && ReadIn(disk', homes'[f], count, offset).Done? ==>
            ReadAgrees(known', f, offset, ReadIn(disk', homes'[f], count, offset).value))
    decreases |ops|
  {
    if ops == [] {
      GoodSized(Seen(disk, homes));
      if f < |homes| && ReadIn(disk, homes[f], count, offset).Done? { DoAgrees(disk, homes, known, ReadOp(f, count, offset)); }
    } else {
      DoAgrees(disk, homes, known, ops[0]);
      FilesAreByteArrays(Do(disk, homes, ops[0]).disk, HomesAfter(homes, Do(disk, homes, ops[0])),
                         DoKnown(disk, homes, known, ops[0]), ops[1..], f, count, offset);
    }
  }
}
