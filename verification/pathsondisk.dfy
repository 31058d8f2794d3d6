/** Path names over the disk as it is: names, types and structures in the directories' entries. */
module PathsOnDisk {
  import opened Words
  import FileSystem
  import opened Directory
  import opened FileCreation
  import opened Homes
  import InPlace
  import opened Lodging
  import opened Paths
  import Opening

  type Fs = FileSystem.Fs

  const FTYPE_DIR: U32 := 1

  // f->f_type, for a struct File *f; opendisk writes the root's.
  function TypeIn(disk: Disk, h: Home): U32 {
    match h
    case Super => FTYPE_DIR
    case Slot(b, j) => if Sits(disk.blocks, h) then WordAt(disk.blocks[b].bytes, Off(j) + 132) else 0
  }

  // A file is known by its place in the list, counted from 1; 0 is any other pointer.
  function Number(homes: seq<Home>, h: Home): (r: nat)
    ensures r <= |homes| && (r > 0 ==> homes[r - 1] == h) && (h in homes ==> r > 0)
  {
    if homes == [] then 0 else if homes[|homes| - 1] == h then |homes| else Number(homes[..|homes| - 1], h)
  }

  predicate IsDirOn(disk: Disk, homes: seq<Home>, c: nat) { 0 < c <= |homes| && TypeIn(disk, homes[c - 1]) == FTYPE_DIR }

  // dir_lookup, with the pointer it answers.
  function LookupOn(disk: Disk, homes: seq<Home>, c: nat, name: Text): Paths.Lookup {
    var fs := Seen(disk, homes);
    if c == 0 || c > |homes| || |fs.free| != |fs.blocks| || |fs.blocks| >= 0x10_0000 then Broken(0)
    else match LookupFrom(fs, c - 1, 0, name)
      case Ok(_, slot) => Found(Number(homes, Slot(FileSystem.Ptr(fs, c - 1, slot.0), slot.1)))
      case Err(_, code) => if code == -FileSystem.E_NOT_FOUND then NoEntry else Broken(code)
      case Panic => Broken(0)
  }

  // The directory structure as it is read off the disk.
  ghost function TreeOn(disk: Disk, homes: seq<Home>): Tree {
    Tree((c: nat) => IsDirOn(disk, homes, c), (c: nat, name: Text) => LookupOn(disk, homes, c, name))
  }

  // Every directory has all its blocks.
  ghost predicate DirsWhole(disk: Disk, homes: seq<Home>) {
    forall c: nat :: IsDirOn(disk, homes, c) ==> Whole(Seen(disk, homes), c - 1)
  }

  // ---- Names do not depend on fields ----

  lemma NameNotField(j: nat, k: nat, x: nat)
    requires Off(j) <= x < Off(j) + 128 || Off(j) + 132 <= x < Off(j) + 136
    ensures !InFields(k, x)
  {}

  lemma AlikeName(a: seq<Byte>, b: seq<Byte>, k: nat, j: nat, name: Text)
    requires |a| == |b| == FileSystem.BLKSIZE && j < BLKFILES && Proper(name)
    requires forall x: nat :: x < FileSystem.BLKSIZE && !InFields(k, x) ==> a[x] == b[x]
    ensures NameIs(a, Off(j), name) <==> NameIs(b, Off(j), name)
  {
    forall x: nat | Off(j) <= x < Off(j) + 128 ensures x < FileSystem.BLKSIZE && a[x] == b[x] { NameNotField(j, k, x); }
    assert a[Off(j)..Off(j) + |name|] == b[Off(j)..Off(j) + |name|];
  }

  lemma AlikeWhole(fs: Fs, blocks: seq<FileSystem.Block>, h: Home, d: nat)
    requires Whole(fs, d) && InPlace.Alike(fs.blocks, blocks, h)
    ensures Whole(fs.(blocks := blocks), d) && BlockCount(fs.(blocks := blocks), d) == BlockCount(fs, d)
  {
    AlikePtrs(fs, blocks, h);
  }

  lemma AlikeNamed(fs: Fs, blocks: seq<FileSystem.Block>, h: Home, d: nat, i: nat, j: nat, name: Text)
    requires Whole(fs, d) && InPlace.Alike(fs.blocks, blocks, h) && i < BlockCount(fs, d) && j < BLKFILES && Proper(name)
    ensures Named(fs.(blocks := blocks), d, i, j, name) <==> Named(fs, d, i, j, name)
  {
    AlikePtrs(fs, blocks, h);
    WholeBlock(fs, d, i);
    var b := FileSystem.Ptr(fs, d, i);
    if h.Slot? && b == h.b { AlikeName(fs.blocks[b].bytes, blocks[b].bytes, h.j, j, name); }
  }

  // Where in its directory a name is.
  ghost predicate AtSlot(fs: Fs, d: nat, name: Text, slot: (nat, nat))
    requires d < |fs.files| && |fs.free| == |fs.blocks| < 0x10_0000
  {
    LookupFrom(fs, d, 0, name) == FileSystem.Ok(fs, slot)
  }

  ghost predicate Nowhere(fs: Fs, d: nat, name: Text)
    requires d < |fs.files| && |fs.free| == |fs.blocks| < 0x10_0000
  {
    LookupFrom(fs, d, 0, name) == FileSystem.Err(fs, -FileSystem.E_NOT_FOUND)
  }

  lemma SlotOrNone(fs: Fs, d: nat, name: Text)
    requires Whole(fs, d)
    ensures Nowhere(fs, d, name) || exists slot :: AtSlot(fs, d, name, slot)
    ensures forall slot :: AtSlot(fs, d, name, slot) ==> First(fs, d, slot.0, slot.1, name)
    ensures Nowhere(fs, d, name) ==> Absent(fs, d, name)
  {
    LookupFinds(fs, d, 0, name);
    var r := LookupFrom(fs, d, 0, name);
    if r.Ok? { assert AtSlot(fs, d, name, r.value); }
  }

  lemma AlikeSlots(fs: Fs, blocks: seq<FileSystem.Block>, h: Home, d: nat, name: Text)
    requires Whole(fs, d) && InPlace.Alike(fs.blocks, blocks, h) && Proper(name)
    ensures var fs' := fs.(blocks := blocks);
      && Whole(fs', d) && (forall slot :: AtSlot(fs, d, name, slot) ==> AtSlot(fs', d, name, slot))
      && (Nowhere(fs, d, name) ==> Nowhere(fs', d, name))
  {
    var fs' := fs.(blocks := blocks);
    AlikeWhole(fs, blocks, h, d);
    forall i: nat, j: nat | i < BlockCount(fs, d) && j < BLKFILES ensures Named(fs', d, i, j, name) <==> Named(fs, d, i, j, name) {
      AlikeNamed(fs, blocks, h, d, i, j, name);
    }
    SlotOrNone(fs, d, name);
    forall slot | AtSlot(fs, d, name, slot) ensures AtSlot(fs', d, name, slot) {
      assert First(fs', d, slot.0, slot.1, name);
      LookupIsFirst(fs', d, slot.0, slot.1, name);
    }
    if Nowhere(fs, d, name) { LookupIsNone(fs', d, name); }
  }

  // ---- Where names are after file_create, structures kept apart ----

  lemma SlotsAfter(fs: Fs, isDir: nat -> bool, d: nat, name: Text, d': nat, n: Text)
    requires FileSystem.Good(fs) && Opening.AllWhole(fs, isDir) && isDir(d) && isDir(d') && Proper(name) && Proper(n) && Absent(fs, d, name)
    requires FileCreation.CreateIn(fs, d, name).Ok?
    requires Opening.NoPhantoms(fs, FileCreation.CreateIn(fs, d, name).fs, d, FileCreation.CreateIn(fs, d, name).value.0)
    ensures var r := FileCreation.CreateIn(fs, d, name);
      && Whole(fs, d') && Whole(r.fs, d')
      && (if d' == d && n == name then AtSlot(r.fs, d', n, r.value)
          else (forall slot :: AtSlot(fs, d', n, slot) ==> AtSlot(r.fs, d', n, slot)) && (Nowhere(fs, d', n) ==> Nowhere(r.fs, d', n)))
  {
    var r := FileCreation.CreateIn(fs, d, name);
    CreateEffect(fs, d, name);
    if d' == d {
      OwnSlots(fs, r.fs, d, r.value.0, r.value.1, name, n);
    } else {
      OtherSlots(fs, d, name, d', n);
    }
  }

  lemma OwnSlots(fs: Fs, fs': Fs, d: nat, i: nat, j: nat, name: Text, n: Text)
    requires FileCreation.Created(fs, fs', d, i, j, name) && Proper(name) && Proper(n) && Absent(fs, d, name) && Opening.NoPhantoms(fs, fs', d, i)
    ensures if n == name then AtSlot(fs', d, n, (i, j))
            else (forall slot :: AtSlot(fs, d, n, slot) ==> AtSlot(fs', d, n, slot)) && (Nowhere(fs, d, n) ==> Nowhere(fs', d, n))
  {
    if n == name {
      CreateThenLookup(fs, fs', d, i, j, name);
    } else {
      SlotOrNone(fs, d, n);
      forall slot | AtSlot(fs, d, n, slot) ensures AtSlot(fs', d, n, slot) { OthersKept(fs, fs', d, i, j, name, slot.0, slot.1, n); }
      if Nowhere(fs, d, n) { PhantomsExactly(fs, fs', d, i, j, name, n); }
    }
  }

  lemma OtherSlots(fs: Fs, d: nat, name: Text, d': nat, n: Text)
    requires FileSystem.Good(fs) && Whole(fs, d) && Whole(fs, d') && d' != d && Proper(name) && FileCreation.CreateIn(fs, d, name).Ok?
    ensures var fs' := FileCreation.CreateIn(fs, d, name).fs;
      && Whole(fs', d') && (forall slot :: AtSlot(fs, d', n, slot) ==> AtSlot(fs', d', n, slot))
      && (Nowhere(fs, d', n) ==> Nowhere(fs', d', n))
  {
    var r := FileCreation.CreateIn(fs, d, name);
    CreateKeeps(fs, d, name);
    FileSystem.GoodSized(r.fs);
    var pos := NamePos(r.value.0, r.value.1);
    Opening.OtherWhole(fs, r.fs, d, pos, pos + |name| + 1, d');
    assert forall i: nat, j: nat {:trigger Named(r.fs, d', i, j, n)} :: i < BlockCount(fs, d') ==> (Named(r.fs, d', i, j, n) <==> Named(fs, d', i, j, n));
    SlotOrNone(fs, d', n);
    forall slot | AtSlot(fs, d', n, slot) ensures AtSlot(r.fs, d', n, slot) {
      assert First(r.fs, d', slot.0, slot.1, n);
      LookupIsFirst(r.fs, d', slot.0, slot.1, n);
    }
    if Nowhere(fs, d', n) { LookupIsNone(r.fs, d', n); }
  }

  // ---- Where they are on the disk ----

  lemma AddedSlots(fs: Fs, file: FileSystem.File, d: nat, name: Text)
    requires Whole(fs, d) && Proper(name)
    ensures var fs' := FileSystem.Added(fs, file);
      && Whole(fs', d) && (forall slot :: AtSlot(fs, d, name, slot) ==> AtSlot(fs', d, name, slot))
      && (Nowhere(fs, d, name) ==> Nowhere(fs', d, name))
  {
    var fs' := FileSystem.Added(fs, file);
    forall i: nat | true ensures FileSystem.Ptr(fs', d, i) == FileSystem.Ptr(fs, d, i) { FileSystem.OldPtr(fs, file, d, i); }
    assert Whole(fs', d) && forall i: nat, j: nat {:trigger Named(fs', d, i, j, name)} :: Named(fs', d, i, j, name) <==> Named(fs, d, i, j, name);
    SlotOrNone(fs, d, name);
    forall slot | AtSlot(fs, d, name, slot) ensures AtSlot(fs', d, name, slot) {
      assert First(fs', d, slot.0, slot.1, name);
      LookupIsFirst(fs', d, slot.0, slot.1, name);
    }
    if Nowhere(fs, d, name) { LookupIsNone(fs', d, name); }
  }

  lemma FoundOn(disk: Disk, homes: seq<Home>, d: nat, name: Text, slot: (nat, nat), h: Home)
    requires d < |homes| && |disk.free| == |disk.blocks| < 0x10_0000 && AtSlot(Seen(disk, homes), d, name, slot)
    requires h == Slot(FileSystem.Ptr(Seen(disk, homes), d, slot.0), slot.1)
    ensures LookupOn(disk, homes, d + 1, name) == Found(Number(homes, h))
  {}

  lemma NoneOn(disk: Disk, homes: seq<Home>, d: nat, name: Text)
    requires d < |homes| && |disk.free| == |disk.blocks| < 0x10_0000 && Nowhere(Seen(disk, homes), d, name)
    ensures LookupOn(disk, homes, d + 1, name) == NoEntry
  {}

  lemma NumberAdded(homes: seq<Home>, h: Home, q: Home)
    ensures Number(homes + [h], q) == if q == h then |homes| + 1 else Number(homes, q)
  {
    assert (homes + [h])[..|homes|] == homes;
  }

  // What file_create on the disk does, from a sound state.
  ghost predicate Made(disk: Disk, homes: seq<Home>, f: nat, name: Text, disk': Disk, i: nat, j: nat, h: Home, fs': Fs, g: nat, m: nat)
    requires f < |homes| && |disk.free| == |disk.blocks| < 0x10_0000
  {
    && FileCreation.CreateIn(Seen(disk, homes), f, name) == FileSystem.Ok(fs', (i, j))
    && InPlace.Kept(Seen(disk, homes), disk.root, disk', fs', f, homes[f], g, m)
    && h == Slot(FileSystem.Ptr(fs', f, i), j) && FileSystem.Ptr(fs', f, i) > 0 && j < BLKFILES
    && Seen(disk', homes) == fs'.(blocks := disk'.blocks)
  }

  lemma CreateMade(disk: Disk, homes: seq<Home>, f: nat, name: Text) returns (fs': Fs, g: nat, m: nat)
    requires Sound(disk, homes) && f < |homes| && Proper(name) && Seen(disk, homes).files[f].size + FileSystem.BLKSIZE < 0x8000_0000
    ensures InPlace.Ready(disk) && FileIn(disk, homes[f]).size >= 0
    ensures var r := InPlace.CreateIn(disk, homes[f], name);
      r.Done? ==>
        var (i, h) := r.value;
        h.Slot? && Made(disk, homes, f, name, r.disk, i, h.j, h, fs', g, m) && Sound(r.disk, homes)
  {
    var fs := Seen(disk, homes);
    g, m := CreateSound(disk, homes, f, name);
    var r, o := InPlace.CreateIn(disk, homes[f], name), FileCreation.CreateIn(fs, f, name);
    fs' := fs;
    if r.Done? {
      fs' := o.fs;
      SeenAfter(disk, homes, r.disk, o.fs, f, g, m);
      InPlace.CreateEnds(disk, fs, f, homes[f], g, m, name);
    }
  }

  // A name that was in a directory is there in the end, at the same place.
  lemma SlotStays(disk: Disk, homes: seq<Home>, f: nat, name: Text, disk': Disk, i: nat, j: nat, h: Home, fs': Fs, g: nat, m: nat, d: nat, n: Text)
    requires Sound(disk, homes) && DirsWhole(disk, homes) && f < |homes| && |disk.free| == |disk.blocks| < 0x10_0000
    requires IsDirOn(disk, homes, f + 1) && IsDirOn(disk, homes, d + 1) && Proper(name) && Proper(n)
    requires Made(disk, homes, f, name, disk', i, j, h, fs', g, m) && Absent(Seen(disk, homes), f, name) && Opening.NoPhantoms(Seen(disk, homes), fs', f, i)
    ensures d < |homes| && Whole(Seen(disk, homes), d) && Whole(Seen(disk', homes + [h]), d)
    ensures if d == f && n == name then AtSlot(Seen(disk', homes + [h]), d, n, (i, j))
            else (forall slot :: AtSlot(Seen(disk, homes), d, n, slot) ==> AtSlot(Seen(disk', homes + [h]), d, n, slot))
                 && (Nowhere(Seen(disk, homes), d, n) ==> Nowhere(Seen(disk', homes + [h]), d, n))
  {
    var fs, isDir := Seen(disk, homes), (k: nat) => IsDirOn(disk, homes, k + 1);
    SlotsAfter(fs, isDir, f, name, d, n);
    AlikeSlots(fs', disk'.blocks, homes[f], d, n);
    AddedSlots(Seen(disk', homes), FileIn(disk', h), d, n);
    SeenAdded(disk', homes, h);
  }

  lemma NameStarts(bytes: seq<Byte>, j: nat, n: Text)
    requires j < BLKFILES && Proper(n) && NameIs(bytes, Off(j), n)
    ensures bytes[Off(j)] != 0
  {
    assert bytes[Off(j)..Off(j) + |n|][0] == n[0] && n[0] in n;
  }

  // The pointer to an entry that had a name is as it was, and is not the new file's.
  lemma PointerStays(disk: Disk, homes: seq<Home>, f: nat, name: Text, disk': Disk, i: nat, j: nat, h: Home, fs': Fs, g: nat, m: nat,
                     d: nat, n: Text, slot: (nat, nat))
    requires Sound(disk, homes) && f < |homes| && |disk.free| == |disk.blocks| < 0x10_0000 && Whole(Seen(disk, homes), f) && Whole(Seen(disk, homes), d)
    requires Proper(name) && Proper(n) && Made(disk, homes, f, name, disk', i, j, h, fs', g, m) && First(Seen(disk, homes), d, slot.0, slot.1, n)
    ensures FileSystem.Ptr(Seen(disk', homes + [h]), d, slot.0) == FileSystem.Ptr(Seen(disk, homes), d, slot.0)
    ensures Slot(FileSystem.Ptr(Seen(disk, homes), d, slot.0), slot.1) != h
  {
    var fs := Seen(disk, homes);
    InSize(fs.files[d].size, slot.0);
    assert FileSystem.Ptr(fs, d, slot.0) != 0;
    AlikePtrs(fs', disk'.blocks, homes[f]);
    SeenAdded(disk', homes, h);
    FileSystem.OldPtr(Seen(disk', homes), FileIn(disk', h), d, slot.0);
    assert FileSystem.Ptr(fs', d, slot.0) == FileSystem.Ptr(fs, d, slot.0);
    FileSystem.OwnershipMeans(fs');
    CreateEffect(fs, f, name);
    if slot.0 == i && slot.1 == j && d == f { NameStarts(BytesOf(fs, f, i), j, n); }
  }

  lemma MadePtr(disk: Disk, homes: seq<Home>, f: nat, name: Text, disk': Disk, i: nat, j: nat, h: Home, fs': Fs, g: nat, m: nat)
    requires f < |homes| && |disk.free| == |disk.blocks| < 0x10_0000 && Made(disk, homes, f, name, disk', i, j, h, fs', g, m)
    ensures h == Slot(FileSystem.Ptr(Seen(disk', homes + [h]), f, i), j)
  {
    AlikePtrs(fs', disk'.blocks, homes[f]);
    SeenAdded(disk', homes, h);
    FileSystem.OldPtr(Seen(disk', homes), FileIn(disk', h), f, i);
  }

  lemma MadeLookup(homes: seq<Home>, f: nat, name: Text, disk': Disk, i: nat, j: nat, h: Home)
    requires f < |homes| && |disk'.free| == |disk'.blocks| < 0x10_0000 && AtSlot(Seen(disk', homes + [h]), f, name, (i, j))
    requires h == Slot(FileSystem.Ptr(Seen(disk', homes + [h]), f, i), j)
    ensures LookupOn(disk', homes + [h], f + 1, name) == Found(|homes| + 1)
  {
    FoundOn(disk', homes + [h], f, name, (i, j), h);
    NumberAdded(homes, h, h);
  }

  lemma SameLookup(disk: Disk, homes: seq<Home>, disk': Disk, h: Home, d: nat, n: Text, slot: (nat, nat), q: Home)
    requires |disk.free| == |disk.blocks| < 0x10_0000 && |disk'.free| == |disk'.blocks| < 0x10_0000 && d < |homes|
    requires AtSlot(Seen(disk, homes), d, n, slot) && AtSlot(Seen(disk', homes + [h]), d, n, slot)
    requires q == Slot(FileSystem.Ptr(Seen(disk, homes), d, slot.0), slot.1) == Slot(FileSystem.Ptr(Seen(disk', homes + [h]), d, slot.0), slot.1) != h
    ensures LookupOn(disk', homes + [h], d + 1, n) == LookupOn(disk, homes, d + 1, n)
  {
    FoundOn(disk, homes, d, n, slot, q);
    FoundOn(disk', homes + [h], d, n, slot, q);
    NumberAdded(homes, h, q);
  }

  lemma NoLookup(disk: Disk, homes: seq<Home>, disk': Disk, h: Home, d: nat, n: Text)
    requires |disk.free| == |disk.blocks| < 0x10_0000 && |disk'.free| == |disk'.blocks| < 0x10_0000 && d < |homes|
    requires Nowhere(Seen(disk, homes), d, n) && Nowhere(Seen(disk', homes + [h]), d, n)
    ensures LookupOn(disk', homes + [h], d + 1, n) == LookupOn(disk, homes, d + 1, n)
  {
    NoneOn(disk, homes, d, n);
    NoneOn(disk', homes + [h], d, n);
  }

  lemma OldLookup(disk: Disk, homes: seq<Home>, f: nat, name: Text, disk': Disk, i: nat, j: nat, h: Home, fs': Fs, g: nat, m: nat, d: nat, n: Text)
    requires Sound(disk, homes) && f < |homes| && d < |homes| && |disk.free| == |disk.blocks| < 0x10_0000 && |disk'.free| == |disk'.blocks| < 0x10_0000
    requires Whole(Seen(disk, homes), f) && Whole(Seen(disk, homes), d) && Proper(name) && Proper(n) && Made(disk, homes, f, name, disk', i, j, h, fs', g, m)
    requires forall slot :: AtSlot(Seen(disk, homes), d, n, slot) ==> AtSlot(Seen(disk', homes + [h]), d, n, slot)
    requires Nowhere(Seen(disk, homes), d, n) ==> Nowhere(Seen(disk', homes + [h]), d, n)
    ensures LookupOn(disk', homes + [h], d + 1, n) == LookupOn(disk, homes, d + 1, n)
  {
    SlotOrNone(Seen(disk, homes), d, n);
    if Nowhere(Seen(disk, homes), d, n) {
      NoLookup(disk, homes, disk', h, d, n);
    } else {
      var slot :| AtSlot(Seen(disk, homes), d, n, slot);
      PointerStays(disk, homes, f, name, disk', i, j, h, fs', g, m, d, n, slot);
      SameLookup(disk, homes, disk', h, d, n, slot, Slot(FileSystem.Ptr(Seen(disk, homes), d, slot.0), slot.1));
    }
  }

  // So after file_create every name leads where it led, but for the new one.
  lemma LookupAfter(disk: Disk, homes: seq<Home>, f: nat, name: Text, disk': Disk, i: nat, j: nat, h: Home, fs': Fs, g: nat, m: nat, d: nat, n: Text)
    requires Sound(disk, homes) && DirsWhole(disk, homes) && f < |homes| && |disk.free| == |disk.blocks| < 0x10_0000
    requires |disk'.free| == |disk'.blocks| < 0x10_0000
    requires IsDirOn(disk, homes, f + 1) && IsDirOn(disk, homes, d + 1) && Proper(name) && Proper(n)
    requires Made(disk, homes, f, name, disk', i, j, h, fs', g, m) && Absent(Seen(disk, homes), f, name) && Opening.NoPhantoms(Seen(disk, homes), fs', f, i)
    ensures LookupOn(disk', homes + [h], d + 1, n) == if d == f && n == name then Found(|homes| + 1) else LookupOn(disk, homes, d + 1, n)
  {
    assert Whole(Seen(disk, homes), f);
    SlotStays(disk, homes, f, name, disk', i, j, h, fs', g, m, d, n);
    if d == f && n == name {
      MadePtr(disk, homes, f, name, disk', i, j, h, fs', g, m);
      MadeLookup(homes, f, name, disk', i, j, h);
    } else {
      OldLookup(disk, homes, f, name, disk', i, j, h, fs', g, m, d, n);
    }
  }

  // ---- Types ----

  lemma TypeNotName(i: nat, j: nat, len: nat, m: nat, k: nat, x: nat)
    requires j < BLKFILES && k < BLKFILES && len <= 128 && Off(k) + 132 <= x < Off(k) + 136
    ensures x < FileSystem.BLKSIZE && !(NamePos(i, j) <= m * FileSystem.BLKSIZE + x < NamePos(i, j) + len)
  {
    assert m * FileSystem.BLKSIZE == 4096 * m;
    TypeApart(i, j, len, m, k, x);
  }

  lemma TypeApart(i: nat, j: nat, len: nat, m: nat, k: nat, x: nat)
    requires j < 16 && k < 16 && len <= 128 && 256 * k + 132 <= x < 256 * k + 136
    ensures !(4096 * i + 256 * j <= 4096 * m + x < 4096 * i + 256 * j + len)
  {}

  lemma TypeByte(disk: Disk, homes: seq<Home>, f: nat, name: Text, disk': Disk, i: nat, j: nat, h: Home, fs': Fs, g: nat, m: nat, k: nat, x: nat)
    requires Sound(disk, homes) && f < |homes| && |disk.free| == |disk.blocks| < 0x10_0000 && Whole(Seen(disk, homes), f) && Proper(name)
    requires Made(disk, homes, f, name, disk', i, j, h, fs', g, m) && k < |homes| && homes[k].Slot? && Off(homes[k].j) + 132 <= x < Off(homes[k].j) + 136
    ensures Sits(disk.blocks, homes[k]) && Sits(disk'.blocks, homes[k]) && x < FileSystem.BLKSIZE
    ensures disk'.blocks[homes[k].b].bytes[x] == disk.blocks[homes[k].b].bytes[x]
  {
    var fs := Seen(disk, homes);
    assert Lodged(fs, homes, k);
    var g1: nat, m1: nat :| InPlace.Hosted(fs, k, homes[k], g1, m1);
    TypeNotName(i, j, |name| + 1, m1, homes[k].j, x);
    CreateKeeps(fs, f, name);
    HostByte(fs, k, homes[k], g1, m1, x);
    assert FileSystem.ByteAt(fs', g1, m1, x) == FileSystem.ByteAt(fs, g1, m1, x);
    assert FileSystem.Ptr(fs', g1, m1) == homes[k].b;
    NameNotField(homes[k].j, if homes[f].Slot? then homes[f].j else 0, x);
  }

  lemma TypeStays(disk: Disk, homes: seq<Home>, f: nat, name: Text, disk': Disk, i: nat, j: nat, h: Home, fs': Fs, g: nat, m: nat, k: nat)
    requires Sound(disk, homes) && f < |homes| && |disk.free| == |disk.blocks| < 0x10_0000 && Whole(Seen(disk, homes), f) && Proper(name)
    requires Made(disk, homes, f, name, disk', i, j, h, fs', g, m) && k < |homes|
    ensures TypeIn(disk', homes[k]) == TypeIn(disk, homes[k])
  {
    if homes[k].Slot? {
      var a := Off(homes[k].j) + 132;
      TypeByte(disk, homes, f, name, disk', i, j, h, fs', g, m, k, a);
      TypeByte(disk, homes, f, name, disk', i, j, h, fs', g, m, k, a + 1);
      TypeByte(disk, homes, f, name, disk', i, j, h, fs', g, m, k, a + 2);
      TypeByte(disk, homes, f, name, disk', i, j, h, fs', g, m, k, a + 3);
    }
  }

  // ---- Paths ----

  // The two trees differ in one name, and in whatever the new file is.
  ghost predicate OneNameMore(t: Tree, t': Tree, n: nat, dir: nat, last: Text) {
    && (forall c: nat :: c <= n ==> t'.isDir(c) == t.isDir(c))
    && (forall c: nat, name: Text :: t.lookup(c, name).Found? ==> t.lookup(c, name).file <= n)
    && (forall c: nat, name: Text :: c <= n && t.isDir(c) && Proper(name) && !(c == dir && name == last) ==> t'.lookup(c, name) == t.lookup(c, name))
    && t.lookup(dir, last) == NoEntry && t'.lookup(dir, last) == Found(n + 1)
  }

  lemma {:induction false} FollowBoth(t: Tree, t': Tree, n: nat, dir: nat, last: Text, from: nat, up: Paths.Option<nat>, names: seq<Text>)
    requires OneNameMore(t, t', n, dir, last) && from <= n && forall s :: s in names && |s| < Paths.MAXNAMELEN ==> Proper(s)
    ensures Follow(t, from, up, names) == Missing(dir, last) ==> Follow(t', from, up, names) == At(Paths.Some(dir), n + 1)
    ensures Follow(t, from, up, names).At? ==> Follow(t', from, up, names) == Follow(t, from, up, names)
    decreases |names|
  {
    if names != [] && |names[0]| < Paths.MAXNAMELEN && t.isDir(from) {
      assert names[0] in names;
      if t.lookup(from, names[0]).Found? {
        FollowBoth(t, t', n, dir, last, t.lookup(from, names[0]).file, Paths.Some(from), names[1..]);
      }
    }
  }

  // The setting of the lemmas below: name is made in directory f as entry j of its block i.
  ghost predicate Making(disk: Disk, homes: seq<Home>, f: nat, name: Text, disk': Disk, i: nat, j: nat, h: Home, fs': Fs, g: nat, m: nat) {
    && Sound(disk, homes) && DirsWhole(disk, homes) && f < |homes| && |disk.free| == |disk.blocks| < 0x10_0000
    && |disk'.free| == |disk'.blocks| < 0x10_0000 && IsDirOn(disk, homes, f + 1) && Proper(name)
    && Made(disk, homes, f, name, disk', i, j, h, fs', g, m) && Opening.NoPhantoms(Seen(disk, homes), fs', f, i)
    && LookupOn(disk, homes, f + 1, name) == NoEntry
  }

  lemma DirStays(disk: Disk, homes: seq<Home>, disk': Disk, h: Home, k: nat)
    requires k < |homes| && TypeIn(disk', homes[k]) == TypeIn(disk, homes[k])
    ensures IsDirOn(disk', homes + [h], k + 1) == IsDirOn(disk, homes, k + 1)
  {}

  lemma DirsStay(disk: Disk, homes: seq<Home>, f: nat, name: Text, disk': Disk, i: nat, j: nat, h: Home, fs': Fs, g: nat, m: nat, k: nat)
    requires Making(disk, homes, f, name, disk', i, j, h, fs', g, m) && k < |homes|
    ensures IsDirOn(disk', homes + [h], k + 1) == IsDirOn(disk, homes, k + 1)
  {
    MakingWhole(disk, homes, f);
    TypeStays(disk, homes, f, name, disk', i, j, h, fs', g, m, k);
    DirStays(disk, homes, disk', h, k);
  }

  lemma MakingWhole(disk: Disk, homes: seq<Home>, f: nat)
    requires DirsWhole(disk, homes) && IsDirOn(disk, homes, f + 1)
    ensures Whole(Seen(disk, homes), f)
  {
    assert Whole(Seen(disk, homes), (f + 1) - 1);
  }

  lemma LookupsDiffer(disk: Disk, homes: seq<Home>, f: nat, name: Text, disk': Disk, i: nat, j: nat, h: Home, fs': Fs, g: nat, m: nat, c: nat, n: Text)
    requires Making(disk, homes, f, name, disk', i, j, h, fs', g, m) && IsDirOn(disk, homes, c) && Proper(n)
    ensures LookupOn(disk', homes + [h], c, n) == if c == f + 1 && n == name then Found(|homes| + 1) else LookupOn(disk, homes, c, n)
  {
    assert Whole(Seen(disk, homes), f);
    AbsentOn(disk, homes, f, name);
    LookupAfter(disk, homes, f, name, disk', i, j, h, fs', g, m, c - 1, n);
  }

  lemma FoundBound(disk: Disk, homes: seq<Home>, c: nat, name: Text)
    ensures LookupOn(disk, homes, c, name).Found? ==> LookupOn(disk, homes, c, name).file <= |homes|
  {}

  // The same in terms of what can be asked of the two disks.
  ghost predicate OneEntryMore(disk: Disk, homes: seq<Home>, disk': Disk, h: Home, f: nat, name: Text) {
    && (forall c: nat :: c <= |homes| ==> IsDirOn(disk', homes + [h], c) == IsDirOn(disk, homes, c))
    && (forall c: nat, n: Text :: IsDirOn(disk, homes, c) && Proper(n) ==>
          LookupOn(disk', homes + [h], c, n) == if c == f + 1 && n == name then Found(|homes| + 1) else LookupOn(disk, homes, c, n))
    && IsDirOn(disk, homes, f + 1) && Proper(name) && LookupOn(disk, homes, f + 1, name) == NoEntry
  }

  lemma EntryMade(disk: Disk, homes: seq<Home>, f: nat, name: Text, disk': Disk, i: nat, j: nat, h: Home, fs': Fs, g: nat, m: nat)
    requires Making(disk, homes, f, name, disk', i, j, h, fs', g, m)
    ensures OneEntryMore(disk, homes, disk', h, f, name)
  {
    forall c: nat | c <= |homes| ensures IsDirOn(disk', homes + [h], c) == IsDirOn(disk, homes, c) {
      if c > 0 { DirsStay(disk, homes, f, name, disk', i, j, h, fs', g, m, c - 1); }
    }
    forall c: nat, n: Text | IsDirOn(disk, homes, c) && Proper(n)
      ensures LookupOn(disk', homes + [h], c, n) == if c == f + 1 && n == name then Found(|homes| + 1) else LookupOn(disk, homes, c, n)
    {
      LookupsDiffer(disk, homes, f, name, disk', i, j, h, fs', g, m, c, n);
    }
  }

  lemma EntryIsName(disk: Disk, homes: seq<Home>, disk': Disk, h: Home, f: nat, name: Text)
    requires OneEntryMore(disk, homes, disk', h, f, name)
    ensures OneNameMore(TreeOn(disk, homes), TreeOn(disk', homes + [h]), |homes|, f + 1, name)
  {
    var t, t' := TreeOn(disk, homes), TreeOn(disk', homes + [h]);
    forall c: nat, n: Text | t.lookup(c, n).Found? ensures t.lookup(c, n).file <= |homes| { FoundBound(disk, homes, c, n); }
  }

  lemma TreesDiffer(disk: Disk, homes: seq<Home>, f: nat, name: Text, disk': Disk, i: nat, j: nat, h: Home, fs': Fs, g: nat, m: nat)
    requires Making(disk, homes, f, name, disk', i, j, h, fs', g, m)
    ensures OneNameMore(TreeOn(disk, homes), TreeOn(disk', homes + [h]), |homes|, f + 1, name)
  {
    EntryMade(disk, homes, f, name, disk', i, j, h, fs', g, m);
    EntryIsName(disk, homes, disk', h, f, name);
  }

  lemma AbsentOn(disk: Disk, homes: seq<Home>, d: nat, name: Text)
    requires d < |homes| && |disk.free| == |disk.blocks| < 0x10_0000 && Whole(Seen(disk, homes), d) && LookupOn(disk, homes, d + 1, name) == NoEntry
    ensures Absent(Seen(disk, homes), d, name)
  {
    LookupFinds(Seen(disk, homes), d, 0, name);
  }

  // The number of the root is the same with one more file in an entry.
  lemma RootNumber(homes: seq<Home>, h: Home)
    requires h.Slot?
    ensures Number(homes + [h], Super) == Number(homes, Super) <= |homes|
  {
    NumberAdded(homes, h, Super);
  }

  // In the new tree the path leads to file n in directory c, and `other` where it led.
  ghost predicate OpensIn(t: Tree, t': Tree, root: nat, n: nat, path: Text, c: nat, other: Text) {
    && Follow(t', root, Paths.None, Names(path)) == At(Paths.Some(c), n)
    && (Follow(t, root, Paths.None, Names(other)).At? ==> Follow(t', root, Paths.None, Names(other)) == Follow(t, root, Paths.None, Names(other)))
  }

  // What opens after file_create.
  ghost predicate Opens(disk: Disk, homes: seq<Home>, disk': Disk, h: Home, path: Text, c: nat, other: Text) {
    && Number(homes + [h], Super) == Number(homes, Super)
    && OpensIn(TreeOn(disk, homes), TreeOn(disk', homes + [h]), Number(homes, Super), |homes| + 1, path, c, other)
  }

  lemma TreesOpen(t: Tree, t': Tree, n: nat, root: nat, path: Text, c: nat, last: Text, other: Text)
    requires OneNameMore(t, t', n, c, last) && root <= n && 0 !in path && 0 !in other
    requires Follow(t, root, Paths.None, Names(path)) == Missing(c, last)
    ensures OpensIn(t, t', root, n + 1, path, c, other)
  {
    Opening.ProperNames(path);
    Opening.ProperNames(other);
    FollowBoth(t, t', n, c, last, root, Paths.None, Names(path));
    FollowBoth(t, t', n, c, last, root, Paths.None, Names(other));
  }

  lemma MadeOpens(disk: Disk, homes: seq<Home>, f: nat, last: Text, disk': Disk, i: nat, j: nat, h: Home, fs': Fs, g: nat, m: nat, path: Text, other: Text)
    requires Making(disk, homes, f, last, disk', i, j, h, fs', g, m) && h.Slot? && 0 !in path && 0 !in other
    requires Follow(TreeOn(disk, homes), Number(homes, Super), Paths.None, Names(path)) == Missing(f + 1, last)
    ensures Opens(disk, homes, disk', h, path, f + 1, other)
  {
    TreesDiffer(disk, homes, f, last, disk', i, j, h, fs', g, m);
    RootNumber(homes, h);
    TreesOpen(TreeOn(disk, homes), TreeOn(disk', homes + [h]), |homes|, Number(homes, Super), path, f + 1, last, other);
  }

  // A path that leads nowhere on the disk but to a directory it would end in: once file_create
  // has made the file there, it opens to it; and every path that led to a file leads to the
  // same one.
  lemma CreateThenOpen(disk: Disk, homes: seq<Home>, path: Text, c: nat, last: Text, other: Text)
    requires Sound(disk, homes) && DirsWhole(disk, homes) && 0 !in path && 0 !in other
    requires Follow(TreeOn(disk, homes), Number(homes, Super), Paths.None, Names(path)) == Missing(c, last)
    ensures 0 < c <= |homes| && InPlace.Ready(disk) && FileIn(disk, homes[c - 1]).size >= 0
    ensures FileIn(disk, homes[c - 1]).size + FileSystem.BLKSIZE < 0x8000_0000 ==>
      var r := InPlace.CreateIn(disk, homes[c - 1], last);
      r.Done? && Opening.NoPhantoms(Seen(disk, homes), Seen(r.disk, homes), c - 1, r.value.0) ==>
        Opens(disk, homes, r.disk, r.value.1, path, c, other)
  {
    MissingOn(disk, homes, path, c, last);
    if FileIn(disk, homes[c - 1]).size + FileSystem.BLKSIZE < 0x8000_0000 {
      var fs', g, m := CreateMade(disk, homes, c - 1, last);
      var r := InPlace.CreateIn(disk, homes[c - 1], last);
      if r.Done? && Opening.NoPhantoms(Seen(disk, homes), Seen(r.disk, homes), c - 1, r.value.0) {
        SamePhantoms(disk, homes, c - 1, last, r.disk, r.value.0, r.value.1.j, r.value.1, fs', g, m);
        FileSystem.GoodSized(Seen(r.disk, homes));
        MadeOpens(disk, homes, c - 1, last, r.disk, r.value.0, r.value.1.j, r.value.1, fs', g, m, path, other);
      }
    }
  }

  lemma MissingOn(disk: Disk, homes: seq<Home>, path: Text, c: nat, last: Text)
    requires Sound(disk, homes) && DirsWhole(disk, homes) && 0 !in path
    requires Follow(TreeOn(disk, homes), Number(homes, Super), Paths.None, Names(path)) == Missing(c, last)
    ensures 0 < c <= |homes| && InPlace.Ready(disk) && FileIn(disk, homes[c - 1]).size >= 0 && Proper(last)
    ensures IsDirOn(disk, homes, c) && LookupOn(disk, homes, c, last) == NoEntry
  {
    MissingIsAbsent(TreeOn(disk, homes), Number(homes, Super), Paths.None, Names(path));
    Opening.ProperNames(path);
    assert last in Names(path) && TreeOn(disk, homes).isDir(c);
    FileSystem.GoodSized(Seen(disk, homes));
  }

  // Which block was added is the same with the structures kept apart.
  lemma SamePhantoms(disk: Disk, homes: seq<Home>, f: nat, name: Text, disk': Disk, i: nat, j: nat, h: Home, fs': Fs, g: nat, m: nat)
    requires f < |homes| && |disk.free| == |disk.blocks| < 0x10_0000 && Made(disk, homes, f, name, disk', i, j, h, fs', g, m)
    requires Opening.NoPhantoms(Seen(disk, homes), Seen(disk', homes), f, i)
    ensures Opening.NoPhantoms(Seen(disk, homes), fs', f, i)
  {
    AlikePtrs(fs', disk'.blocks, homes[f]);
    assert FileSystem.Ptr(Seen(disk', homes), f, i) == FileSystem.Ptr(fs', f, i);
  }
}
