/** Path names over the directories of a file system: file_create, then file_open. */
module Opening {
  import opened Words
  import FileSystem
  import opened Directory
  import opened FileCreation
  import opened Paths

  type Fs = FileSystem.Fs

  // The directory structure of a file system: which files are directories, and which file is
  // in which entry, are given.
  ghost function TreeOf(fs: Fs, isDir: nat -> bool, fileIn: (nat, nat, nat) -> nat): Tree {
    Tree(isDir, (d: nat, name: Text) =>
      if d >= |fs.files| || |fs.free| != |fs.blocks| || |fs.blocks| >= 0x10_0000 then Broken(0)
      else match LookupFrom(fs, d, 0, name)
        case Ok(_, slot) => Found(fileIn(d, slot.0, slot.1))
        case Err(_, code) => if code == -FileSystem.E_NOT_FOUND then NoEntry else Broken(code)
        case Panic => Broken(0))
  }

  // Every directory has all its blocks.
  ghost predicate AllWhole(fs: Fs, isDir: nat -> bool) { forall d: nat :: isDir(d) ==> Whole(fs, d) }

  // The directory did not grow by a block with names in it.
  ghost predicate NoPhantoms(fs: Fs, fs': Fs, d: nat, i: nat)
    requires d < |fs.files|
  {
    i >= BlockCount(fs, d) ==>
      forall k: nat, n: Text :: 0 < k < BLKFILES && Proper(n) ==> !NameIs(Before(fs, fs', d, i), Off(k), n)
  }

  // ---- The other directories ----

  lemma OtherWhole(fs: Fs, fs': Fs, d: nat, from: nat, to: nat, d': nat)
    requires Whole(fs, d') && d' != d && FileSystem.Sized(fs') && d' < |fs'.files| && fs'.files[d'].size == fs.files[d'].size
    requires FileSystem.KeptOutside(fs, fs', d, from, to)
    ensures Whole(fs', d') && forall i: nat :: i < BlockCount(fs, d') ==> BytesOf(fs', d', i) == BytesOf(fs, d', i)
  {
    forall m: nat | m * FileSystem.BLKSIZE < fs.files[d'].size
      ensures m < FileSystem.MAXBLOCKS && 0 < FileSystem.Ptr(fs', d', m) < |fs'.blocks| && FileSystem.IsData(fs'.blocks[FileSystem.Ptr(fs', d', m)])
      ensures BytesOf(fs', d', m) == BytesOf(fs, d', m)
    {
      OtherBlock(fs, fs', d, from, to, d', m);
    }
    forall i: nat | i < BlockCount(fs, d') ensures BytesOf(fs', d', i) == BytesOf(fs, d', i) { InSize(fs.files[d'].size, i); }
  }

  lemma OtherBlock(fs: Fs, fs': Fs, d: nat, from: nat, to: nat, d': nat, m: nat)
    requires Whole(fs, d') && d' != d && FileSystem.KeptOutside(fs, fs', d, from, to) && m * FileSystem.BLKSIZE < fs.files[d'].size
    ensures m < FileSystem.MAXBLOCKS && 0 < FileSystem.Ptr(fs', d', m) < |fs'.blocks| && FileSystem.IsData(fs'.blocks[FileSystem.Ptr(fs', d', m)])
    ensures BytesOf(fs', d', m) == BytesOf(fs, d', m)
  {
    assert 0 < FileSystem.Ptr(fs, d', m);
    forall j: nat | j < FileSystem.BLKSIZE ensures FileSystem.ByteAt(fs', d', m, j) == FileSystem.Some(BytesOf(fs, d', m)[j]) {
      assert FileSystem.ByteAt(fs, d', m, j).Some?;
    }
    assert FileSystem.ByteAt(fs', d', m, 0).Some?;
    var bytes, bytes' := BytesOf(fs, d', m), BytesOf(fs', d', m);
    forall j: nat | j < FileSystem.BLKSIZE ensures bytes'[j] == bytes[j] {
      assert FileSystem.ByteAt(fs', d', m, j) == FileSystem.Some(bytes'[j]);
    }
    assert bytes' == bytes;
  }

  lemma SameNames(fs: Fs, fs': Fs, isDir: nat -> bool, fileIn: (nat, nat, nat) -> nat, d: nat, name: Text)
    requires Whole(fs, d) && Whole(fs', d) && BlockCount(fs', d) == BlockCount(fs, d)
    requires forall i: nat :: i < BlockCount(fs, d) ==> BytesOf(fs', d, i) == BytesOf(fs, d, i)
    ensures TreeOf(fs', isDir, fileIn).lookup(d, name) == TreeOf(fs, isDir, fileIn).lookup(d, name)
  {
    assert forall i: nat, j: nat {:trigger Named(fs', d, i, j, name)} :: i < BlockCount(fs, d) ==>
      (Named(fs', d, i, j, name) <==> Named(fs, d, i, j, name));
    LookupFinds(fs, d, 0, name);
    LookupFinds(fs', d, 0, name);
    var r, r' := LookupFrom(fs, d, 0, name), LookupFrom(fs', d, 0, name);
    if r.Ok? {
      assert First(fs', d, r.value.0, r.value.1, name);
      LookupIsFirst(fs', d, r.value.0, r.value.1, name);
    } else {
      assert Absent(fs', d, name);
      LookupIsNone(fs', d, name);
    }
  }

  // ---- The tree after file_create ----

  lemma OwnNames(fs: Fs, fs': Fs, isDir: nat -> bool, fileIn: (nat, nat, nat) -> nat, d: nat, i: nat, j: nat, name: Text, n: Text)
    requires FileCreation.Created(fs, fs', d, i, j, name) && Proper(name) && Proper(n) && Absent(fs, d, name) && NoPhantoms(fs, fs', d, i)
    ensures TreeOf(fs', isDir, fileIn).lookup(d, n) ==
      if n == name then Found(fileIn(d, i, j)) else TreeOf(fs, isDir, fileIn).lookup(d, n)
  {
    if n == name {
      CreateThenLookup(fs, fs', d, i, j, name);
    } else {
      LookupFinds(fs, d, 0, n);
      var r := LookupFrom(fs, d, 0, n);
      if r.Ok? {
        OthersKept(fs, fs', d, i, j, name, r.value.0, r.value.1, n);
      } else {
        PhantomsExactly(fs, fs', d, i, j, name, n);
      }
    }
  }

  // In any directory, any proper name leads where it led before, but for the one created.
  lemma TreeAfter(fs: Fs, isDir: nat -> bool, fileIn: (nat, nat, nat) -> nat, d: nat, name: Text, d': nat, n: Text)
    requires FileSystem.Good(fs) && AllWhole(fs, isDir) && isDir(d) && Proper(name) && Absent(fs, d, name)
    requires CreateIn(fs, d, name).Ok? && NoPhantoms(fs, CreateIn(fs, d, name).fs, d, CreateIn(fs, d, name).value.0)
    requires isDir(d') && Proper(n)
    ensures var r := CreateIn(fs, d, name);
      TreeOf(r.fs, isDir, fileIn).lookup(d', n) ==
        Paths.Created(TreeOf(fs, isDir, fileIn), d, name, fileIn(d, r.value.0, r.value.1)).lookup(d', n)
  {
    var r := CreateIn(fs, d, name);
    CreateEffect(fs, d, name);
    if d' == d {
      OwnNames(fs, r.fs, isDir, fileIn, d, r.value.0, r.value.1, name, n);
    } else {
      OtherNames(fs, isDir, fileIn, d, name, d', n);
    }
  }

  lemma OtherNames(fs: Fs, isDir: nat -> bool, fileIn: (nat, nat, nat) -> nat, d: nat, name: Text, d': nat, n: Text)
    requires FileSystem.Good(fs) && Whole(fs, d) && Whole(fs, d') && d' != d && Proper(name) && CreateIn(fs, d, name).Ok?
    ensures TreeOf(CreateIn(fs, d, name).fs, isDir, fileIn).lookup(d', n) == TreeOf(fs, isDir, fileIn).lookup(d', n)
  {
    var r := CreateIn(fs, d, name);
    CreateKeeps(fs, d, name);
    FileSystem.GoodSized(r.fs);
    var pos := NamePos(r.value.0, r.value.1);
    OtherWhole(fs, r.fs, d, pos, pos + |name| + 1, d');
    SameNames(fs, r.fs, isDir, fileIn, d', n);
  }

  // Two trees that agree on proper names in directories lead along the same ways.
  lemma {:induction false} FollowSame(t: Tree, t': Tree, from: nat, up: Option<nat>, names: seq<Text>)
    requires t.isDir == t'.isDir && forall n :: n in names && |n| < Paths.MAXNAMELEN ==> Proper(n)
    requires forall d: nat, n: Text :: t.isDir(d) && Proper(n) ==> t'.lookup(d, n) == t.lookup(d, n)
    ensures Follow(t', from, up, names) == Follow(t, from, up, names)
    decreases |names|
  {
    if names != [] && |names[0]| < Paths.MAXNAMELEN && t.isDir(from) {
      assert names[0] in names;
      if t.lookup(from, names[0]).Found? { FollowSame(t, t', t.lookup(from, names[0]).file, Some(from), names[1..]); }
    }
  }

  // A path that file_create finds missing opens to the created file afterwards, and every
  // path that led to a file leads to the same one.
  lemma CreateThenOpen(fs: Fs, isDir: nat -> bool, fileIn: (nat, nat, nat) -> nat, root: nat, path: Text, d: nat, last: Text, other: Text)
    requires FileSystem.Good(fs) && AllWhole(fs, isDir) && 0 !in path && 0 !in other
    requires Follow(TreeOf(fs, isDir, fileIn), root, None, Names(path)) == Missing(d, last)
    ensures d < |fs.files| && |fs.free| == |fs.blocks| < 0x10_0000 && Proper(last)
    ensures var r := CreateIn(fs, d, last);
      r.Ok? && NoPhantoms(fs, r.fs, d, r.value.0) ==>
        var t, t' := TreeOf(fs, isDir, fileIn), TreeOf(r.fs, isDir, fileIn);
        && Follow(t', root, None, Names(path)) == At(Some(d), fileIn(d, r.value.0, r.value.1))
        && (Follow(t, root, None, Names(other)).At? ==> Follow(t', root, None, Names(other)) == Follow(t, root, None, Names(other)))
  {
    var t := TreeOf(fs, isDir, fileIn);
    MissingIsAbsent(t, root, None, Names(path));
    ProperNames(path);
    ProperNames(other);
    assert last in Names(path) && Proper(last) && Whole(fs, d);
    LookupFinds(fs, d, 0, last);
    var r := CreateIn(fs, d, last);
    if r.Ok? && NoPhantoms(fs, r.fs, d, r.value.0) {
      var t', made := TreeOf(r.fs, isDir, fileIn), Paths.Created(t, d, last, fileIn(d, r.value.0, r.value.1));
      forall d': nat, n: Text | made.isDir(d') && Proper(n) ensures t'.lookup(d', n) == made.lookup(d', n) {
        TreeAfter(fs, isDir, fileIn, d, last, d', n);
      }
      Paths.CreateThenOpen(t, root, None, Names(path), d, last, fileIn(d, r.value.0, r.value.1));
      Paths.CreateThenOpen(t, root, None, Names(other), d, last, fileIn(d, r.value.0, r.value.1));
      FollowSame(made, t', root, None, Names(path));
      FollowSame(made, t', root, None, Names(other));
    }
  }

  lemma ProperNames(path: Text)
    requires 0 !in path
    ensures forall n :: n in Names(path) && |n| < Paths.MAXNAMELEN ==> Proper(n)
  {
    NamesAreProper(path, SkipSlash(path, 0));
    NoZeros(path, SkipSlash(path, 0));
  }

  lemma {:induction false} NoZeros(path: Text, i: nat)
    requires i <= |path| && 0 !in path
    ensures forall n :: n in NamesFrom(path, i) ==> 0 !in n
    decreases |path| - i
  {
    if i < |path| && path[i] != SLASH {
      var j := NameEnd(path, i);
      assert 0 !in path[i..j];
      NoZeros(path, SkipSlash(path, j));
    }
  }
}
