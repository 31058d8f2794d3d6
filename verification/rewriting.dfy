/** Writing over the structures in a directory: exactly when every block still has one owner. */
module Rewriting {
  import opened Words
  import opened FileSystem
  import opened Directory
  import opened FileCreation
  import opened Homes
  import opened InPlace
  import opened Lodging

  // ---- Other structures for the same blocks ----

  // The slots that are in the structure itself: its direct pointers and the indirect one.
  predicate InFile(n: nat) { n < NDIRECT || n == INDIRECT }

  // Some file other than f has pointer p in its structure, direct or indirect.
  ghost predicate Given(fs: Fs, f: nat, indirect: bool, p: U32) {
    exists k: nat, n: nat :: k != f && InFile(n) && (n == INDIRECT) == indirect && Ptr(fs, k, n) == p
  }

  ghost predicate AllGiven(fs: Fs, fs': Fs, f: nat) {
    forall k: nat, n: nat {:trigger Ptr(fs', k, n)} :: k != f && InFile(n) && Ptr(fs', k, n) != 0 ==> Given(fs, f, n == INDIRECT, Ptr(fs', k, n))
  }

  // The structures of the files other than f hold the same pointers, direct and indirect, each
  // once, wherever.
  ghost predicate SamePointers(fs: Fs, fs': Fs, f: nat) {
    && AllGiven(fs, fs', f) && AllGiven(fs', fs, f)
    && forall k: nat, n: nat, l: nat, m: nat {:trigger Ptr(fs', k, n), Ptr(fs', l, m)} ::
         k != f && l != f && InFile(n) && InFile(m) && Ptr(fs', k, n) != 0 && Ptr(fs', k, n) == Ptr(fs', l, m) ==> k == l && n == m
  }

  // Their sizes are not negative, and no pointer is past them.
  ghost predicate Covered(fs: Fs, f: nat) {
    forall k: nat :: k < |fs.files| && k != f ==>
      fs.files[k].size >= 0 && forall n: nat :: n < MAXBLOCKS && n * BLKSIZE >= fs.files[k].size ==> Ptr(fs, k, n) == 0
  }

  // Two such file systems.
  ghost predicate Rewritten(fs: Fs, fs': Fs, f: nat) {
    && fs'.blocks == fs.blocks && fs'.free == fs.free && |fs'.files| == |fs.files| && f < |fs.files| && fs'.files[f] == fs.files[f]
    && forall k :: 0 <= k < |fs.files| ==> |fs'.files[k].direct| == NDIRECT
  }

  lemma SameKeys(fs: Fs, owner: Owners, fs': Fs, owner': Owners, b: U32)
    requires Inv(fs, owner) && Inv(fs', owner') && fs'.free == fs.free && fs'.blocks == fs.blocks
    ensures b in owner <==> b in owner'
  {
    if b in owner { assert !fs.free[b]; }
    if b in owner' { assert !fs.free[b]; }
  }

  // Pointers in structures of one come from structures of the other.
  lemma PointerGiven(fs: Fs, owner: Owners, fs': Fs, owner': Owners, f: nat, k: nat, n: nat)
    requires Inv(fs, owner) && Inv(fs', owner') && Rewritten(fs, fs', f) && k != f && InFile(n) && Ptr(fs', k, n) != 0
    ensures Given(fs, f, n == INDIRECT, Ptr(fs', k, n))
  {
    var p := Ptr(fs', k, n);
    SameKeys(fs, owner, fs', owner', p);
    assert owner'[p] == (k, n) && Ptr(fs, owner[p].0, owner[p].1) == p;
    var (l, m) := owner[p];
    SlotKind(fs, owner, l, m);
    SlotKind(fs', owner', k, n);
    if l == f { assert Ptr(fs', f, m) == p; }
    if NDIRECT <= m < MAXBLOCKS { TableElsewhere(fs, owner, fs', owner', f, l, m); }
  }

  // Only indirect pointers lead to tables.
  lemma SlotKind(fs: Fs, owner: Owners, k: nat, n: nat)
    requires Inv(fs, owner) && Ptr(fs, k, n) != 0
    ensures k < |fs.files| && Ptr(fs, k, n) < |fs.blocks| && n <= INDIRECT
    ensures if n == INDIRECT then IsTable(fs.blocks[Ptr(fs, k, n)]) else IsData(fs.blocks[Ptr(fs, k, n)])
    ensures NDIRECT <= n < MAXBLOCKS ==> Ptr(fs, k, INDIRECT) != 0
  {
    assert Ptr(fs, k, n) in owner;
    if n == INDIRECT { assert Ptr(fs, k, INDIRECT) == fs.files[k].indirect; }
  }

  // A pointer in a table of one is in that table in the other.
  lemma TableElsewhere(fs: Fs, owner: Owners, fs': Fs, owner': Owners, f: nat, l: nat, m: nat)
    requires Inv(fs, owner) && Inv(fs', owner') && Rewritten(fs, fs', f) && NDIRECT <= m < MAXBLOCKS && Ptr(fs, l, m) != 0
    ensures Ptr(fs, l, m) in owner' && owner'[Ptr(fs, l, m)].1 == m
  {
    SlotKind(fs, owner, l, m);
    var t := Ptr(fs, l, INDIRECT);
    SlotKind(fs, owner, l, INDIRECT);
    SameKeys(fs, owner, fs', owner', t);
    assert Ptr(fs', owner'[t].0, owner'[t].1) == t;
    SlotKind(fs', owner', owner'[t].0, owner'[t].1);
    assert Ptr(fs', owner'[t].0, m) == Ptr(fs, l, m);
  }

  lemma GoodSame(fs: Fs, fs': Fs, f: nat)
    requires Good(fs) && Good(fs') && Rewritten(fs, fs', f)
    ensures SamePointers(fs, fs', f) && Covered(fs', f)
  {
    var owner: Owners :| Inv(fs, owner);
    var owner': Owners :| Inv(fs', owner');
    assert Rewritten(fs', fs, f);
    forall k: nat, n: nat | k != f && InFile(n) && Ptr(fs', k, n) != 0 ensures Given(fs, f, n == INDIRECT, Ptr(fs', k, n)) {
      PointerGiven(fs, owner, fs', owner', f, k, n);
    }
    forall k: nat, n: nat | k != f && InFile(n) && Ptr(fs, k, n) != 0 ensures Given(fs', f, n == INDIRECT, Ptr(fs, k, n)) {
      PointerGiven(fs', owner', fs, owner, f, k, n);
    }
    OwnershipMeans(fs');
  }

  // ---- Conversely ----

  // Where a pointer of one is in the other: the same kind of slot.
  lemma Counterpart(fs: Fs, fs': Fs, f: nat, k: nat, n: nat) returns (x: nat, y: nat)
    requires Rewritten(fs, fs', f) && AllGiven(fs, fs', f) && (forall i :: 0 <= i < |fs.files| ==> |fs.files[i].direct| == NDIRECT) && Ptr(fs', k, n) != 0
    ensures Ptr(fs, x, y) == Ptr(fs', k, n) && (x == f <==> k == f)
    ensures if k == f then y == n else if InFile(n) then InFile(y) && (y == INDIRECT <==> n == INDIRECT) else y == n && Ptr(fs, x, INDIRECT) == Ptr(fs', k, INDIRECT) != 0
  {
    if k == f {
      x, y := f, n;
    } else if InFile(n) {
      x, y :| x != f && InFile(y) && (y == INDIRECT) == (n == INDIRECT) && Ptr(fs, x, y) == Ptr(fs', k, n);
    } else {
      assert Ptr(fs', k, INDIRECT) == fs'.files[k].indirect != 0;
      var l: nat, m: nat :| l != f && InFile(m) && m == INDIRECT && Ptr(fs, l, m) == Ptr(fs', k, INDIRECT);
      x, y := l, n;
    }
  }

  lemma OneSlot(fs: Fs, fs': Fs, f: nat, k: nat, n: nat, l: nat, m: nat)
    requires Good(fs) && Rewritten(fs, fs', f) && SamePointers(fs, fs', f) && Ptr(fs', k, n) != 0 && Ptr(fs', k, n) == Ptr(fs', l, m)
    ensures k == l && n == m
  {
    OwnershipMeans(fs);
    var x, y := Counterpart(fs, fs', f, k, n);
    var z, w := Counterpart(fs, fs', f, l, m);
    assert Ptr(fs, x, y) == Ptr(fs, z, w);
    assert x == z && y == w;
  }

  lemma SlotOfOwned(fs: Fs, owner: Owners, fs': Fs, f: nat, b: U32)
    requires Inv(fs, owner) && Rewritten(fs, fs', f) && SamePointers(fs, fs', f) && b in owner
    ensures var (k, n) := NewSlot(fs', b); Ptr(fs', k, n) == b
  {
    assert Ptr(fs, owner[b].0, owner[b].1) == b;
    assert Rewritten(fs', fs, f);
    var x, y := Counterpart(fs', fs, f, owner[b].0, owner[b].1);
    assert Ptr(fs', x, y) == b;
  }

  lemma OwnedOfSlot(fs: Fs, owner: Owners, fs': Fs, f: nat, k: nat, n: nat)
    requires Inv(fs, owner) && Rewritten(fs, fs', f) && SamePointers(fs, fs', f) && Ptr(fs', k, n) != 0
    ensures Ptr(fs', k, n) in owner && NewSlot(fs', Ptr(fs', k, n)) == (k, n)
  {
    var x, y := Counterpart(fs, fs', f, k, n);
    var b := Ptr(fs', k, n);
    assert Ptr(fs, x, y) in owner;
    SlotOfOwned(fs, owner, fs', f, b);
    OneSlot(fs, fs', f, k, n, NewSlot(fs', b).0, NewSlot(fs', b).1);
  }

  lemma SameGood(fs: Fs, fs': Fs, f: nat)
    requires Good(fs) && Rewritten(fs, fs', f) && SamePointers(fs, fs', f) && Covered(fs', f)
    ensures Good(fs')
  {
    var owner: Owners :| Inv(fs, owner);
    var owner': Owners := map b: U32 | b in owner :: NewSlot(fs', b);
    forall b: U32 | b in owner' ensures Ptr(fs', owner'[b].0, owner'[b].1) == b { SlotOfOwned(fs, owner, fs', f, b); }
    forall k: nat, n: nat | Ptr(fs', k, n) != 0 ensures Ptr(fs', k, n) in owner' && owner'[Ptr(fs', k, n)] == (k, n) {
      OwnedOfSlot(fs, owner, fs', f, k, n);
    }
    SameOwned(fs, owner, fs', owner');
    SameShaped(fs, owner, fs', f);
    SameSized(fs, fs', f);
    assert Inv(fs', owner');
  }

  lemma SameOwned(fs: Fs, owner: Owners, fs': Fs, owner': Owners)
    requires Owned(fs, owner) && fs'.free == fs.free && |fs'.blocks| == |fs.blocks| && owner'.Keys == owner.Keys
    requires forall b: U32 :: b in owner' ==> Ptr(fs', owner'[b].0, owner'[b].1) == b
    requires forall k: nat, n: nat :: Ptr(fs', k, n) != 0 ==> Ptr(fs', k, n) in owner' && owner'[Ptr(fs', k, n)] == (k, n)
    ensures Owned(fs', owner')
  {
    assert forall b: U32 :: b in owner' <==> b in owner.Keys;
  }

  ghost function NewSlot(fs: Fs, b: U32): (nat, nat) {
    if exists k: nat, n: nat :: Ptr(fs, k, n) == b then var k: nat, n: nat :| Ptr(fs, k, n) == b; (k, n) else (0, 0)
  }

  lemma SameSized(fs: Fs, fs': Fs, f: nat)
    requires Sized(fs) && Rewritten(fs, fs', f) && Covered(fs', f)
    ensures Sized(fs')
  {}

  lemma SameShaped(fs: Fs, owner: Owners, fs': Fs, f: nat)
    requires Inv(fs, owner) && Rewritten(fs, fs', f) && SamePointers(fs, fs', f) && Covered(fs', f)
    ensures Shaped(fs')
  {
    forall k: nat, n: nat | Ptr(fs', k, n) != 0 && n <= INDIRECT
      ensures Ptr(fs', k, n) < |fs.blocks| && if n == INDIRECT then IsTable(fs.blocks[Ptr(fs', k, n)]) else IsData(fs.blocks[Ptr(fs', k, n)])
    {
      var x, y := Counterpart(fs, fs', f, k, n);
      SlotKind(fs, owner, x, y);
    }
    forall k: nat | k < |fs'.files| && fs'.files[k].indirect != 0 ensures Ptr(fs', k, INDIRECT) == fs'.files[k].indirect {}
    forall n: nat | n < MAXBLOCKS && n * BLKSIZE >= fs'.files[f].size ensures Ptr(fs', f, n) == 0 { assert Ptr(fs', f, n) == Ptr(fs, f, n); }
  }

  // Putting other structures in place of those there, but for one file's, keeps every block
  // owned once if and only if they hold the same pointers, each once, and none past a size.
  lemma RewrittenExactly(fs: Fs, fs': Fs, f: nat)
    requires Good(fs) && Rewritten(fs, fs', f)
    ensures Good(fs') <==> SamePointers(fs, fs', f) && Covered(fs', f)
  {
    if Good(fs') { GoodSame(fs, fs', f); }
    if SamePointers(fs, fs', f) && Covered(fs', f) { SameGood(fs, fs', f); }
  }

  // ---- Writing to a file that has structures in its blocks ----

  // Block m of a file after `data` is written at `offset` in it.
  function Overlaid(bytes: seq<Byte>, m: nat, data: seq<Byte>, offset: nat): (r: seq<Byte>)
    requires |bytes| == BLKSIZE
    ensures |r| == BLKSIZE
  {
    seq(BLKSIZE, x requires 0 <= x < BLKSIZE =>
      if offset <= m * BLKSIZE + x < offset + |data| then data[m * BLKSIZE + x - offset] else bytes[x])
  }

  ghost predicate HostedBy(fs: Fs, homes: seq<Home>, k: nat, f: nat)
    requires k < |homes|
  {
    homes[k].Slot? && exists m: nat :: Hosted(fs, k, homes[k], f, m)
  }

  // File k's structure, as the data written to file f spells it where it is in f's blocks.
  ghost function Respelled(fs: Fs, homes: seq<Home>, f: nat, data: seq<Byte>, offset: nat, k: nat): File
    requires k < |homes| == |fs.files|
  {
    if HostedBy(fs, homes, k, f) && Sits(fs.blocks, homes[k]) then
      var m: nat :| Hosted(fs, k, homes[k], f, m);
      FieldsAt(Overlaid(fs.blocks[homes[k].b].bytes, m, data, offset), homes[k].j)
    else fs.files[k]
  }

  // The file system with the structures as the data written spells them.
  ghost function Rewrites(fs: Fs, homes: seq<Home>, f: nat, data: seq<Byte>, offset: nat): (r: Fs)
    requires |homes| == |fs.files|
    ensures |r.files| == |fs.files| && r.blocks == fs.blocks && r.free == fs.free
    ensures forall k :: 0 <= k < |homes| ==> r.files[k] == Respelled(fs, homes, f, data, offset, k)
  {
    fs.(files := seq(|homes|, k requires 0 <= k < |homes| => Respelled(fs, homes, f, data, offset, k)))
  }

  lemma OverlaidBlock(fs: Fs, fs': Fs, f: nat, m: nat, b: nat, data: seq<Byte>, offset: nat)
    requires m < MAXBLOCKS && 0 < b < |fs.blocks| && IsData(fs.blocks[b]) && Ptr(fs, f, m) == b
    requires b < |fs'.blocks| && IsData(fs'.blocks[b]) && Ptr(fs', f, m) == b
    requires Has(fs', f, offset, data) && KeptOutside(fs, fs', f, offset, offset + |data|)
    ensures fs'.blocks[b].bytes == Overlaid(fs.blocks[b].bytes, m, data, offset)
  {
    var r := Overlaid(fs.blocks[b].bytes, m, data, offset);
    forall x: nat | x < BLKSIZE ensures fs'.blocks[b].bytes[x] == r[x] {
      assert ByteAt(fs', f, m, x) == Some(fs'.blocks[b].bytes[x]) && ByteAt(fs, f, m, x) == Some(fs.blocks[b].bytes[x]);
    }
  }

  // What stands at the place of another structure after a write that succeeds.
  lemma RespelledHere(disk: Disk, homes: seq<Home>, disk': Disk, fs': Fs, f: nat, g: nat, m: nat, data: seq<Byte>, offset: nat, k: nat)
    requires Sound(disk, homes) && f < |homes| && Kept(Seen(disk, homes), disk.root, disk', fs', f, homes[f], g, m)
    requires Has(fs', f, offset, data) && KeptOutside(Seen(disk, homes), fs', f, offset, offset + |data|)
    requires k < |homes| && k != f && HostedBy(Seen(disk, homes), homes, k, f)
    ensures FileIn(disk', homes[k]) == Respelled(Seen(disk, homes), homes, f, data, offset, k) && Fits(FileIn(disk', homes[k]))
  {
    var fs := Seen(disk, homes);
    var m0: nat :| Hosted(fs, k, homes[k], f, m0);
    HostBusy(fs, k, homes[k], f, m0);
    HostBusy(fs', k, homes[k], f, m0);
    OwnershipMeans(fs);
    forall m1: nat | Hosted(fs, k, homes[k], f, m1) ensures m1 == m0 { assert Ptr(fs, f, m1) == Ptr(fs, f, m0); }
    OverlaidBlock(fs, fs', f, m0, homes[k].b, data, offset);
    assert homes[k] != homes[f];
    AlikeFields(fs'.blocks, disk'.blocks, homes[f], homes[k]);
    Spells(disk'.blocks[homes[k].b].bytes, homes[k].j);
  }

  lemma UnspelledHere(disk: Disk, homes: seq<Home>, disk': Disk, fs': Fs, f: nat, g: nat, m: nat, data: seq<Byte>, offset: nat, k: nat)
    requires Sound(disk, homes) && f < |homes| && Kept(Seen(disk, homes), disk.root, disk', fs', f, homes[f], g, m)
    requires KeptOutside(Seen(disk, homes), fs', f, offset, offset + |data|)
    requires k < |homes| && k != f && !HostedBy(Seen(disk, homes), homes, k, f)
    ensures FileIn(disk', homes[k]) == Seen(disk, homes).files[k]
  {
    var fs := Seen(disk, homes);
    assert homes[k] != homes[f];
    if homes[k].Slot? {
      assert Lodged(fs, homes, k);
      var g1, m1 :| Hosted(fs, k, homes[k], g1, m1);
      forall x: nat | InFields(homes[k].j, x) ensures ByteAt(fs', g1, m1, x) == ByteAt(fs, g1, m1, x) { HostByte(fs, k, homes[k], g1, m1, x); }
      ReadOfOther(disk, homes, disk', fs', f, g, m, k, g1, m1);
    }
  }

  // So after the write the structures are those, but for the file's own.
  lemma StructuresAfter(disk: Disk, homes: seq<Home>, disk': Disk, fs': Fs, f: nat, g: nat, m: nat, data: seq<Byte>, offset: nat)
    requires Sound(disk, homes) && f < |homes| && Kept(Seen(disk, homes), disk.root, disk', fs', f, homes[f], g, m)
    requires Has(fs', f, offset, data) && KeptOutside(Seen(disk, homes), fs', f, offset, offset + |data|)
    ensures forall k: nat :: k < |homes| && k != f ==> Seen(disk', homes).files[k] == Rewrites(Seen(disk, homes), homes, f, data, offset).files[k]
    ensures forall k: nat :: k < |homes| ==> Fits(Seen(disk', homes).files[k])
    ensures Seen(disk', homes).files[f] == fs'.files[f]
  {
    forall k: nat | k < |homes| && k != f
      ensures FileIn(disk', homes[k]) == Respelled(Seen(disk, homes), homes, f, data, offset, k) && Fits(FileIn(disk', homes[k]))
    {
      if HostedBy(Seen(disk, homes), homes, k, f) {
        RespelledHere(disk, homes, disk', fs', f, g, m, data, offset, k);
      } else {
        UnspelledHere(disk, homes, disk', fs', f, g, m, data, offset, k);
      }
    }
  }

  // ---- What a caller can see beforehand ----

  // The state before the write and the structures written decide.
  lemma SameBefore(fs: Fs, fs1: Fs, before: Fs, mid: Fs, f: nat)
    requires Good(fs) && OnlyFile(fs, fs1, f) && f < |fs.files| && Rewritten(fs1, mid, f)
    requires |before.files| == |fs.files| && before.blocks == fs.blocks && forall k: nat :: k < |fs.files| && k != f ==> before.files[k] == mid.files[k]
    ensures SamePointers(fs1, mid, f) && Covered(mid, f) <==> SamePointers(fs, before, f) && Covered(before, f)
  {
    forall k: nat, n: nat | k != f && InFile(n) ensures Ptr(mid, k, n) == Ptr(before, k, n) {}
    GivenSame(fs, fs1, f);
    GivenSame(before, mid, f);
    SamePointersSame(fs, fs1, before, mid, f);
    if SamePointers(fs, before, f) {
      forall k: nat, n: nat | k != f && k < |fs.files| && n < MAXBLOCKS ensures Ptr(mid, k, n) == Ptr(before, k, n) {
        TableSame(fs, fs1, before, mid, f, k, n);
      }
      CoveredSame(before, mid, f);
    }
  }

  lemma GivenSame(a: Fs, b: Fs, f: nat)
    requires forall k: nat, n: nat :: k != f && InFile(n) ==> Ptr(a, k, n) == Ptr(b, k, n)
    ensures forall indirect: bool, p: U32 :: Given(a, f, indirect, p) <==> Given(b, f, indirect, p)
  {
    forall indirect: bool, p: U32 | true ensures Given(a, f, indirect, p) <==> Given(b, f, indirect, p) {
      if Given(a, f, indirect, p) {
        var k: nat, n: nat :| k != f && InFile(n) && (n == INDIRECT) == indirect && Ptr(a, k, n) == p;
        assert Ptr(b, k, n) == p;
      }
      if Given(b, f, indirect, p) {
        var k: nat, n: nat :| k != f && InFile(n) && (n == INDIRECT) == indirect && Ptr(b, k, n) == p;
        assert Ptr(a, k, n) == p;
      }
    }
  }

  lemma SamePointersSame(a: Fs, a1: Fs, b: Fs, b1: Fs, f: nat)
    requires forall k: nat, n: nat :: k != f && InFile(n) ==> Ptr(a, k, n) == Ptr(a1, k, n)
    requires forall k: nat, n: nat :: k != f && InFile(n) ==> Ptr(b, k, n) == Ptr(b1, k, n)
    requires forall indirect: bool, p: U32 :: Given(a, f, indirect, p) <==> Given(a1, f, indirect, p)
    requires forall indirect: bool, p: U32 :: Given(b, f, indirect, p) <==> Given(b1, f, indirect, p)
    ensures SamePointers(a, b, f) <==> SamePointers(a1, b1, f)
  {}

  // A table that was some file's before is as it was.
  lemma TableSame(fs: Fs, fs1: Fs, before: Fs, mid: Fs, f: nat, k: nat, n: nat)
    requires Good(fs) && OnlyFile(fs, fs1, f) && Rewritten(fs1, mid, f) && SamePointers(fs, before, f) && before.blocks == fs.blocks
    requires k < |mid.files| == |before.files| && k != f && before.files[k] == mid.files[k] && n < MAXBLOCKS
    ensures Ptr(mid, k, n) == Ptr(before, k, n)
  {
    if n >= NDIRECT && before.files[k].indirect != 0 {
      var t := before.files[k].indirect;
      assert Ptr(before, k, INDIRECT) == t && Given(fs, f, true, t);
      var x: nat, y: nat :| x != f && InFile(y) && y == INDIRECT && Ptr(fs, x, y) == t;
      assert Ptr(fs1, x, INDIRECT) == t && Ptr(fs1, x, n) == Ptr(fs, x, n);
      GoodShaped(fs);
    }
  }

  lemma CoveredSame(a: Fs, b: Fs, f: nat)
    requires |a.files| == |b.files| && forall k: nat :: k < |a.files| && k != f ==> a.files[k] == b.files[k]
    requires forall k: nat, n: nat :: k != f && k < |a.files| && n < MAXBLOCKS ==> Ptr(b, k, n) == Ptr(a, k, n)
    ensures Covered(a, f) <==> Covered(b, f)
  {}

  // A block in use has an owner.
  lemma OwnerOf(fs: Fs, b: nat) returns (x: nat, y: nat)
    requires Good(fs) && b < |fs.blocks| == |fs.free| && Reserved(|fs.blocks|) <= b && !fs.free[b]
    ensures Ptr(fs, x, y) == b && (IsData(fs.blocks[b]) ==> y < MAXBLOCKS)
  {
    var owner: Owners :| Inv(fs, owner);
    var p: U32 := b;
    assert p in owner;
    x, y := owner[p].0, owner[p].1;
    SlotKind(fs, owner, x, y);
  }

  // No structure has come to lie in a block of its own file.
  lemma NotItsOwn(fs1: Fs, mid: Fs, homes: seq<Home>, f: nat, k: nat, g: nat, m: nat)
    requires Good(fs1) && Good(mid) && Rewritten(fs1, mid, f) && k < |homes| == |fs1.files| && homes[k].Slot? && Hosted(fs1, k, homes[k], g, m)
    requires k != f && g != f ==> mid.files[k] == fs1.files[k]
    ensures forall y: nat :: Ptr(mid, k, y) != homes[k].b
  {
    OwnershipMeans(fs1);
    OwnershipMeans(mid);
    forall y: nat | true ensures Ptr(mid, k, y) != homes[k].b {
      if g == f { assert Ptr(mid, f, m) == homes[k].b; }
      if k == f || g != f { assert Ptr(mid, k, y) == Ptr(fs1, k, y); }
    }
  }

  lemma StillLodged(fs1: Fs, mid: Fs, homes: seq<Home>, f: nat, k: nat, g: nat, m: nat)
    requires Good(fs1) && Good(mid) && Rewritten(fs1, mid, f) && k < |homes| == |fs1.files| && homes[k].Slot? && Hosted(fs1, k, homes[k], g, m)
    requires k != f && g != f ==> mid.files[k] == fs1.files[k]
    ensures Lodged(mid, homes, k)
  {
    HostBusy(fs1, k, homes[k], g, m);
    OwnershipMeans(fs1);
    var x, y := OwnerOf(mid, homes[k].b);
    NotItsOwn(fs1, mid, homes, f, k, g, m);
    assert Hosted(mid, k, homes[k], x, y);
  }

  // All the structures are lodged after a write if they are well owned.
  lemma AllStillLodged(disk: Disk, homes: seq<Home>, disk': Disk, fs': Fs, f: nat, g: nat, m: nat, mid: Fs)
    requires Sound(disk, homes) && f < |homes| && Kept(Seen(disk, homes), disk.root, disk', fs', f, homes[f], g, m)
    requires Good(mid) && Rewritten(fs', mid, f)
    requires forall k: nat :: k < |homes| && k != f && !HostedBy(Seen(disk, homes), homes, k, f) ==> mid.files[k] == Seen(disk, homes).files[k]
    ensures AllLodged(mid, homes)
  {
    var fs := Seen(disk, homes);
    forall k: nat | k < |homes| ensures Lodged(mid, homes, k) {
      assert Lodged(fs, homes, k);
      var g1: nat, m1: nat :| Hosted(fs, k, homes[k], g1, m1);
      if homes[k].Slot? {
        assert Hosted(fs', k, homes[k], g1, m1);
        if k != f && g1 != f { OneHostOnly(fs, homes, k, g1, m1, f); }
        StillLodged(fs', mid, homes, f, k, g1, m1);
      } else {
        assert Hosted(mid, k, homes[k], g1, m1);
      }
    }
  }

  lemma OneHostOnly(fs: Fs, homes: seq<Home>, k: nat, g: nat, m: nat, f: nat)
    requires Good(fs) && k < |homes| && homes[k].Slot? && Hosted(fs, k, homes[k], g, m) && g != f
    ensures !HostedBy(fs, homes, k, f)
  {
    OwnershipMeans(fs);
    forall m1: nat | true ensures !Hosted(fs, k, homes[k], f, m1) { assert Ptr(fs, f, m1) != Ptr(fs, g, m); }
  }

  lemma AlikeLodged(fs: Fs, blocks: seq<Block>, h: Home, homes: seq<Home>)
    requires Alike(fs.blocks, blocks, h) && AllLodged(fs, homes)
    ensures AllLodged(fs.(blocks := blocks), homes)
  {
    AlikePtrs(fs, blocks, h);
    var fs' := fs.(blocks := blocks);
    forall k: nat | k < |homes| ensures Lodged(fs', homes, k) {
      assert Lodged(fs, homes, k);
      var g: nat, m: nat :| Hosted(fs, k, homes[k], g, m);
      assert Hosted(fs', k, homes[k], g, m);
    }
  }

  lemma AlikeBack(fs: Fs, blocks: seq<Block>, h: Home)
    requires Alike(fs.blocks, blocks, h) && Good(fs.(blocks := blocks))
    ensures Good(fs)
  {
    AlikeGood(fs.(blocks := blocks), fs.blocks, h);
    assert fs.(blocks := blocks).(blocks := fs.blocks) == fs;
  }

  // A write that succeeds leaves the file system sound if and only if the structures it spells
  // hold, each once, the pointers of those it spells over, and none past a size.
  lemma WriteKeepsExactly(disk: Disk, homes: seq<Home>, f: nat, data: seq<Byte>, offset: nat)
    requires Sound(disk, homes) && f < |homes| && offset + |data| < 0x8000_0000
    ensures Ready(disk) && FileIn(disk, homes[f]).size >= 0
    ensures var r, fs := WriteIn(disk, homes[f], data, offset), Seen(disk, homes);
      r.Done? ==>
        var fs' := Rewrites(fs, homes, f, data, offset);
        Sound(r.disk, homes) <==> SamePointers(fs, fs', f) && Covered(fs', f)
  {
    var fs := Seen(disk, homes);
    var g, m := SoundBegins(disk, homes, f);
    GoodSized(fs);
    WriteEnds(disk, fs, f, homes[f], g, m, data, offset);
    WriteCorrect(fs, f, data, offset);
    var r, o := WriteIn(disk, homes[f], data, offset), Write(fs, f, data, offset);
    if r.Done? { WrittenExactly(disk, homes, r.disk, o.fs, f, g, m, data, offset); }
  }

  lemma WrittenExactly(disk: Disk, homes: seq<Home>, disk': Disk, fs': Fs, f: nat, g: nat, m: nat, data: seq<Byte>, offset: nat)
    requires Sound(disk, homes) && f < |homes| && Kept(Seen(disk, homes), disk.root, disk', fs', f, homes[f], g, m)
    requires Has(fs', f, offset, data) && KeptOutside(Seen(disk, homes), fs', f, offset, offset + |data|)
    ensures var fs := Seen(disk, homes); var before := Rewrites(fs, homes, f, data, offset);
      Sound(disk', homes) <==> SamePointers(fs, before, f) && Covered(before, f)
  {
    var fs, fs2 := Seen(disk, homes), Seen(disk', homes);
    var before, mid := Rewrites(fs, homes, f, data, offset), fs'.(files := fs2.files);
    StructuresAfter(disk, homes, disk', fs', f, g, m, data, offset);
    assert Rewritten(fs', mid, f) && fs2 == mid.(blocks := disk'.blocks);
    RewrittenExactly(fs', mid, f);
    SameBefore(fs, fs', before, mid, f);
    if Good(mid) {
      AlikeGood(mid, disk'.blocks, homes[f]);
      AllStillLodged(disk, homes, disk', fs', f, g, m, mid);
      AlikeLodged(mid, disk'.blocks, homes[f], homes);
    } else if Good(fs2) {
      AlikeBack(mid, disk'.blocks, homes[f]);
    }
  }
}
