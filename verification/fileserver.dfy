/** The block allocator and file operations of fs/fs.c as the server runs them, each proved
    against the file-system model. */
module FileServer {
  import opened Words
  import opened FileSystem

  // How a call ended: normally, with an error code, or in a panic.
  datatype Status = Done | Failed(code: int) | Dead

  ghost predicate Matches<T>(o: Outcome<T>, status: Status, fs: Fs) {
    match o
    case Ok(fs1, _) => status == Done && fs == fs1
    case Err(fs1, code) => status == Failed(code) && fs == fs1
    case Panic => status == Dead
  }

  lemma FirstFreeFrom(free: seq<bool>, i: nat)
    requires i <= |free| && forall j :: 0 <= j < i ==> !free[j]
    ensures FirstFree(free, 0) == FirstFree(free, i)
  {
    var a, b := FirstFree(free, 0), FirstFree(free, i);
    if a.Some? && b.Some? {
      if a.value < b.value { assert false; }
    }
  }

  lemma PrependTwice(a: seq<Byte>, b: seq<Byte>, r: Outcome<seq<Byte>>)
    ensures Prepend(a, Prepend(b, r)) == Prepend(a + b, r)
  {
    if r.Ok? { assert a + (b + r.value) == a + b + r.value; }
  }

  // After a chunk that does not end the transfer, the next one starts a block.
  lemma NextBlock(pos: nat, bn: nat)
    requires pos % BLKSIZE + bn == BLKSIZE
    ensures (pos + bn) / BLKSIZE == pos / BLKSIZE + 1 && (pos + bn) % BLKSIZE == 0
  {
    assert pos + bn == (pos / BLKSIZE + 1) * BLKSIZE;
  }

  function ReadAt(fs: Fs, f: nat, pos: nat, end: nat): Outcome<seq<Byte>>
    requires f < |fs.files| && |fs.free| == |fs.blocks| < 0x10_0000 && pos <= end
  {
    ReadFrom(fs, f, pos / BLKSIZE, pos % BLKSIZE, end - pos)
  }

  function WriteAt(fs: Fs, f: nat, data: seq<Byte>, pos: nat): Outcome<nat>
    requires f < |fs.files| && |fs.free| == |fs.blocks| < 0x10_0000
  {
    WriteFrom(fs, f, pos / BLKSIZE, pos % BLKSIZE, data)
  }

  lemma IndirectInRange(fs: Fs, f: nat)
    requires Good(fs) && f < |fs.files|
    ensures Sized(fs) && (fs.files[f].indirect != 0 ==> fs.files[f].indirect < |fs.free|)
  {
    var owner: Owners :| Inv(fs, owner);
    assert Ptr(fs, f, INDIRECT) == fs.files[f].indirect;
  }

  // What one turn of the read loop leaves to do.
  lemma ReadTurn(fs: Fs, fs1: Fs, b: U32, f: nat, pos: nat, end: nat, bn: nat)
    requires f < |fs.files| && |fs.free| == |fs.blocks| < 0x10_0000 && pos < end && bn == Min(BLKSIZE - pos % BLKSIZE, end - pos)
    requires GetBlock(fs, f, pos / BLKSIZE) == Ok(fs1, b) && Usable(fs1, f, b)
    ensures ReadAt(fs, f, pos, end) ==
      Prepend(fs1.blocks[b].bytes[pos % BLKSIZE..pos % BLKSIZE + bn], ReadAt(fs1, f, pos + bn, end))
  {
    if bn < end - pos {
      NextBlock(pos, bn);
    } else {
      assert ReadFrom(fs1, f, pos / BLKSIZE + 1, 0, end - pos - bn) == Ok(fs1, []) == ReadAt(fs1, f, pos + bn, end);
    }
  }

  lemma WriteTurn(fs: Fs, fs1: Fs, b: U32, f: nat, data: seq<Byte>, pos: nat, bn: nat)
    requires f < |fs.files| && |fs.free| == |fs.blocks| < 0x10_0000 && data != [] && bn == Min(BLKSIZE - pos % BLKSIZE, |data|)
    requires GetBlock(fs, f, pos / BLKSIZE) == Ok(fs1, b) && Usable(fs1, f, b)
    ensures WriteAt(fs, f, data, pos) == WriteAt(PutBytes(fs1, b, pos % BLKSIZE, data[..bn]), f, data[bn..], pos + bn)
  {
    var fs2 := PutBytes(fs1, b, pos % BLKSIZE, data[..bn]);
    if bn < |data| {
      NextBlock(pos, bn);
    } else {
      assert data[bn..] == [];
      assert WriteFrom(fs2, f, pos / BLKSIZE + 1, 0, []) == Ok(fs2, 0) == WriteAt(fs2, f, [], pos + bn);
    }
  }

  class Server {
    var free: seq<bool>
    var blocks: seq<Block>
    var files: seq<File>

    ghost function State(): Fs
      reads this
    {
      Fs(free, blocks, files)
    }

    ghost predicate Valid()
      reads this
    {
      Sized(State())
    }

    // alloc_block
    method AllocBlock() returns (r: Option<nat>)
      requires |free| < 0x10_0000
      modifies this`free
      ensures r == FirstFree(old(free), 0)
      ensures free == if r.Some? then old(free)[r.value := false] else old(free)
    {
      var i := 0;
      while i < |free|
        invariant i <= |free| && forall j :: 0 <= j < i ==> !free[j]
        invariant free == old(free)
      {
        if free[i] {
          FirstFreeFrom(free, i);
          free := free[i := false];
          return Some(i);
        }
        i := i + 1;
      }
      FirstFreeFrom(free, |free|);
      return None;
    }

    // file_block_walk; the slot's address is the pair (f, n).
    method FileBlockWalk(f: nat, n: nat, alloc: bool) returns (status: Status)
      requires f < |files| && |free| == |blocks| < 0x10_0000
      modifies this
      ensures Matches(Walk(old(State()), f, n, alloc), status, State())
    {
      if n >= MAXBLOCKS { return Failed(-E_INVAL); }
      if n < NDIRECT { return Done; }
      if files[f].indirect == 0 {
        if !alloc { return Failed(-E_NOT_FOUND); }
        var b := AllocBlock();
        if b.None? { return Failed(-E_NO_DISK); }
        files := files[f := files[f].(indirect := b.value)];
        if b.value == 0 { return Dead; }
        blocks := blocks[b.value := ZeroTable()];
      }
      return Done;
    }

    // file_get_block
    method FileGetBlock(f: nat, n: nat) returns (status: Status, b: U32)
      requires f < |files| && |free| == |blocks| < 0x10_0000 && Walks(State(), f, n)
      modifies this
      ensures Matches(GetBlock(old(State()), f, n), status, State())
      ensures status.Done? ==> b == GetBlock(old(State()), f, n).value
    {
      status := FileBlockWalk(f, n, true);
      b := 0;
      if !status.Done? { return; }
      ghost var fs1 := State();
      b := Slot(f, n);
      if b == 0 {
        var got := AllocBlock();
        if got.None? { return Dead, 0; }
        b := got.value;
        if b == 0 { return Dead, 0; }
        StoreSlot(f, n, b);
        blocks := blocks[b := AsData(blocks[b])];
        assert State() == Assign(fs1, f, n, b);
      }
    }

    // *ppdiskbno
    method Slot(f: nat, n: nat) returns (p: U32)
      requires HasSlot(State(), f, n)
      ensures p == Ptr(State(), f, n)
    {
      if n < NDIRECT {
        p := files[f].direct[n];
      } else {
        p := blocks[files[f].indirect].ptrs[n - NDIRECT];
      }
    }

    // *ppdiskbno = p
    method StoreSlot(f: nat, n: nat, p: U32)
      requires HasSlot(State(), f, n)
      modifies this`files, this`blocks
      ensures State() == SetPtr(old(State()), f, n, p)
    {
      if n < NDIRECT {
        files := files[f := files[f].(direct := PutPtr(files[f].direct, n, p))];
      } else {
        var i := files[f].indirect;
        blocks := blocks[i := Table(PutPtr(blocks[i].ptrs, n - NDIRECT, p))];
      }
    }

    // One turn of file_read's loop. `good` is any property the calls keep.
    method ReadChunk(f: nat, pos: nat, end: nat, ghost good: Fs -> bool) returns (status: Status, chunk: seq<Byte>)
      requires good(State()) && f < |files| && |free| == |blocks| < 0x10_0000 && pos < end <= files[f].size
      requires BlockSteps(good, f, files[f].size)
      modifies this
      ensures !status.Done? ==> Matches(ReadAt(old(State()), f, pos, end), status, State())
      ensures status.Done? ==> good(State()) && f < |files| && |free| == |blocks| < 0x10_0000 && files[f].size == old(files)[f].size
      ensures status.Done? ==> 0 < |chunk| <= end - pos
      ensures status.Done? ==> ReadAt(old(State()), f, pos, end) == Prepend(chunk, ReadAt(State(), f, pos + |chunk|, end))
    {
      ghost var fs := State();
      assert pos == pos / BLKSIZE * BLKSIZE + pos % BLKSIZE;
      assert BlockStep(good, fs, f, pos / BLKSIZE);
      var b;
      status, b := FileGetBlock(f, pos / BLKSIZE);
      chunk := [];
      if !status.Done? { return; }
      var bn := Min(BLKSIZE - pos % BLKSIZE, end - pos);
      chunk := blocks[b].bytes[pos % BLKSIZE..pos % BLKSIZE + bn];
      ReadTurn(fs, State(), b, f, pos, end, bn);
    }

    method ReadLoop(f: nat, offset: nat, end: nat, ghost good: Fs -> bool) returns (status: Status, data: seq<Byte>)
      requires good(State()) && f < |files| && |free| == |blocks| < 0x10_0000 && offset <= end <= files[f].size
      requires BlockSteps(good, f, files[f].size)
      modifies this
      ensures Matches(ReadAt(old(State()), f, offset, end), status, State())
      ensures status.Done? ==> data == ReadAt(old(State()), f, offset, end).value
    {
      data := [];
      var pos: nat := offset;
      ghost var goal := ReadAt(State(), f, offset, end);
      assert goal == Prepend([], goal) by { if goal.Ok? { assert [] + goal.value == goal.value; } }
      while pos < end
        invariant pos <= end && good(State()) && f < |files| && |free| == |blocks| < 0x10_0000
        invariant files[f].size == old(files)[f].size
        invariant goal == Prepend(data, ReadAt(State(), f, pos, end))
      {
        var chunk;
        status, chunk := ReadChunk(f, pos, end, good);
        if !status.Done? { return; }
        PrependTwice(data, chunk, ReadAt(State(), f, pos + |chunk|, end));
        data := data + chunk;
        pos := pos + |chunk|;
      }
      assert data + [] == data;
      status := Done;
    }

    // file_read
    method FileRead(f: nat, count: nat, offset: nat) returns (status: Status, data: seq<Byte>)
      requires Good(State()) && f < |files|
      modifies this
      ensures Sized(old(State())) && Matches(Read(old(State()), f, count, offset), status, State())
      ensures status.Done? ==> data == Read(old(State()), f, count, offset).value
    {
      GoodSized(State());
      if offset >= files[f].size { return Done, []; }
      GoodSteps(f, files[f].size);
      status, data := ReadLoop(f, offset, offset + Min(count, files[f].size - offset), fs => Good(fs));
    }

    // memmove(blk + off, data, |data|)
    method StoreBytes(b: U32, off: nat, data: seq<Byte>)
      requires b < |blocks| && IsData(blocks[b]) && off + |data| <= BLKSIZE
      modifies this`blocks
      ensures State() == PutBytes(old(State()), b, off, data)
    {
      blocks := blocks[b := Data(Spliced(blocks[b].bytes, off, data))];
    }

    // One turn of file_write's loop.
    method WriteChunk(f: nat, data: seq<Byte>, pos: nat, ghost good: Fs -> bool) returns (status: Status, bn: nat)
      requires good(State()) && f < |files| && |free| == |blocks| < 0x10_0000 && data != [] && pos + |data| <= files[f].size
      requires BlockSteps(good, f, files[f].size) && PutSteps(good, f)
      modifies this
      ensures !status.Done? ==> Matches(WriteAt(old(State()), f, data, pos), status, State())
      ensures status.Done? ==> good(State()) && f < |files| && |free| == |blocks| < 0x10_0000 && files[f].size == old(files)[f].size
      ensures status.Done? ==> 0 < bn <= |data|
      ensures status.Done? ==> WriteAt(old(State()), f, data, pos) == WriteAt(State(), f, data[bn..], pos + bn)
    {
      ghost var fs := State();
      assert pos == pos / BLKSIZE * BLKSIZE + pos % BLKSIZE;
      assert BlockStep(good, fs, f, pos / BLKSIZE);
      var b;
      status, b := FileGetBlock(f, pos / BLKSIZE);
      bn := 0;
      if !status.Done? { return; }
      bn := Min(BLKSIZE - pos % BLKSIZE, |data|);
      WriteTurn(fs, State(), b, f, data, pos, bn);
      assert PutStep(good, State(), f, pos / BLKSIZE, pos % BLKSIZE, data[..bn]);
      StoreBytes(b, pos % BLKSIZE, data[..bn]);
    }

    method WriteLoop(f: nat, data: seq<Byte>, offset: nat, ghost good: Fs -> bool) returns (status: Status)
      requires good(State()) && f < |files| && |free| == |blocks| < 0x10_0000 && offset + |data| <= files[f].size
      requires BlockSteps(good, f, files[f].size) && PutSteps(good, f)
      modifies this
      ensures Matches(WriteAt(old(State()), f, data, offset), status, State())
    {
      ghost var goal := WriteAt(State(), f, data, offset);
      var pos: nat := offset;
      var rest := data;
      while rest != []
        invariant good(State()) && f < |files| && |free| == |blocks| < 0x10_0000 && pos + |rest| <= files[f].size
        invariant files[f].size == old(files)[f].size
        invariant goal == WriteAt(State(), f, rest, pos)
        decreases |rest|
      {
        var bn;
        status, bn := WriteChunk(f, rest, pos, good);
        if !status.Done? { return; }
        rest := rest[bn..];
        pos := pos + bn;
      }
      status := Done;
    }

    // file_free_block
    method FileFreeBlock(f: nat, n: nat)
      requires Good(State()) && f < |files|
      modifies this
      ensures Sized(old(State())) && State() == FreeFileBlock(old(State()), f, n)
      ensures Good(State()) && files[f].size == old(files)[f].size
    {
      ghost var fs := State();
      GoodSized(fs);
      ghost var owner: Owners :| Inv(fs, owner);
      ghost var owner0 := WalkKeeps(fs, owner, f, n, false);
      ghost var owner' := FreeBlockKeeps(fs, owner, f, n);
      assert Good(FreeFileBlock(fs, f, n));
      var status := FileBlockWalk(f, n, false);
      if status.Done? {
        var p := Slot(f, n);
        if p != 0 {
          assert p in owner;
          StoreSlot(f, n, 0);
          free := free[p := true];
        }
      }
    }

    // The loop of file_truncate_blocks.
    method FreeBlocks(f: nat, newBlocks: nat, oldBlocks: nat)
      requires Good(State()) && f < |files|
      modifies this
      ensures Sized(old(State())) && State() == FreeFrom(old(State()), f, newBlocks, oldBlocks)
      ensures Good(State()) && f < |files|
    {
      GoodSized(State());
      var bno: nat := newBlocks;
      while bno < oldBlocks
        invariant newBlocks <= bno && Good(State()) && Sized(State()) && f < |files|
        invariant FreeFrom(old(State()), f, newBlocks, oldBlocks) == FreeFrom(State(), f, bno, oldBlocks)
      {
        FileFreeBlock(f, bno);
        GoodSized(State());
        bno := bno + 1;
      }
    }

    // file_truncate_blocks
    method FileTruncateBlocks(f: nat, newsize: nat)
      requires Good(State()) && f < |files| && newsize < files[f].size
      modifies this
      ensures Sized(old(State())) && State() == Truncate(old(State()), f, newsize)
    {
      GoodSized(State());
      var oldBlocks, newBlocks := Blocks(files[f].size), Blocks(newsize);
      FreeBlocks(f, newBlocks, oldBlocks);
      IndirectInRange(State(), f);
      if newBlocks <= NDIRECT && files[f].indirect != 0 {
        var i := files[f].indirect;
        free := free[i := true];
        files := files[f := files[f].(indirect := 0)];
      }
    }

    // file_set_size, but for the flush
    method FileSetSize(f: nat, newsize: nat)
      requires Good(State()) && f < |files|
      modifies this
      ensures Sized(old(State())) && State() == SetSize(old(State()), f, newsize)
      ensures Good(State())
    {
      TruncateCorrect(State(), f, newsize);
      if files[f].size > newsize { FileTruncateBlocks(f, newsize); }
      files := files[f := files[f].(size := newsize)];
    }

    // file_write
    method FileWrite(f: nat, data: seq<Byte>, offset: nat) returns (status: Status, written: nat)
      requires Good(State()) && f < |files|
      modifies this
      ensures Sized(old(State())) && Matches(Write(old(State()), f, data, offset), status, State())
      ensures status.Done? ==> written == |data|
    {
      ghost var fs := State();
      GoodSized(fs);
      TruncateCorrect(fs, f, offset + |data|);
      if offset + |data| > files[f].size { FileSetSize(f, offset + |data|); }
      GoodSteps(f, files[f].size);
      status := WriteLoop(f, data, offset, fs => Good(fs));
      written := |data|;
    }
  }
}
