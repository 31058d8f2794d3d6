/** The file server's block cache: disk blocks mapped on demand into the server's address
    space, written back when the page-table entry's dirty bit says so. */
module BlockCache {
  import opened Mmu

  const BLKSIZE: nat := 4096
  const DISKMAP: nat := 0x1000_0000
  const DISKSIZE: nat := 0xC000_0000

  type Byte = x: nat | x < 256
  type Block = b: seq<Byte> | |b| == BLKSIZE witness seq(BLKSIZE, _ => 0)

  function Zeros(): Block { seq(BLKSIZE, _ => 0) }

  datatype Option<T> = None | Some(value: T)

  // A cached block: the page's contents and the flags of its page-table entry.
  datatype Page = Page(data: Block, flags: Flags)

  datatype Store = Store(disk: seq<Block>, cache: map<nat, Page>)

  // What fs.c has set up so far: the number of blocks the super block gives, and which
  // blocks the bitmap marks free.
  datatype Known = Known(nblocks: Option<nat>, free: Option<set<nat>>)

  function BlockNo(va: nat): nat
    requires va >= DISKMAP
  {
    (va - DISKMAP) / BLKSIZE
  }

  predicate InRegion(va: nat) { DISKMAP <= va < DISKMAP + DISKSIZE }

  function DiskAddr(b: nat): nat { DISKMAP + b * BLKSIZE }

  // sys_page_map of a page onto itself with its flags & PTE_SYSCALL.
  function SelfMap(page: Page): Page { page.(flags := page.flags.(d := false, other := false)) }

  function Dirtied(page: Page): Page { page.(flags := page.flags.(d := true)) }

  predicate Dirty(s: Store, b: nat) { b in s.cache && s.cache[b].flags.d }

  // What a program sees in block b.
  function Logical(s: Store, b: nat): Block
    requires b < |s.disk|
  {
    if b in s.cache then s.cache[b].data else s.disk[b]
  }

  function Contents(s: Store): (r: seq<Block>)
    ensures |r| == |s.disk| && forall b :: 0 <= b < |r| ==> r[b] == Logical(s, b)
  {
    seq(|s.disk|, b requires 0 <= b < |s.disk| => Logical(s, b))
  }

  // A mapped block that is not dirty is as it is on the disk.
  ghost predicate Agrees(s: Store) {
    && (forall b :: b in s.cache ==> b < |s.disk|)
    && (forall b :: b in s.cache && !s.cache[b].flags.d ==> s.cache[b].data == s.disk[b])
  }

  // ---- The operations; None is a panic ----

  // bc_pgfault: the address must be of an existing block that is in use.
  function Fault(s: Store, va: nat, known: Known): Option<Store> {
    if !InRegion(va) then None
    else
      var b := BlockNo(va);
      if (known.nblocks.Some? && b >= known.nblocks.value) || b >= |s.disk| then None
      else if known.free.Some? && b in known.free.value then None
      else Some(s.(cache := s.cache[b := SelfMap(Dirtied(Page(s.disk[b], PTE_PWU)))]))
  }

  function FlushBlock(s: Store, va: nat): Option<Store>
    requires forall b :: b in s.cache ==> b < |s.disk|
  {
    if !InRegion(va) then None
    else
      var b := BlockNo(va);
      if !Dirty(s, b) then Some(s)
      else Some(Store(s.disk[b := s.cache[b].data], s.cache[b := SelfMap(s.cache[b])]))
  }

  // A store to byte `off` of a mapped block.
  function Poke(s: Store, b: nat, off: nat, v: Byte): Store
    requires b in s.cache && off < BLKSIZE
  {
    s.(cache := s.cache[b := Dirtied(Page(PutByte(s.cache[b].data, off, v), s.cache[b].flags))])
  }

  function PutByte(data: Block, off: nat, v: Byte): Block
    requires off < BLKSIZE
  {
    data[off := v]
  }

  function Drop(s: Store, b: nat): Store { s.(cache := s.cache - {b}) }

  // flush_block of blocks i .. n - 1, at any address within each.
  function SyncFrom(s: Store, i: nat, n: nat): Store
    requires forall b :: b in s.cache ==> b < |s.disk|
    requires n <= DISKSIZE / BLKSIZE
    decreases n - i
  {
    if i >= n then s else SyncFrom(FlushBlock(s, DiskAddr(i)).value, i + 1, n)
  }

  // ---- Faulting in and flushing change no contents ----

  lemma Offset(b: nat, off: nat)
    requires b < DISKSIZE / BLKSIZE && off < BLKSIZE
    ensures InRegion(DiskAddr(b) + off) && BlockNo(DiskAddr(b) + off) == b
  {}

  lemma FaultKeeps(s: Store, va: nat, known: Known)
    requires Agrees(s) && Fault(s, va, known).Some?
    requires BlockNo(va) !in s.cache
    ensures var s' := Fault(s, va, known).value;
      && Agrees(s') && Contents(s') == Contents(s) && s'.disk == s.disk
      && s'.cache.Keys == s.cache.Keys + {BlockNo(va)} && !Dirty(s', BlockNo(va))
  {}

  // Wherever in the block the address is, afterwards the disk has the block's contents.
  lemma FlushKeeps(s: Store, va: nat)
    requires Agrees(s) && InRegion(va)
    ensures var s' := FlushBlock(s, va).value;
      && Agrees(s') && Contents(s') == Contents(s) && !Dirty(s', BlockNo(va)) && s'.cache.Keys == s.cache.Keys
      && (forall b :: 0 <= b < |s.disk| ==> s'.disk[b] == if b == BlockNo(va) then Logical(s, b) else s.disk[b])
  {}

  lemma {:induction false} SyncKeeps(s: Store, i: nat, n: nat)
    requires Agrees(s) && n <= DISKSIZE / BLKSIZE
    ensures var s' := SyncFrom(s, i, n);
      && Agrees(s') && Contents(s') == Contents(s) && s'.cache.Keys == s.cache.Keys
      && (forall b :: 0 <= b < |s.disk| ==> s'.disk[b] == if i <= b < n then Logical(s, b) else s.disk[b])
    decreases n - i
  {
    if i < n {
      Offset(i, 0);
      FlushKeeps(s, DiskAddr(i));
      SyncKeeps(FlushBlock(s, DiskAddr(i)).value, i + 1, n);
    }
  }

  lemma PokeWrites(s: Store, b: nat, off: nat, v: Byte)
    requires Agrees(s) && b in s.cache && off < BLKSIZE
    ensures Agrees(Poke(s, b, off, v))
    ensures Contents(Poke(s, b, off, v)) == Contents(s)[b := PutByte(Contents(s)[b], off, v)]
  {}

  // A page may be dropped without loss exactly if it is clean or holds what the disk has.
  lemma DropKeeps(s: Store, b: nat)
    requires Agrees(s)
    ensures Agrees(Drop(s, b))
    ensures Contents(Drop(s, b)) == Contents(s) <==> (Dirty(s, b) ==> s.cache[b].data == s.disk[b])
  {
    if b in s.cache { assert Contents(Drop(s, b))[b] == s.disk[b] && Contents(s)[b] == s.cache[b].data; }
  }

  // ---- Any run refines a plain disk ----

  datatype Op =
    | Read(b: nat, off: nat)
    | Write(b: nat, off: nat, v: Byte)
    | Flush(va: nat)
    | Sync(n: nat)

  // A load or store first faults its block in, if it has to.
  function Touch(s: Store, b: nat, known: Known): Option<Store> {
    if b in s.cache then Some(s) else Fault(s, DiskAddr(b), known)
  }

  function Do(s: Store, op: Op, known: Known): Option<Store>
    requires forall b :: b in s.cache ==> b < |s.disk|
  {
    match op
    case Read(b, off) => if off < BLKSIZE && b < DISKSIZE / BLKSIZE then Touch(s, b, known) else None
    case Write(b, off, v) =>
      if off < BLKSIZE && b < DISKSIZE / BLKSIZE && Touch(s, b, known).Some?
      then (Offset(b, 0); Some(Poke(Touch(s, b, known).value, b, off, v))) else None
    case Flush(va) => FlushBlock(s, va)
    case Sync(n) => if n <= DISKSIZE / BLKSIZE then Some(SyncFrom(s, 1, n)) else None
  }

  // The same on a disk without a cache.
  function PlainDo(disk: seq<Block>, op: Op): seq<Block> {
    if op.Write? && op.b < |disk| && op.off < BLKSIZE then disk[op.b := PutByte(disk[op.b], op.off, op.v)] else disk
  }

  lemma TouchKeeps(s: Store, b: nat, known: Known)
    requires Agrees(s) && b < DISKSIZE / BLKSIZE && Touch(s, b, known).Some?
    ensures var s' := Touch(s, b, known).value; Agrees(s') && Contents(s') == Contents(s) && b in s'.cache && b < |s'.disk| == |s.disk|
  {
    Offset(b, 0);
    if b !in s.cache { FaultKeeps(s, DiskAddr(b), known); }
  }

  lemma DoRefines(s: Store, op: Op, known: Known)
    requires Agrees(s) && Do(s, op, known).Some?
    ensures var s' := Do(s, op, known).value; Agrees(s') && Contents(s') == PlainDo(Contents(s), op)
    ensures op.Read? ==> op.b < |s.disk| && op.b in Do(s, op, known).value.cache
    ensures op.Read? ==> Do(s, op, known).value.cache[op.b].data == Contents(s)[op.b]
  {
    match op
    case Read(b, off) => TouchKeeps(s, b, known);
    case Write(b, off, v) =>
      TouchKeeps(s, b, known);
      PokeWrites(Touch(s, b, known).value, b, off, v);
    case Flush(va) => FlushKeeps(s, va);
    case Sync(n) => SyncKeeps(s, 1, n);
  }

  ghost predicate Runs(s: Store, ops: seq<Op>, known: Known)
    decreases |ops|
  {
    ops == [] ||
    ((forall b :: b in s.cache ==> b < |s.disk|) && Do(s, ops[0], known).Some? && Runs(Do(s, ops[0], known).value, ops[1..], known))
  }

  ghost function After(s: Store, ops: seq<Op>, known: Known): Store
    requires Runs(s, ops, known)
    decreases |ops|
  {
    if ops == [] then s else After(Do(s, ops[0], known).value, ops[1..], known)
  }

  function PlainAfter(disk: seq<Block>, ops: seq<Op>): seq<Block>
    decreases |ops|
  {
    if ops == [] then disk else PlainAfter(PlainDo(disk, ops[0]), ops[1..])
  }

  lemma {:induction false} RunRefines(s: Store, ops: seq<Op>, known: Known)
    requires Agrees(s) && Runs(s, ops, known)
    ensures Agrees(After(s, ops, known)) && Contents(After(s, ops, known)) == PlainAfter(Contents(s), ops)
    decreases |ops|
  {
    if ops != [] {
      DoRefines(s, ops[0], known);
      RunRefines(Do(s, ops[0], known).value, ops[1..], known);
    }
  }

  // After fs_sync a cold start, with an empty cache, sees in every block but block 0 what
  // was there before.
  lemma SyncIsDurable(s: Store)
    requires Agrees(s) && |s.disk| <= DISKSIZE / BLKSIZE
    ensures var s' := SyncFrom(s, 1, |s.disk|);
      |s'.disk| == |s.disk| && Agrees(Store(s'.disk, map[]))
      && forall b :: 1 <= b < |s.disk| ==> Contents(Store(s'.disk, map[]))[b] == Contents(s)[b]
  {
    SyncKeeps(s, 1, |s.disk|);
  }

  // Writing a block out without mapping its page onto itself would leave it dirty: the bit
  // is cleared by that call and nothing else.
  lemma SelfMapClears(s: Store, va: nat)
    requires Agrees(s) && InRegion(va) && Dirty(s, BlockNo(va))
    ensures var b := BlockNo(va); var s' := FlushBlock(s, va).value;
      && Dirty(Store(s.disk[b := s.cache[b].data], s.cache), b) && !Dirty(s', b)
      && s'.cache[b] == SelfMap(s.cache[b])
  {}

  // ---- The fault handler and flush_block as code ----

  class Server {
    var disk: seq<Block>
    var cache: map<nat, Page>

    ghost function State(): Store
      reads this
    {
      Store(disk, cache)
    }

    // sys_page_map(0, addr, 0, addr, uvpt[PGNUM(addr)] & PTE_SYSCALL)
    method MapSelf(b: nat)
      requires b in cache
      modifies this`cache
      ensures cache == old(cache)[b := SelfMap(old(cache)[b])]
    {
      var flags := cache[b].flags;
      cache := cache[b := cache[b].(flags := Flags(flags.p, flags.w, flags.u, flags.cow, flags.share, flags.avail, false, false))];
    }

    method BcPgfault(va: nat, known: Known) returns (ok: bool)
      modifies this`cache
      ensures ok <==> Fault(old(State()), va, known).Some?
      ensures ok ==> State() == Fault(old(State()), va, known).value
    {
      if va < DISKMAP || va >= DISKMAP + DISKSIZE { return false; }
      var b := (va - DISKMAP) / BLKSIZE;
      if known.nblocks.Some? && b >= known.nblocks.value { return false; }
      cache := cache[b := Page(Zeros(), PTE_PWU)];
      if b >= |disk| { return false; }
      cache := cache[b := Dirtied(Page(disk[b], cache[b].flags))];
      MapSelf(b);
      return known.free.None? || b !in known.free.value;
    }

    method Flush(va: nat) returns (ok: bool)
      requires Agrees(State())
      modifies this
      ensures ok <==> InRegion(va)
      ensures State() == if ok then FlushBlock(old(State()), va).value else old(State())
      ensures Agrees(State()) && Contents(State()) == Contents(old(State()))
    {
      if va < DISKMAP || va >= DISKMAP + DISKSIZE { return false; }
      FlushKeeps(State(), va);
      var b := (va - DISKMAP) / BLKSIZE;
      if b !in cache || !cache[b].flags.d { return true; }
      disk := disk[b := cache[b].data];
      MapSelf(b);
      return true;
    }

    method FsSync(n: nat)
      requires Agrees(State()) && n <= DISKSIZE / BLKSIZE
      modifies this
      ensures State() == SyncFrom(old(State()), 1, n)
      ensures Agrees(State()) && Contents(State()) == Contents(old(State()))
      ensures forall b :: 1 <= b < n && b < |disk| ==> disk[b] == Logical(State(), b)
    {
      SyncKeeps(State(), 1, n);
      var i := 1;
      while i < n
        invariant Agrees(State()) && SyncFrom(State(), i, n) == SyncFrom(old(State()), 1, n)
      {
        Offset(i, 0);
        var ok := Flush(DiskAddr(i));
        i := i + 1;
      }
    }
  }
}
