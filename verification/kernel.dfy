/** The kernel's page allocator, two-level page tables and the memory side of an
    environment's life, updated in place. */
module KernelMemory {
  import opened Mmu
  import opened PageTables
  import opened FreeList

  const E_BAD_ENV: int := 2
  const E_INVAL: int := 3
  const E_NO_MEM: int := 4
  const ZERO_PAGE: seq<Word> := seq(NENTRIES, _ => ZERO)

  // No page for the data, or none left for the page table it needs.
  predicate NoRoom(free: seq<nat>, haveTable: bool) {
    free == [] || (|free| == 1 && !haveTable)
  }

  // Pages page_init marks as used: [IOPHYSMEM, kernelEnd) and MPENTRY_PADDR.
  predicate BootPage(p: nat, kernelEnd: nat) {
    160 <= p < kernelEnd || p == 7
  }

  predicate MapArgs(srcva: nat, dstva: nat, perm: Flags) {
    srcva < UTOP && srcva % PGSIZE == 0 && dstva < UTOP && dstva % PGSIZE == 0 && SyscallPerm(perm)
  }

  // What envid2env answers.
  datatype EnvResult = BadEnv | Found(e: nat)

  // Two good states with the same references have the same free pages: what an environment
  // took is back on the list once its references are gone, and nothing else is.
  lemma FreeSetDetermined(m: Mem, m': Mem, reserved: set<nat>, held: multiset<nat>, inflight: set<nat>,
                          link: seq<int>, head: int, free: seq<nat>, link': seq<int>, head': int, free': seq<nat>)
    requires Inv(m, reserved, held) && FreeInv(m.refs, reserved, link, head, free, inflight)
    requires Inv(m', reserved, held) && FreeInv(m'.refs, reserved, link', head', free', inflight)
    requires |m'.refs| == |m.refs|
    requires forall r :: Live(m', r) == Live(m, r)
    requires forall r :: Live(m, r) ==> Names(m', r) == Names(m, r)
    ensures Elements(free') == Elements(free)
  {
    CountsDetermined(m, m', reserved, held);
    forall p: nat ensures p in free' <==> p in free {
      if p < |m.refs| && p !in reserved {
        assert m'.refs[p] == m.refs[p];
      }
    }
  }

  // page_init: pages 1.. go on the list in ascending order, each in front of the last,
  // but for the I/O hole with the kernel image and the AP boot page.
  method PageInit(n: nat, kernelEnd: nat)
    returns (refs: seq<nat>, link: seq<int>, head: int, ghost free: seq<nat>, ghost reserved: set<nat>)
    requires n > 0
    ensures |refs| == n && 0 in reserved && FreeInv(refs, reserved, link, head, free, {})
    ensures forall p: nat :: p in reserved <==> p < n && (p == 0 || BootPage(p, kernelEnd))
    ensures forall p: nat :: p in free <==> p < n && p != 0 && !BootPage(p, kernelEnd)
    ensures forall p :: 0 <= p < n ==> refs[p] == if p != 0 && BootPage(p, kernelEnd) then 1 else 0
  {
    link := seq(n, _ => NULL);
    head := NULL;
    refs := seq(n, _ => 0);
    free := [];
    reserved := set p: nat | p in Below(n) && (p == 0 || BootPage(p, kernelEnd));
    ghost var rest: set<nat> := Below(n) - reserved;
    for i: nat := 1 to n
      invariant |refs| == n && FreeInv(refs, reserved, link, head, free, rest)
      invariant forall p :: 0 <= p < n ==> refs[p] == if 0 < p < i && BootPage(p, kernelEnd) then 1 else 0
      invariant forall p: nat :: p in rest <==> i <= p < n && p !in reserved
      invariant forall p: nat :: p in free <==> 0 < p < i && p !in reserved
    {
      if BootPage(i, kernelEnd) {
        Ignored(refs, reserved, link, head, free, rest, i, refs[i := 1]);
        refs := refs[i := 1];
      } else {
        Push(refs, reserved, link, head, free, rest, i);
        link := link[i := head];
        head := i;
        free := [i] + free;
        rest := rest - {i};
      }
    }
    assert rest == {};
  }

  class Kernel {
    var frames: seq<seq<Word>>
    var refs: seq<nat>         // pages[].pp_ref
    var link: seq<int>         // pages[].pp_link
    var head: int              // page_free_list
    var dirs: map<nat, nat>    // env_pgdir of the live environments
    const kernDir: seq<Word>   // kern_pgdir
    ghost var reserved: set<nat>
    ghost var held: multiset<nat>
    ghost var free: seq<nat>
    ghost var inflight: set<nat>

    ghost function State(): Mem
      reads this
    {
      Mem(frames, refs, dirs)
    }

    ghost predicate Valid()
      reads this
    {
      && 0 in reserved && held[0] == 0 && |link| == |refs| == |frames|
      && Inv(State(), reserved, held)
      && FreeInv(refs, reserved, link, head, free, inflight)
      && |kernDir| == NENTRIES
      && (forall i :: 0 <= i < USER_PDES ==> kernDir[i] == ZERO)
    }

    // Page 0 on the free list is what the kernel must never reach.
    lemma PageZeroNeverFree()
      requires Valid()
      ensures 0 !in free && 0 !in inflight
    {}

    constructor (mem: seq<seq<Word>>, kernelEnd: nat, kernDir: seq<Word>)
      requires |mem| > 0 && forall p :: 0 <= p < |mem| ==> |mem[p]| == NENTRIES
      requires |kernDir| == NENTRIES && forall i :: 0 <= i < USER_PDES ==> kernDir[i] == ZERO
      ensures Valid() && frames == mem && dirs == map[] && held == multiset{} && inflight == {}
      ensures forall p :: 0 <= p < |mem| ==> (p in free <==> p != 0 && !BootPage(p, kernelEnd))
    {
      var refs0, link0, head0, free0, reserved0 := PageInit(|mem|, kernelEnd);
      frames, refs, link, head, dirs := mem, refs0, link0, head0, map[];
      this.kernDir := kernDir;
      reserved, held, free, inflight := reserved0, multiset{}, free0, {};
      new;
      forall p ensures RefsTo(State(), p) == {} {}
    }

    // A page is free exactly when no live environment, page table or directory names it.
    lemma FreeExactly(p: nat)
      requires Valid() && p < |refs| && p !in reserved && p !in inflight
      ensures p in free <==> held[p] == 0 && Unnamed(State(), p)
    {
      UnreferencedIff(State(), reserved, held, p);
    }

    method PageAlloc(zero: bool) returns (pp: int)
      requires Valid()
      modifies `frames, `link, `head, `free, `inflight
      ensures Valid()
      ensures old(free) == [] ==> pp == NULL && frames == old(frames) && free == [] && inflight == old(inflight)
      ensures old(free) != [] ==>
        && pp == old(free)[0] && free == old(free)[1..] && inflight == old(inflight) + {pp}
        && frames == (if zero then old(frames)[pp := ZERO_PAGE] else old(frames))
        && SameRefs(old(State()), State())
    {
      pp := head;
      if pp != NULL {
        Pop(refs, reserved, link, head, free, inflight);
        UnnamedWhenZero(State(), reserved, held, pp);
        StepData(State(), reserved, held, pp, ZERO_PAGE);
        head := link[pp];
        link := link[pp := NULL];
        free := free[1..];
        inflight := inflight + {pp};
        if zero {
          frames := frames[pp := ZERO_PAGE];
        }
      }
    }

    // The preconditions on the count and the link are the two panics of the original.
    method PageFree(pp: nat)
      requires pp < |refs| == |link| && refs[pp] == 0 && link[pp] == NULL
      modifies `link, `head, `free, `inflight
      ensures link == old(link)[pp := old(head)] && head == pp
      ensures free == [pp] + old(free) && inflight == old(inflight) - {pp}
      ensures old(Valid()) && pp in old(inflight) ==> Valid()
    {
      if Valid() && pp in inflight {
        Push(refs, reserved, link, head, free, inflight, pp);
      }
      link := link[pp := head];
      head := pp;
      free := [pp] + free;
      inflight := inflight - {pp};
    }

    // Page q went on the list if `freed`, and nothing else about the list changed.
    twostate predicate Listed(q: nat, freed: bool)
      reads this
    {
      && q < |old(link)|
      && link == (if freed then old(link)[q := old(head)] else old(link))
      && head == (if freed then q else old(head))
      && free == (if freed then [q] + old(free) else old(free))
      && inflight == (if freed then old(inflight) - {q} else old(inflight))
    }

    // Lowers the 16-bit count and frees the page when it reaches zero.
    method PageDecref(pp: nat)
      requires pp < |refs| == |link| && refs[pp] <= 0xFFFF && (refs[pp] == 1 ==> link[pp] == NULL)
      modifies `refs, `link, `head, `free, `inflight
      ensures State() == Lower(old(State()), pp) && Listed(pp, old(refs)[pp] == 1)
    {
      refs := refs[pp := (refs[pp] + 0xFFFF) % 0x1_0000];
      if refs[pp] == 0 {
        PageFree(pp);
      }
    }

    // *pte = w
    method StorePte(e: nat, i: nat, j: nat, w: Word)
      requires Sits(State(), e, i) && j < NENTRIES
      modifies `frames
      ensures State() == SetPte(old(State()), e, i, j, w)
    {
      var t := frames[dirs[e]][i].ppn;
      frames := frames[t := frames[t][j := w]];
    }

    // Returns the page holding the page table for va, or NULL.
    method PgdirWalk(e: nat, va: nat, create: bool) returns (t: int)
      requires Valid() && e in dirs && va < UTOP
      modifies `frames, `refs, `link, `head, `free, `held, `inflight
      ensures Valid() && inflight == old(inflight) && held == old(held)
      ensures t == NULL <==> !old(Live(State(), Table(e, PDX(va)))) && (!create || old(free) == [])
      ensures t != NULL ==> Live(State(), Table(e, PDX(va))) && t == Pde(State(), e, PDX(va)).ppn
      ensures t == NULL || old(Live(State(), Table(e, PDX(va)))) ==> State() == old(State()) && free == old(free)
      ensures t != NULL && !old(Live(State(), Table(e, PDX(va)))) ==>
        && t == old(free)[0] < |old(frames)|
        && State() == Tabled(old(State()), e, PDX(va), t) && free == old(free)[1..]
    {
      UserAddress(va);
      var pdx := PDX(va);
      ghost var m := State();
      DirEntry(m, reserved, held, e, pdx);
      var pde := frames[dirs[e]][pdx];
      if pde.ppn == 0 {
        if !create {
          return NULL;
        }
        var page := PageAlloc(true);
        if page == NULL {
          return NULL;
        }
        TabledGood(m, reserved, held, e, pdx, page);
        Landed(refs, reserved, link, head, free, inflight, page, Raise(m, page).refs);
        frames := frames[dirs[e] := frames[dirs[e]][pdx := Word(page, PTE_PWU)]];
        refs := refs[page := (refs[page] + 1) % 0x1_0000];
        inflight := inflight - {page};
        assert State() == Tabled(m, e, pdx, page);
        return page;
      }
      return pde.ppn;
    }

    // The entry for va, or none when its page table does not exist. An absent entry of an
    // existing table is returned all the same: its address part is 0, so it reads as page 0.
    method PageLookup(e: nat, va: nat) returns (found: bool, w: Word)
      requires Valid() && e in dirs && va < UTOP
      ensures found <==> Live(State(), Table(e, PDX(va)))
      ensures w == Pte(State(), e, PDX(va), PTX(va)) && w.ppn < |refs|
      ensures found && !Live(State(), Leaf(e, PDX(va), PTX(va))) ==> w == ZERO
    {
      UserAddress(va);
      DirEntry(State(), reserved, held, e, PDX(va));
      var pde := frames[dirs[e]][PDX(va)];
      if pde.ppn == 0 {
        return false, ZERO;
      }
      EntryTarget(State(), reserved, held, e, PDX(va), PTX(va));
      return true, frames[pde.ppn][PTX(va)];
    }

    // The entry for va is there to be read, and so is the page it names, which if it has its
    // last reference is on no list.
    ghost predicate Releasable(e: nat, va: nat)
      reads this
    {
      && Live(State(), Table(e, PDX(va))) && Sits(State(), e, PDX(va)) && Separate(State(), e, PDX(va)) && |refs| == |link|
      && var q := Pte(State(), e, PDX(va), PTX(va)).ppn; q < |refs| && refs[q] <= 0xFFFF && link[q] == NULL
    }

    // In a good state that is so of any entry.
    lemma EntryReleasable(e: nat, va: nat)
      requires Valid() && va < UTOP && Live(State(), Table(e, PDX(va)))
      ensures Releasable(e, va)
      ensures var q := Pte(State(), e, PDX(va), PTX(va)); q.ppn !in free && (q.flags.p ==> q.ppn !in reserved && refs[q.ppn] > 0)
    {
      UserAddress(va);
      TableSits(State(), reserved, held, e, PDX(va));
      EntryTarget(State(), reserved, held, e, PDX(va), PTX(va));
      var q := Pte(State(), e, PDX(va), PTX(va));
      if q.flags.p { NamedIsReferenced(State(), reserved, held, Leaf(e, PDX(va), PTX(va))); }
    }

    // The end of page_remove: the entry goes, the page it named loses a reference.
    method Release(e: nat, va: nat)
      requires va < UTOP && Releasable(e, va)
      modifies `frames, `refs, `link, `head, `free, `inflight
      ensures State() == Removed(old(State()), e, PDX(va), PTX(va))
      ensures var q := old(Pte(State(), e, PDX(va), PTX(va))).ppn; q < |old(refs)| && Listed(q, old(refs)[q] == 1)
    {
      UserAddress(va);
      var q := frames[frames[dirs[e]][PDX(va)].ppn][PTX(va)].ppn;
      StorePte(e, PDX(va), PTX(va), ZERO);
      PageDecref(q);
    }

    // Unmaps va. The page named by the entry loses a count; for an absent entry of an
    // existing table that is page 0, and the kernel stays sound unless that count was 1.
    method PageRemove(e: nat, va: nat)
      requires Valid() && e in dirs && va < UTOP
      modifies `frames, `refs, `link, `head, `held, `free, `inflight
      ensures held == old(held)
      ensures State() == Removed(old(State()), e, PDX(va), PTX(va))
      ensures var q := old(Pte(State(), e, PDX(va), PTX(va))).ppn;
        && q < |old(refs)|
        && free == (if old(Live(State(), Table(e, PDX(va)))) && old(refs)[q] == 1 then [q] + old(free) else old(free))
      ensures inflight == old(inflight) && (!old(PageZeroAtRisk(e, va)) ==> Valid())
    {
      UserAddress(va);
      PageZeroNeverFree();
      var found, w := PageLookup(e, va);
      if !found {
        return;
      }
      EntryReleasable(e, va);
      ReleaseGood(e, PDX(va), PTX(va));
      Release(e, va);
    }

    // What that does to the counts and the free list.
    lemma ReleaseGood(e: nat, i: nat, j: nat)
      requires Valid() && Live(State(), Table(e, i)) && j < NENTRIES
      ensures Inv(Removed(State(), e, i, j), reserved, held)
      ensures var q, refs' := Pte(State(), e, i, j).ppn, Removed(State(), e, i, j).refs;
        && q < |refs| && q !in inflight - {q} && (q == 0 || refs[q] == 1 ==> q !in inflight)
        && (q == 0 || refs[q] != 1 ==> FreeInv(refs', reserved, link, head, free, inflight))
        && (q != 0 && refs[q] == 1 ==> FreeInv(refs', reserved, link[q := head], q, [q] + free, inflight))
    {
      var m := State();
      var q := Pte(m, e, i, j).ppn;
      RemovedGood(m, reserved, held, e, i, j);
      RemovedCounts(m, reserved, held, e, i, j);
      if q != 0 {
        Released(refs, reserved, link, head, free, inflight, q, Removed(m, e, i, j).refs);
      } else {
        Ignored(refs, reserved, link, head, free, inflight, 0, Removed(m, e, i, j).refs);
      }
    }

    // page_remove would free page 0: the entry is absent in an existing table, and page 0
    // has a count of one.
    ghost predicate PageZeroAtRisk(e: nat, va: nat)
      reads this
    {
      && Live(State(), Table(e, PDX(va))) && !Pte(State(), e, PDX(va), PTX(va)).flags.p
      && 0 < |refs| && refs[0] == 1
    }

    // Page pp may be mapped once more: it holds data and its count has room.
    ghost predicate Placeable(pp: nat)
      reads this
    {
      pp < |refs| && pp !in reserved && pp !in free && OnlyLeaves(State(), pp) && refs[pp] < 0xFFFF
    }

    // Page pp holds data and its count has reached the largest value sixteen bits hold.
    ghost predicate FullCount(pp: nat)
      reads this
    {
      pp < |refs| && pp !in reserved && pp !in free && OnlyLeaves(State(), pp) && refs[pp] == 0xFFFF
    }

    // Page pp is what va is mapped to already.
    ghost predicate MappedThere(e: nat, va: nat, pp: nat)
      reads this
    {
      Live(State(), Leaf(e, PDX(va), PTX(va))) && Names(State(), Leaf(e, PDX(va), PTX(va))) == pp
    }

    // page_insert once the page table exists: counts pp once more and releases the page now
    // mapped at va, in that order, so a page mapped again over itself never reaches a count
    // of zero.
    method PutEntry(e: nat, pp: nat, va: nat, perm: Flags)
      requires va < UTOP && pp < |refs| && Releasable(e, va)
      modifies `frames, `refs, `link, `head, `free, `inflight
      ensures State() == Replaced(old(State()), e, PDX(va), PTX(va), Word(pp, perm.(p := true)))
      ensures var q := old(Pte(State(), e, PDX(va), PTX(va)));
        q.ppn < |old(refs)| && Listed(q.ppn, old(FreesOld(State(), e, PDX(va), PTX(va), pp)))
    {
      UserAddress(va);
      VacatedSits(State(), e, PDX(va), PTX(va), pp);
      refs := refs[pp := (refs[pp] + 1) % 0x1_0000];
      if frames[frames[dirs[e]][PDX(va)].ppn][PTX(va)].flags.p {
        Release(e, va);
      }
      StorePte(e, PDX(va), PTX(va), Word(pp, perm.(p := true)));
    }

    // Maps page pp at va. Fails only when a page table is needed and no page is free. The
    // state stays good if the page may be mapped once more; page_insert itself does not ask.
    // With a count that is full the state stays good exactly when the page is mapped there.
    method PageInsert(e: nat, pp: nat, va: nat, perm: Flags) returns (r: int)
      requires Valid() && e in dirs && va < UTOP && pp < |refs|
      modifies `frames, `refs, `link, `head, `held, `free, `inflight
      ensures held == old(held)
      ensures r == if old(free) == [] && !old(Live(State(), Table(e, PDX(va)))) then -E_NO_MEM else 0
      ensures r != 0 ==> Valid() && State() == old(State()) && free == old(free) && inflight == old(inflight)
      ensures r == 0 ==> State() == Placed(old(State()), e, PDX(va), PTX(va), Word(pp, perm.(p := true)), old(free))
      ensures r == 0 && old(Placeable(pp)) ==>
        && Valid() && inflight == old(inflight) - {pp}
        && Inserted(old(State()), State(), e, PDX(va), PTX(va), Word(pp, perm.(p := true)))
        && DataKept(old(State()), State(), old(free))
      ensures r == 0 && old(Placeable(pp)) ==>
        free == FreeAfter(old(State()), e, PDX(va), PTX(va), pp,
                          if old(Live(State(), Table(e, PDX(va)))) then old(free) else old(free)[1..])
      ensures r == 0 && old(FullCount(pp)) ==> (Valid() <==> old(MappedThere(e, va, pp)))
    {
      UserAddress(va);
      ghost var m0, free0, sound, full := State(), free, Placeable(pp), FullCount(pp);
      var t := PgdirWalk(e, va, true);
      if t == NULL {
        return -E_NO_MEM;
      }
      if sound { WalkedPlaceable(m0, reserved, held, e, PDX(va), PTX(va), Word(pp, perm.(p := true)), free0); }
      if full && !Live(m0, Table(e, PDX(va))) { WalkedFull(m0, reserved, held, e, PDX(va), PTX(va), t, pp); }
      Place(e, pp, va, perm);
      return 0;
    }

    // page_insert once the page table exists, from a good state.
    method Place(e: nat, pp: nat, va: nat, perm: Flags)
      requires Valid() && va < UTOP && pp < |refs| && Live(State(), Table(e, PDX(va)))
      modifies `frames, `refs, `link, `head, `free, `inflight
      ensures State() == Replaced(old(State()), e, PDX(va), PTX(va), Word(pp, perm.(p := true)))
      ensures old(Placeable(pp)) ==>
        Valid() && inflight == old(inflight) - {pp} && free == FreeAfter(old(State()), e, PDX(va), PTX(va), pp, old(free))
      ensures old(FullCount(pp)) ==> (Valid() <==> old(MappedThere(e, va, pp)))
    {
      UserAddress(va);
      ghost var sound := Placeable(pp);
      EntryReleasable(e, va);
      if sound {
        PutEntryGood(e, PDX(va), PTX(va), Word(pp, perm.(p := true)));
      } else if FullCount(pp) {
        PutEntryFull(e, PDX(va), PTX(va), Word(pp, perm.(p := true)));
      }
      ghost var flying := inflight;
      PutEntry(e, pp, va, perm);
      if sound { inflight := flying - {pp}; }
    }

    // What page_insert of a page that may be mapped does to the counts and the free list.
    lemma PutEntryGood(e: nat, i: nat, j: nat, w: Word)
      requires Valid() && Live(State(), Table(e, i)) && j < NENTRIES && Placeable(w.ppn) && w.flags.p
      ensures Pte(State(), e, i, j).ppn < |refs| && Inv(Replaced(State(), e, i, j, w), reserved, held)
      ensures var q := Pte(State(), e, i, j).ppn;
        var freed, refs' := FreesOld(State(), e, i, j, w.ppn), Replaced(State(), e, i, j, w).refs;
        && FreeAfter(State(), e, i, j, w.ppn, free) == (if freed then [q] + free else free)
        && (freed ==> q !in inflight && FreeInv(refs', reserved, link[q := head], q, [q] + free, inflight - {w.ppn}))
        && (!freed ==> FreeInv(refs', reserved, link, head, free, inflight - {w.ppn}))
    {
      var m := State();
      var q := Pte(m, e, i, j);
      ReplacedGood(m, reserved, held, e, i, j, w);
      EntryTarget(m, reserved, held, e, i, j);
      Landed(refs, reserved, link, head, free, inflight, w.ppn, Raise(m, w.ppn).refs);
      if q.flags.p {
        NamedIsReferenced(m, reserved, held, Leaf(e, i, j));
        ReplacedCounts(m, e, i, j, w);
        Released(Raise(m, w.ppn).refs, reserved, link, head, free, inflight - {w.ppn}, q.ppn, Replaced(m, e, i, j, w).refs);
      }
    }

    // What page_insert of a page with a full count does to the counts.
    lemma PutEntryFull(e: nat, i: nat, j: nat, w: Word)
      requires Valid() && Live(State(), Table(e, i)) && j < NENTRIES && FullCount(w.ppn) && w.flags.p
      ensures var there, m' := Live(State(), Leaf(e, i, j)) && Names(State(), Leaf(e, i, j)) == w.ppn, Replaced(State(), e, i, j, w);
        && (Inv(m', reserved, held) <==> there)
        && (there ==> m'.refs == refs && !FreesOld(State(), e, i, j, w.ppn))
    {
      TableSits(State(), reserved, held, e, i);
      FullCountExact(State(), reserved, held, e, i, j, w);
    }

    // Gives environment slot e an address space with an empty user part.
    method EnvSetupVm(e: nat) returns (r: int)
      requires Valid() && e !in dirs
      modifies `frames, `refs, `link, `head, `free, `inflight, `held, `dirs
      ensures Valid() && held == old(held) && inflight == old(inflight)
      ensures r == (if old(free) == [] then -E_NO_MEM else 0)
      ensures r != 0 ==> State() == old(State()) && free == old(free)
      ensures r == 0 ==>
        && free == old(free)[1..] && old(free)[0] < |old(frames)|
        && State() == WithDir(old(State()), e, old(free)[0], kernDir)
    {
      ghost var m := State();
      var d := PageAlloc(true);
      if d == NULL {
        return -E_NO_MEM;
      }
      WithDirGood(m, reserved, held, e, d, kernDir);
      Landed(refs, reserved, link, head, free, inflight, d, WithDir(m, e, d, kernDir).refs);
      refs := refs[d := (refs[d] + 1) % 0x1_0000];
      inflight := inflight - {d};
      dirs := dirs[e := d];
      frames := frames[d := kernDir];
      frames := frames[d := frames[d][PDX(UVPT) := Word(d, PTE_PU)]];
      assert State() == WithDir(m, e, d, kernDir);
      return 0;
    }

    // The body of env_free's inner loop.
    method FreePage(e: nat, i: nat, j: nat)
      requires Valid() && Live(State(), Table(e, i)) && j < NENTRIES
      modifies `frames, `refs, `link, `head, `held, `free, `inflight
      ensures Valid() && held == old(held) && inflight == old(inflight)
      ensures Drained(old(State()), State(), e)
      ensures Live(State(), Table(e, i)) && !Live(State(), Leaf(e, i, j))
    {
      ghost var m := State();
      PageAddress(i, j);
      DirEntry(m, reserved, held, e, i);
      RemovedGood(m, reserved, held, e, i, j);
      var pt := frames[dirs[e]][i].ppn;
      if frames[pt][j].flags.p {
        PageRemove(e, PGADDR(i, j));
        SameButDrained(m, State(), Leaf(e, i, j));
      }
    }

    // The body of env_free's outer loop: unmaps what page table i maps, then drops the table.
    method FreeTable(e: nat, i: nat)
      requires Valid() && Live(State(), Table(e, i))
      modifies `frames, `refs, `link, `head, `held, `free, `inflight
      ensures Valid() && held == old(held) && inflight == old(inflight)
      ensures Drained(old(State()), State(), e) && !Live(State(), Table(e, i))
    {
      ghost var m := State();
      var j := 0;
      while j < NENTRIES
        invariant j <= NENTRIES && Valid() && held == old(held) && inflight == old(inflight)
        invariant Drained(m, State(), e) && Live(State(), Table(e, i))
        invariant forall k :: 0 <= k < j ==> !Live(State(), Leaf(e, i, k))
      {
        ghost var m1 := State();
        FreePage(e, i, j);
        DrainedTrans(m, m1, State(), e);
        j := j + 1;
      }
      ghost var m2 := State();
      DropTable(e, i);
      UntabledGood(m2, reserved, held, e, i);
      DrainedTrans(m, m2, State(), e);
    }

    method DropTable(e: nat, i: nat)
      requires Valid() && Live(State(), Table(e, i))
      requires forall j :: 0 <= j < NENTRIES ==> !Live(State(), Leaf(e, i, j))
      modifies `frames, `refs, `link, `head, `held, `free, `inflight
      ensures Valid() && held == old(held) && inflight == old(inflight)
      ensures State() == Untabled(old(State()), e, i)
    {
      ghost var m := State();
      UntabledGood(m, reserved, held, e, i);
      DirEntry(m, reserved, held, e, i);
      var t := frames[dirs[e]][i].ppn;
      NamedIsReferenced(m, reserved, held, Table(e, i));
      Released(refs, reserved, link, head, free, inflight, t, Untabled(m, e, i).refs);
      frames := frames[dirs[e] := frames[dirs[e]][i := ZERO]];
      assert State() == Store(m, dirs[e], i, ZERO);
      PageDecref(t);
    }

    // Releases everything environment e maps, its page tables and its directory. No
    // other environment's reference changes.
    method EnvFree(e: nat)
      requires Valid() && e in dirs
      modifies `frames, `refs, `link, `head, `held, `free, `inflight, `dirs
      ensures Valid() && held == old(held) && inflight == old(inflight)
      ensures dirs == old(dirs) - {e}
      ensures forall r :: Live(State(), r) <==> old(Live(State(), r)) && Owner(r) != e
      ensures forall r :: Live(State(), r) ==> Names(State(), r) == old(Names(State(), r))
    {
      ghost var m := State();
      var i := 0;
      while i < USER_PDES
        invariant i <= USER_PDES && Valid() && held == old(held) && inflight == old(inflight)
        invariant Drained(m, State(), e)
        invariant forall k :: 0 <= k < i ==> !Live(State(), Table(e, k))
      {
        ghost var m1 := State();
        DirEntry(m1, reserved, held, e, i);
        if frames[dirs[e]][i].flags.p {
          FreeTable(e, i);
          DrainedTrans(m, m1, State(), e);
        }
        i := i + 1;
      }
      ghost var m2 := State();
      UndirectedGood(m2, reserved, held, e);
      DropDir(e);
      Freed(m, m2, State(), e);
    }

    method DropDir(e: nat)
      requires Valid() && e in dirs
      requires forall i :: 0 <= i < USER_PDES ==> !Live(State(), Table(e, i))
      modifies `refs, `link, `head, `held, `free, `inflight, `dirs
      ensures Valid() && held == old(held) && inflight == old(inflight)
      ensures State() == Undirected(old(State()), e)
    {
      ghost var m := State();
      UndirectedGood(m, reserved, held, e);
      var d := dirs[e];
      NamedIsReferenced(m, reserved, held, Dir(e));
      Released(refs, reserved, link, head, free, inflight, d, Undirected(m, e).refs);
      dirs := dirs - {e};
      PageDecref(d);
    }
  
    // A user store through a writable mapping. It changes no mapping of any environment.
    method UserStore(e: nat, va: nat, w: Word)
      requires Valid() && e in dirs && va < UTOP
      requires Live(State(), Leaf(e, PDX(va), PTX(va))) && Pte(State(), e, PDX(va), PTX(va)).flags.w
      modifies `frames
      ensures Valid() && SameRefs(old(State()), State())
      ensures var p := old(Pte(State(), e, PDX(va), PTX(va))).ppn;
        p < |old(frames)| && frames == old(frames)[p := old(frames)[p][va % PGSIZE / 4 := w]]
    {
      UserAddress(va);
      var found, pte := PageLookup(e, va);
      EntryTarget(State(), reserved, held, e, PDX(va), PTX(va));
      var frame := frames[pte.ppn][va % PGSIZE / 4 := w];
      StepData(State(), reserved, held, pte.ppn, frame);
      frames := frames[pte.ppn := frame];
    }

    // sys_page_alloc once its arguments are accepted; the page is handed back when it cannot be mapped.
    method AllocInto(e: nat, va: nat, perm: Flags) returns (r: int)
      requires Valid() && e in dirs && va < UTOP && SyscallPerm(perm)
      modifies `frames, `refs, `link, `head, `held, `free, `inflight
      ensures Valid() && held == old(held) && inflight == old(inflight)
      ensures r == if NoRoom(old(free), old(Live(State(), Table(e, PDX(va))))) then -E_NO_MEM else 0
      ensures r != 0 ==> SameRefs(old(State()), State()) && refs == old(refs) && free == old(free)
      ensures r == 0 ==>
        && Inserted(old(State()), State(), e, PDX(va), PTX(va), Word(old(free)[0], perm))
        && old(free)[0] < |frames| && frames[old(free)[0]] == ZERO_PAGE
    {
      UserAddress(va);
      ghost var m := State();
      var page := PageAlloc(perm.p);
      if page == NULL {
        return -E_NO_MEM;
      }
      ghost var m1 := State();
      UnnamedWhenZero(m1, reserved, held, page);
      var r' := PageInsert(e, page, va, perm);
      if r' != 0 {
        PageFree(page);
        assert old(free) == [page] + old(free)[1..];
        return -E_NO_MEM;
      }
      InsertedSame(m, m1, State(), e, PDX(va), PTX(va), Word(page, perm));
      return 0;
    }

    method SysPageAlloc(target: EnvResult, va: nat, perm: Flags) returns (r: int)
      requires Valid() && (target.Found? ==> target.e in dirs)
      modifies `frames, `refs, `link, `head, `held, `free, `inflight
      ensures Valid() && held == old(held) && inflight == old(inflight)
      ensures r == (
        if va >= UTOP || va % PGSIZE != 0 || !SyscallPerm(perm) then -E_INVAL
        else if target.BadEnv? then -E_BAD_ENV
        else if NoRoom(old(free), old(Live(State(), Table(target.e, PDX(va))))) then -E_NO_MEM
        else 0)
      ensures r != 0 ==> SameRefs(old(State()), State()) && refs == old(refs) && free == old(free)
      ensures r == 0 ==>
        && Inserted(old(State()), State(), target.e, PDX(va), PTX(va), Word(old(free)[0], perm))
        && old(free)[0] < |frames| && frames[old(free)[0]] == ZERO_PAGE
    {
      if va >= UTOP || va % PGSIZE != 0 {
        return -E_INVAL;
      }
      if !SyscallPerm(perm) {
        return -E_INVAL;
      }
      if target.BadEnv? {
        return -E_BAD_ENV;
      }
      r := AllocInto(target.e, va, perm);
    }

    // Mapping an absent entry of an existing table, without asking for write access: the
    // call succeeds and maps page 0.
    ghost predicate MapsPageZero(e: nat, va: nat, perm: Flags)
      reads this
    {
      Live(State(), Table(e, PDX(va))) && !Live(State(), Leaf(e, PDX(va), PTX(va))) && !perm.w
    }

    // The page mapped at va can be counted once more in sixteen bits.
    ghost predicate CountHasRoom(e: nat, va: nat)
      reads this
    {
      var q := Pte(State(), e, PDX(va), PTX(va)).ppn; q < |refs| && refs[q] < 0xFFFF
    }

    // The two page-table checks of sys_page_map.
    method SourcePage(src: nat, srcva: nat, perm: Flags) returns (ok: bool, pp: nat)
      requires Valid() && src in dirs && srcva < UTOP
      ensures ok == (Live(State(), Table(src, PDX(srcva))) && (perm.w ==> Pte(State(), src, PDX(srcva), PTX(srcva)).flags.w))
      ensures ok ==> pp == Pte(State(), src, PDX(srcva), PTX(srcva)).ppn < |refs|
      ensures ok && MapsPageZero(src, srcva, perm) ==> pp == 0
      ensures ok && !MapsPageZero(src, srcva, perm) ==>
        if CountHasRoom(src, srcva) then Placeable(pp) && pp !in inflight else FullCount(pp)
    {
      UserAddress(srcva);
      var found, pte := PageLookup(src, srcva);
      if !found || (!pte.flags.w && perm.w) {
        return false, 0;
      }
      EntryTarget(State(), reserved, held, src, PDX(srcva), PTX(srcva));
      AbsentIsZero(State(), reserved, held, src, PDX(srcva), PTX(srcva));
      return true, pte.ppn;
    }

    // sys_page_map once its arguments are accepted.
    method MapInto(src: nat, srcva: nat, dst: nat, dstva: nat, perm: Flags) returns (r: int)
      requires Valid() && src in dirs && dst in dirs && srcva < UTOP && dstva < UTOP && SyscallPerm(perm)
      modifies `frames, `refs, `link, `head, `held, `free, `inflight
      ensures held == old(held)
      ensures var q := old(Pte(State(), src, PDX(srcva), PTX(srcva)));
        r == (if !old(Live(State(), Table(src, PDX(srcva)))) || (!q.flags.w && perm.w) then -E_INVAL
              else if old(free) == [] && !old(Live(State(), Table(dst, PDX(dstva)))) then -E_NO_MEM
              else 0)
      ensures r != 0 ==> Valid() && State() == old(State()) && free == old(free) && inflight == old(inflight)
      ensures r == 0 ==>
        var q := old(Pte(State(), src, PDX(srcva), PTX(srcva)));
        State() == Placed(old(State()), dst, PDX(dstva), PTX(dstva), Word(q.ppn, perm), old(free))
      ensures r == 0 && !old(MapsPageZero(src, srcva, perm)) && old(CountHasRoom(src, srcva)) ==>
        var q := old(Pte(State(), src, PDX(srcva), PTX(srcva)));
        && Valid() && inflight == old(inflight)
        && Inserted(old(State()), State(), dst, PDX(dstva), PTX(dstva), Word(q.ppn, perm))
        && DataKept(old(State()), State(), old(free))
      ensures r == 0 && !old(MapsPageZero(src, srcva, perm)) && !old(CountHasRoom(src, srcva)) ==>
        (Valid() <==> old(MappedThere(dst, dstva, Pte(State(), src, PDX(srcva), PTX(srcva)).ppn)))
    {
      var ok, pp := SourcePage(src, srcva, perm);
      if !ok {
        return -E_INVAL;
      }
      assert perm.(p := true) == perm;
      r := PageInsert(dst, pp, dstva, perm);
    }

    // Whatever the caller passes: what sys_page_map answers, what it maps, and when the
    // kernel stays in a good state. It does not when it maps page 0, and with a count that is
    // full it does exactly when the destination maps that page already.
    method SysPageMap(src: EnvResult, srcva: nat, dst: EnvResult, dstva: nat, perm: Flags) returns (r: int)
      requires Valid() && (src.Found? ==> src.e in dirs) && (dst.Found? ==> dst.e in dirs)
      modifies `frames, `refs, `link, `head, `held, `free, `inflight
      ensures !MapArgs(srcva, dstva, perm) ==> r == -E_INVAL
      ensures MapArgs(srcva, dstva, perm) && (src.BadEnv? || dst.BadEnv?) ==> r == -E_BAD_ENV
      ensures MapArgs(srcva, dstva, perm) && src.Found? && dst.Found? ==>
        var q := old(Pte(State(), src.e, PDX(srcva), PTX(srcva)));
        r == if !old(Live(State(), Table(src.e, PDX(srcva)))) || (!q.flags.w && perm.w) then -E_INVAL
             else if old(free) == [] && !old(Live(State(), Table(dst.e, PDX(dstva)))) then -E_NO_MEM
             else 0
      ensures r != 0 ==> Valid() && State() == old(State()) && free == old(free)
      ensures r == 0 && old(MapsPageZero(src.e, srcva, perm)) ==> !Valid()
      ensures r == 0 && !old(MapsPageZero(src.e, srcva, perm)) && old(CountHasRoom(src.e, srcva)) ==>
        && Valid() && held == old(held) && inflight == old(inflight)
        && Inserted(old(State()), State(), dst.e, PDX(dstva), PTX(dstva),
                    Word(old(Pte(State(), src.e, PDX(srcva), PTX(srcva))).ppn, perm))
        && DataKept(old(State()), State(), old(free))
      ensures r == 0 && !old(MapsPageZero(src.e, srcva, perm)) && !old(CountHasRoom(src.e, srcva)) ==>
        (Valid() <==> old(MappedThere(dst.e, dstva, Pte(State(), src.e, PDX(srcva), PTX(srcva)).ppn)))
    {
      if srcva >= UTOP || srcva % PGSIZE != 0 {
        return -E_INVAL;
      }
      if dstva >= UTOP || dstva % PGSIZE != 0 {
        return -E_INVAL;
      }
      if !(perm.u && perm.p) {
        return -E_INVAL;
      }
      if perm.d || perm.other {
        return -E_INVAL;
      }
      if src.BadEnv? {
        return -E_BAD_ENV;
      }
      if dst.BadEnv? {
        return -E_BAD_ENV;
      }
      PlacingZero(src.e, srcva, dst.e, dstva, perm);
      r := MapInto(src.e, srcva, dst.e, dstva, perm);
    }

    // No state that has page 0 mapped is good.
    lemma PlacingZero(src: nat, srcva: nat, dst: nat, dstva: nat, perm: Flags)
      requires Valid() && src in dirs && dst in dirs && srcva < UTOP && dstva < UTOP && SyscallPerm(perm)
      ensures MapsPageZero(src, srcva, perm) && (free != [] || Live(State(), Table(dst, PDX(dstva)))) ==>
        var m' := Placed(State(), dst, PDX(dstva), PTX(dstva), Word(Pte(State(), src, PDX(srcva), PTX(srcva)).ppn, perm), free);
        forall held' :: !Inv(m', reserved, held')
    {
      UserAddress(srcva);
      UserAddress(dstva);
      AbsentIsZero(State(), reserved, held, src, PDX(srcva), PTX(srcva));
      if MapsPageZero(src, srcva, perm) && (free != [] || Live(State(), Table(dst, PDX(dstva)))) {
        PlacedReads(State(), reserved, held, dst, PDX(dstva), PTX(dstva), Word(0, perm), free);
        var m' := Placed(State(), dst, PDX(dstva), PTX(dstva), Word(0, perm), free);
        forall held' ensures !Inv(m', reserved, held') {
          PageZeroMappedBreaks(m', reserved, held', dst, PDX(dstva), PTX(dstva), perm);
        }
      }
    }

    method SysPageUnmap(target: EnvResult, va: nat) returns (r: int)
      requires Valid() && (target.Found? ==> target.e in dirs)
      modifies `frames, `refs, `link, `head, `held, `free, `inflight
      ensures held == old(held) && inflight == old(inflight)
      ensures r == if va >= UTOP || va % PGSIZE != 0 then -E_INVAL else if target.BadEnv? then -E_BAD_ENV else 0
      ensures r != 0 ==> Valid() && State() == old(State()) && free == old(free)
      ensures r == 0 ==>
        && Mapped(old(State()), State(), target.e, PDX(va), PTX(va), ZERO)
        && (old(PageZeroAtRisk(target.e, va)) ==> free == [0] + old(free))
        && (!old(PageZeroAtRisk(target.e, va)) ==> Valid())
    {
      if va >= UTOP || va % PGSIZE != 0 {
        return -E_INVAL;
      }
      if target.BadEnv? {
        return -E_BAD_ENV;
      }
      UserAddress(va);
      RemovedGood(State(), reserved, held, target.e, PDX(va), PTX(va));
      AbsentIsZero(State(), reserved, held, target.e, PDX(va), PTX(va));
      PageRemove(target.e, va);
      return 0;
    }
  }
}
