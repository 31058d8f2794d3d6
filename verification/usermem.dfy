/** The check a system call makes on the memory a user program points it to. */
module UserMem {
  import opened Mmu

  const W: nat := 0x1_0000_0000
  const ULIM: nat := 0xef80_0000
  const E_FAULT: int := 6

  type U32 = x: nat | x < W

  function RoundDown(a: U32): U32 { a - a % PGSIZE }

  // In 32-bit arithmetic: addresses in the last page round up to 0.
  function RoundUp(a: U32): U32 { RoundDown((a + PGSIZE - 1) % W) }

  predicate Has(flags: Flags, perm: Flags) {
    && (perm.p ==> flags.p) && (perm.w ==> flags.w) && (perm.u ==> flags.u) && (perm.cow ==> flags.cow)
    && (perm.share ==> flags.share) && (perm.avail ==> flags.avail) && (perm.d ==> flags.d) && (perm.other ==> flags.other)
  }

  // Page p may be used with these permissions; absent entries are not in the map.
  predicate Usable(pages: map<nat, Flags>, p: nat, perm: Flags) {
    p in pages && p * PGSIZE < ULIM && Has(pages[p], perm) && pages[p].p
  }

  // Page p has a byte of [va, va + len).
  predicate Touches(p: nat, va: nat, len: nat) { p * PGSIZE < va + len && va < (p + 1) * PGSIZE }

  // user_mem_check, with user_mem_check_addr as `bad`. It looks at every page from the one
  // va is in up to the rounded-up end.
  method UserMemCheck(pages: map<nat, Flags>, va: U32, len: U32, perm: Flags) returns (r: int, bad: nat)
    ensures r == 0 || r == -E_FAULT
    ensures r == 0 <==> forall p: nat :: RoundDown(va) <= p * PGSIZE < RoundUp((va + len) % W) ==> Usable(pages, p, perm)
    ensures r != 0 ==>
      && va <= bad && !Usable(pages, bad / PGSIZE, perm)
      && forall p: nat :: RoundDown(va) <= p * PGSIZE && p < bad / PGSIZE ==> Usable(pages, p, perm)
  {
    var start, end := RoundDown(va), RoundUp((va + len) % W);
    bad := 0;
    while start < end
      invariant start % PGSIZE == 0 && RoundDown(va) <= start
      invariant forall p: nat :: RoundDown(va) <= p * PGSIZE < start ==> Usable(pages, p, perm)
      decreases end - start
    {
      var p := start / PGSIZE;
      assert p * PGSIZE == start;
      if p !in pages || start >= ULIM || !Has(pages[p], perm) || !pages[p].p {
        bad := if start < va then va else start;
        assert bad / PGSIZE == p && !Usable(pages, p, perm);
        return -E_FAULT, bad;
      }
      start := start + PGSIZE;
    }
    return 0, bad;
  }

  // What it looks at are the pages of a nonempty range exactly if the range, rounded up,
  // does not run past the top of the address space.
  lemma LooksAtWholeRange(va: U32, len: U32)
    requires len > 0
    ensures (forall p: nat :: RoundDown(va) <= p * PGSIZE < RoundUp((va + len) % W) <==> Touches(p, va, len))
      <==> va + len + PGSIZE - 1 < W
  {
    var first := va / PGSIZE;
    assert Touches(first, va, len);
    assert first * PGSIZE == RoundDown(va);
    if va + len + PGSIZE - 1 < W {
      forall p: nat | true
        ensures RoundDown(va) <= p * PGSIZE < RoundUp((va + len) % W) <==> Touches(p, va, len)
      {
        InRange(va, len, p);
      }
    } else {
      var last := (va + len - 1) / PGSIZE;
      assert Touches(last, va, len);
      WrapsPast(va, len);
    }
  }

  lemma InRange(va: U32, len: U32, p: nat)
    requires va + len + PGSIZE - 1 < W && len > 0
    ensures RoundDown(va) <= p * PGSIZE < RoundUp((va + len) % W) <==> Touches(p, va, len)
  {}

  lemma WrapsPast(va: U32, len: U32)
    requires va + len + PGSIZE - 1 >= W && len > 0
    ensures (va + len - 1) / PGSIZE * PGSIZE >= RoundUp((va + len) % W)
  {}
}
