/** Page-table entries and the layout of the 32-bit address space. */
module Mmu {
  const PGSIZE: nat := 4096
  const NENTRIES: nat := 1024
  const PTSIZE: nat := 0x40_0000
  const UTOP: nat := 0xeec0_0000
  const UVPT: nat := 0xef40_0000
  // PDX(UTOP): directory entries below this index describe user memory.
  const USER_PDES: nat := 955
  const USER_PAGES: nat := 977920

  // The twelve low bits of an entry. `avail` is the remaining software bit 0x200,
  // `other` stands for any of PWT, PCD, A, PS and G.
  datatype Flags = Flags(p: bool, w: bool, u: bool, cow: bool, share: bool, avail: bool, d: bool, other: bool)

  const NO_FLAGS := Flags(false, false, false, false, false, false, false, false)
  const PTE_PWU := Flags(true, true, true, false, false, false, false, false)
  const PTE_PU := Flags(true, false, true, false, false, false, false, false)

  // A 32-bit word, split into bits 31..12 and bits 11..0.
  datatype Word = Word(ppn: nat, flags: Flags)

  const ZERO := Word(0, NO_FLAGS)

  // (perm & (PTE_U | PTE_P)) == (PTE_U | PTE_P) && (perm & ~PTE_SYSCALL) == 0
  predicate SyscallPerm(perm: Flags) {
    perm.u && perm.p && !perm.d && !perm.other
  }

  function PDX(va: nat): nat { va / PTSIZE % NENTRIES }

  function PTX(va: nat): nat { va / PGSIZE % NENTRIES }

  function PGNUM(va: nat): nat { va / PGSIZE }

  lemma UserAddress(va: nat)
    requires va < UTOP
    ensures PDX(va) < USER_PDES && PTX(va) < NENTRIES
    ensures PGNUM(va) == PDX(va) * NENTRIES + PTX(va) < USER_PAGES
  {
    assert va / PTSIZE == va / PGSIZE / NENTRIES;
  }

  // PGADDR(pdx, ptx, 0)
  function PGADDR(pdx: nat, ptx: nat): nat { pdx * PTSIZE + ptx * PGSIZE }

  lemma PageAddress(i: nat, j: nat)
    requires i < USER_PDES && j < NENTRIES
    ensures PGADDR(i, j) < UTOP && PDX(PGADDR(i, j)) == i && PTX(PGADDR(i, j)) == j
  {
    assert PGADDR(i, j) == (i * NENTRIES + j) * PGSIZE;
    assert PGADDR(i, j) / PGSIZE == i * NENTRIES + j;
    assert PGADDR(i, j) / PTSIZE == i;
  }
}
