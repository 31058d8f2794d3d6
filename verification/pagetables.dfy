/** Physical memory as a value: page contents, reference counts and page directories,
    with the global counting invariant and the effect of each elementary write. */
module PageTables {
  import opened Mmu

  datatype Mem = Mem(
    frames: seq<seq<Word>>,  // what each physical page holds
    refs: seq<nat>,          // pp_ref
    dirs: map<nat, nat>)     // environment slot -> page of its env_pgdir

  // The references that pp_ref is meant to count.
  datatype Ref = Leaf(e: nat, i: nat, j: nat) | Table(e: nat, i: nat) | Dir(e: nat)

  function At(m: Mem, p: nat, k: nat): Word {
    if p < |m.frames| && k < |m.frames[p]| then m.frames[p][k] else ZERO
  }

  function Pde(m: Mem, e: nat, i: nat): Word {
    if e in m.dirs then At(m, m.dirs[e], i) else ZERO
  }

  function Pte(m: Mem, e: nat, i: nat, j: nat): Word {
    if Pde(m, e, i).flags.p then At(m, Pde(m, e, i).ppn, j) else ZERO
  }

  predicate Live(m: Mem, r: Ref) {
    match r
    case Dir(e) => e in m.dirs
    case Table(e, i) => e in m.dirs && i < USER_PDES && Pde(m, e, i).flags.p
    case Leaf(e, i, j) => e in m.dirs && i < USER_PDES && j < NENTRIES && Pte(m, e, i, j).flags.p
  }

  // The page a live reference names.
  function Names(m: Mem, r: Ref): nat {
    match r
    case Dir(e) => if e in m.dirs then m.dirs[e] else 0
    case Table(e, i) => Pde(m, e, i).ppn
    case Leaf(e, i, j) => Pte(m, e, i, j).ppn
  }

  ghost function Slots(dirs: map<nat, nat>): set<Ref> {
    (set e | e in dirs :: Dir(e)) +
    (set e, i | e in dirs && 0 <= i < USER_PDES :: Table(e, i)) +
    (set e, i, j | e in dirs && 0 <= i < USER_PDES && 0 <= j < NENTRIES :: Leaf(e, i, j))
  }

  ghost function RefsTo(m: Mem, p: nat): set<Ref> {
    set r | r in Slots(m.dirs) && Live(m, r) && Names(m, r) == p
  }

  // User mappings of environment e, as a finite map on page numbers.
  ghost function View(m: Mem, e: nat): map<nat, Word> {
    map v: nat | 0 <= v < USER_PAGES && Live(m, Leaf(e, v / NENTRIES, v % NENTRIES))
      :: Pte(m, e, v / NENTRIES, v % NENTRIES)
  }

  ghost predicate Shape(m: Mem) {
    && |m.refs| == |m.frames|
    && (forall p :: 0 <= p < |m.frames| ==> |m.frames[p]| == NENTRIES)
  }

  // Entries are zero or present; only leaves share their target; nothing names a
  // page the kernel reserved.
  ghost predicate Structure(m: Mem, reserved: set<nat>) {
    && Shape(m)
    && (forall e: nat, i: nat :: e in m.dirs && i < USER_PDES && !Live(m, Table(e, i)) ==> Pde(m, e, i) == ZERO)
    && (forall e: nat, i: nat, j: nat :: Live(m, Table(e, i)) && j < NENTRIES && !Live(m, Leaf(e, i, j)) ==> Pte(m, e, i, j) == ZERO)
    && (forall r {:trigger Names(m, r)} :: Live(m, r) ==> Names(m, r) < |m.frames| && Names(m, r) !in reserved)
    && (forall r, s {:trigger Names(m, r), Names(m, s)} :: Live(m, r) && Live(m, s) && Names(m, r) == Names(m, s) ==> r == s || (r.Leaf? && s.Leaf?))
  }

  // `held` are references the kernel itself holds: its own page tables, and pages
  // whose count it has raised or not yet lowered.
  ghost predicate Counted(m: Mem, reserved: set<nat>, held: multiset<nat>) {
    && Shape(m)
    && (forall p :: 0 <= p < |m.refs| ==> m.refs[p] < 0x1_0000)
    && (forall p {:trigger RefsTo(m, p)} :: 0 <= p < |m.refs| && p !in reserved ==> m.refs[p] == |RefsTo(m, p)| + held[p])
  }

  ghost predicate Inv(m: Mem, reserved: set<nat>, held: multiset<nat>) {
    && 0 in reserved
    && Structure(m, reserved)
    && Counted(m, reserved, held)
  }

  function Store(m: Mem, p: nat, k: nat, w: Word): Mem {
    if p < |m.frames| && k < |m.frames[p]| then m.(frames := m.frames[p := m.frames[p][k := w]]) else m
  }

  lemma RefsToIff(m: Mem, r: Ref, p: nat)
    ensures r in RefsTo(m, p) <==> Live(m, r) && Names(m, r) == p
  {}

  // Two memories that agree on every reference but x give the same sets but for x.
  lemma RefsDiffer(m: Mem, m': Mem, x: Ref, p: nat)
    requires forall r :: r != x ==> Live(m', r) == Live(m, r)
    requires forall r :: r != x && Live(m, r) ==> Names(m', r) == Names(m, r)
    ensures |RefsTo(m', p)| ==
            |RefsTo(m, p)| - (if Live(m, x) && Names(m, x) == p then 1 else 0)
                           + (if Live(m', x) && Names(m', x) == p then 1 else 0)
  {
    var rest := RefsTo(m, p) - {x};
    assert RefsTo(m', p) - {x} == rest by {
      forall r ensures r in RefsTo(m', p) - {x} <==> r in rest {
        RefsToIff(m, r, p);
        RefsToIff(m', r, p);
      }
    }
    RefsToIff(m, x, p);
    RefsToIff(m', x, p);
    assert x in RefsTo(m, p) ==> RefsTo(m, p) == rest + {x};
    assert x !in RefsTo(m, p) ==> RefsTo(m, p) == rest;
    assert x in RefsTo(m', p) ==> RefsTo(m', p) == rest + {x};
    assert x !in RefsTo(m', p) ==> RefsTo(m', p) == rest;
  }

  // Page p is named by no directory and by no directory entry.
  ghost predicate OnlyLeaves(m: Mem, p: nat) {
    forall r :: Live(m, r) && Names(m, r) == p ==> r.Leaf?
  }

  // m' has every reference of m but possibly x, and no other.
  ghost predicate SameBut(m: Mem, m': Mem, x: Ref) {
    && (forall r {:trigger Live(m', r)} :: r != x ==> Live(m', r) == Live(m, r))
    && (forall r :: r != x && Live(m, r) ==> Names(m', r) == Names(m, r))
  }

  ghost predicate SameRefs(m: Mem, m': Mem) {
    && m'.dirs == m.dirs
    && (forall r {:trigger Live(m', r)} :: Live(m', r) == Live(m, r))
    && (forall e: nat, i: nat {:trigger Pde(m', e, i)} :: i < USER_PDES ==> Pde(m', e, i) == Pde(m, e, i))
    && (forall e: nat, i: nat, j: nat {:trigger Pte(m', e, i, j)} ::
          i < USER_PDES && j < NENTRIES ==> Pte(m', e, i, j) == Pte(m, e, i, j))
  }

  // A store into a page that is neither a directory nor a page table changes no mapping
  // of any environment: user data can never be mistaken for a page table.
  lemma StoreData(m: Mem, reserved: set<nat>, p: nat, frame: seq<Word>)
    requires Structure(m, reserved) && OnlyLeaves(m, p)
    requires p < |m.frames| && |frame| == NENTRIES
    ensures var m' := m.(frames := m.frames[p := frame]);
            SameRefs(m, m') && Structure(m', reserved)
  {
    var m' := m.(frames := m.frames[p := frame]);
    forall e: nat, i: nat | i < USER_PDES ensures Pde(m', e, i) == Pde(m, e, i) {
      if e in m.dirs { assert Live(m, Dir(e)) && Names(m, Dir(e)) == m.dirs[e]; }
    }
    forall e: nat, i: nat, j: nat | i < USER_PDES && j < NENTRIES ensures Pte(m', e, i, j) == Pte(m, e, i, j) {
      if Pde(m, e, i).flags.p { assert Live(m, Table(e, i)) && Names(m, Table(e, i)) == Pde(m, e, i).ppn; }
    }
    forall r ensures Live(m', r) == Live(m, r) && (Live(m, r) ==> Names(m', r) == Names(m, r)) {
    }
  }

  lemma StoreLeaf(m: Mem, reserved: set<nat>, e: nat, i: nat, j: nat, w: Word)
    requires Structure(m, reserved) && Live(m, Table(e, i)) && j < NENTRIES
    requires w == ZERO || (w.flags.p && w.ppn < |m.frames| && w.ppn !in reserved && OnlyLeaves(m, w.ppn))
    ensures var m' := Store(m, Pde(m, e, i).ppn, j, w);
            && SameBut(m, m', Leaf(e, i, j)) && Structure(m', reserved)
            && Pte(m', e, i, j) == w
            && (forall e': nat, i': nat, j': nat :: i' < USER_PDES && j' < NENTRIES && (e', i', j') != (e, i, j)
                 ==> Pte(m', e', i', j') == Pte(m, e', i', j'))
  {
    var t := Pde(m, e, i).ppn;
    var m' := Store(m, t, j, w);
    assert Names(m, Table(e, i)) == t;
    forall e': nat, i': nat | i' < USER_PDES ensures Pde(m', e', i') == Pde(m, e', i') {
      if e' in m.dirs { assert Live(m, Dir(e')) && Names(m, Dir(e')) == m.dirs[e']; }
    }
    forall e': nat, i': nat, j': nat | i' < USER_PDES && j' < NENTRIES && (e', i', j') != (e, i, j)
      ensures Pte(m', e', i', j') == Pte(m, e', i', j')
    {
      if Pde(m, e', i').flags.p { assert Live(m, Table(e', i')) && Names(m, Table(e', i')) == Pde(m, e', i').ppn; }
    }
    forall r | r != Leaf(e, i, j)
      ensures Live(m', r) == Live(m, r) && (Live(m, r) ==> Names(m', r) == Names(m, r)) {
    }
  }

  // No live reference names page p.
  ghost predicate Unnamed(m: Mem, p: nat) {
    forall r :: Live(m, r) ==> Names(m, r) != p
  }

  lemma StoreTable(m: Mem, reserved: set<nat>, e: nat, i: nat, t: nat)
    requires 0 in reserved && Structure(m, reserved) && e in m.dirs && i < USER_PDES && !Live(m, Table(e, i))
    requires t < |m.frames| && t !in reserved && Unnamed(m, t)
    requires forall k :: 0 <= k < NENTRIES ==> m.frames[t][k] == ZERO
    requires m.dirs[e] < |m.frames|
    ensures var m' := Store(m, m.dirs[e], i, Word(t, PTE_PWU));
            && SameBut(m, m', Table(e, i)) && Structure(m', reserved)
            && Live(m', Table(e, i)) && Names(m', Table(e, i)) == t
            && (forall e': nat, i': nat, j': nat :: i' < USER_PDES && j' < NENTRIES
                 ==> Pte(m', e', i', j') == Pte(m, e', i', j'))
  {
    var m' := Store(m, m.dirs[e], i, Word(t, PTE_PWU));
    assert Live(m, Dir(e)) && Names(m, Dir(e)) == m.dirs[e];
    forall e': nat, i': nat | i' < USER_PDES && (e', i') != (e, i) ensures Pde(m', e', i') == Pde(m, e', i') {
      if e' in m.dirs { assert Live(m, Dir(e')) && Names(m, Dir(e')) == m.dirs[e']; }
    }
    forall e': nat, i': nat, j': nat | i' < USER_PDES && j' < NENTRIES
      ensures Pte(m', e', i', j') == Pte(m, e', i', j')
    {
      if Pde(m, e', i').flags.p { assert Live(m, Table(e', i')) && Names(m, Table(e', i')) == Pde(m, e', i').ppn; }
    }
    forall r | r != Table(e, i)
      ensures Live(m', r) == Live(m, r) && (Live(m, r) ==> Names(m', r) == Names(m, r)) {
    }
  }

  lemma ClearTable(m: Mem, reserved: set<nat>, e: nat, i: nat)
    requires Structure(m, reserved) && Live(m, Table(e, i)) && m.dirs[e] < |m.frames|
    requires forall j :: 0 <= j < NENTRIES ==> !Live(m, Leaf(e, i, j))
    ensures var m' := Store(m, m.dirs[e], i, ZERO);
            && SameBut(m, m', Table(e, i)) && Structure(m', reserved) && !Live(m', Table(e, i))
            && (forall e': nat, i': nat, j': nat :: i' < USER_PDES && j' < NENTRIES
                 ==> Pte(m', e', i', j') == Pte(m, e', i', j'))
  {
    var m' := Store(m, m.dirs[e], i, ZERO);
    assert Live(m, Dir(e)) && Names(m, Dir(e)) == m.dirs[e];
    forall e': nat, i': nat | i' < USER_PDES && (e', i') != (e, i) ensures Pde(m', e', i') == Pde(m, e', i') {
      if e' in m.dirs { assert Live(m, Dir(e')) && Names(m, Dir(e')) == m.dirs[e']; }
    }
    forall e': nat, i': nat, j': nat | i' < USER_PDES && j' < NENTRIES
      ensures Pte(m', e', i', j') == Pte(m, e', i', j')
    {
      if (e', i') == (e, i) {
        assert !Live(m, Leaf(e, i, j'));
      } else if Pde(m, e', i').flags.p {
        assert Live(m, Table(e', i')) && Names(m, Table(e', i')) == Pde(m, e', i').ppn;
      }
    }
    forall r | r != Table(e, i)
      ensures Live(m', r) == Live(m, r) && (Live(m, r) ==> Names(m', r) == Names(m, r)) {
    }
  }

  lemma AddDir(m: Mem, reserved: set<nat>, e: nat, d: nat)
    requires Structure(m, reserved) && e !in m.dirs
    requires d < |m.frames| && d !in reserved && Unnamed(m, d)
    requires forall k :: 0 <= k < USER_PDES ==> m.frames[d][k] == ZERO
    ensures var m' := m.(dirs := m.dirs[e := d]);
            && SameBut(m, m', Dir(e)) && Structure(m', reserved)
            && (forall e': nat, i': nat, j': nat :: i' < USER_PDES && j' < NENTRIES
                 ==> Pte(m', e', i', j') == Pte(m, e', i', j'))
  {
    var m' := m.(dirs := m.dirs[e := d]);
    forall r | r != Dir(e)
      ensures Live(m', r) == Live(m, r) && (Live(m, r) ==> Names(m', r) == Names(m, r)) {
    }
  }

  lemma RemoveDir(m: Mem, reserved: set<nat>, e: nat)
    requires Structure(m, reserved) && e in m.dirs
    requires forall i :: 0 <= i < USER_PDES ==> !Live(m, Table(e, i))
    ensures var m' := m.(dirs := m.dirs - {e});
            && SameBut(m, m', Dir(e)) && Structure(m', reserved)
            && (forall e': nat, i': nat, j': nat :: i' < USER_PDES && j' < NENTRIES
                 ==> Pte(m', e', i', j') == Pte(m, e', i', j'))
  {
    var m' := m.(dirs := m.dirs - {e});
    forall e': nat, i': nat, j': nat | i' < USER_PDES && j' < NENTRIES
      ensures Pte(m', e', i', j') == Pte(m, e', i', j')
    {
      if e' == e { assert !Live(m, Table(e, i')); }
    }
    forall r | r != Dir(e)
      ensures Live(m', r) == Live(m, r) && (Live(m, r) ==> Names(m', r) == Names(m, r)) {
      match r
      case Dir(e') =>
      case Table(e', i) => if e' == e && i < USER_PDES { assert !Live(m, Table(e, i)); }
      case Leaf(e', i, j) => if e' == e && i < USER_PDES { assert !Live(m, Table(e, i)); }
    }
  }

  // ---- Reference counts ----

  function Named(m: Mem, x: Ref): multiset<nat> {
    if Live(m, x) then multiset{Names(m, x)} else multiset{}
  }

  // Moving one reference between the tables and the kernel's hands keeps every count exact.
  lemma Recount(m: Mem, m': Mem, reserved: set<nat>, held: multiset<nat>, x: Ref)
    requires Counted(m, reserved, held) && SameBut(m, m', x) && Shape(m') && m'.refs == m.refs
    requires Live(m', x) ==> held[Names(m', x)] > 0
    ensures Counted(m', reserved, held + Named(m, x) - Named(m', x))
  {
    forall p | 0 <= p < |m'.refs| && p !in reserved
      ensures m'.refs[p] == |RefsTo(m', p)| + (held + Named(m, x) - Named(m', x))[p]
    {
      RefsDiffer(m, m', x, p);
    }
  }

  lemma RefsSame(m: Mem, m': Mem, p: nat)
    requires SameRefs(m, m')
    ensures RefsTo(m', p) == RefsTo(m, p)
  {
    forall r ensures r in RefsTo(m', p) <==> r in RefsTo(m, p) {
      RefsToIff(m, r, p);
      RefsToIff(m', r, p);
    }
  }

  lemma UnnamedWhenZero(m: Mem, reserved: set<nat>, held: multiset<nat>, p: nat)
    requires Inv(m, reserved, held) && p < |m.refs| && p !in reserved && (m.refs[p] == held[p] || m.refs[p] == 0)
    ensures Unnamed(m, p)
  {
    assert |RefsTo(m, p)| == 0;
    forall r | Live(m, r) ensures Names(m, r) != p {
      RefsToIff(m, r, p);
    }
  }

  lemma NamedIsReferenced(m: Mem, reserved: set<nat>, held: multiset<nat>, r: Ref)
    requires Inv(m, reserved, held) && Live(m, r)
    ensures Names(m, r) < |m.refs| && m.refs[Names(m, r)] > held[Names(m, r)]
  {
    RefsToIff(m, r, Names(m, r));
    assert r in RefsTo(m, Names(m, r));
  }

  // The count field has sixteen bits: raising it keeps the counts exact just when it
  // does not already hold its largest value.
  function Raise(m: Mem, p: nat): Mem {
    if p < |m.refs| then m.(refs := m.refs[p := (m.refs[p] + 1) % 0x1_0000]) else m
  }

  function Lower(m: Mem, p: nat): Mem {
    if p < |m.refs| then m.(refs := m.refs[p := (m.refs[p] + 0xFFFF) % 0x1_0000]) else m
  }

  // Changing only the counts changes no reference.
  lemma CountsOnly(m: Mem, refs: seq<nat>, reserved: set<nat>)
    requires Structure(m, reserved) && |refs| == |m.refs|
    ensures SameRefs(m, m.(refs := refs)) && Structure(m.(refs := refs), reserved)
    ensures forall p :: RefsTo(m.(refs := refs), p) == RefsTo(m, p)
  {
    var m' := m.(refs := refs);
    forall r ensures Live(m', r) == Live(m, r) && Names(m', r) == Names(m, r) {}
    forall p ensures RefsTo(m', p) == RefsTo(m, p) { RefsSame(m, m', p); }
  }

  lemma RaiseExact(m: Mem, reserved: set<nat>, held: multiset<nat>, p: nat)
    requires Inv(m, reserved, held) && p < |m.refs| && p !in reserved
    ensures Inv(Raise(m, p), reserved, held + multiset{p}) <==> m.refs[p] < 0xFFFF
    ensures SameRefs(m, Raise(m, p))
  {
    CountsOnly(m, Raise(m, p).refs, reserved);
    if m.refs[p] == 0xFFFF {
      assert (held + multiset{p})[p] > 0 && |RefsTo(Raise(m, p), p)| >= 0;
    } else {
      assert Counted(Raise(m, p), reserved, held + multiset{p});
    }
  }

  lemma LowerExact(m: Mem, reserved: set<nat>, held: multiset<nat>, p: nat)
    requires Inv(m, reserved, held) && p < |m.refs| && (p in reserved || held[p] > 0)
    ensures Inv(Lower(m, p), reserved, held - multiset{p})
    ensures SameRefs(m, Lower(m, p))
    ensures p !in reserved ==> m.refs[p] > 0 && Lower(m, p).refs == m.refs[p := m.refs[p] - 1]
    ensures 0 in reserved && (Lower(m, p).refs[p] == 0 <==> m.refs[p] == 1)
  {
    CountsOnly(m, Lower(m, p).refs, reserved);
    assert |RefsTo(m, p)| >= 0;
    assert Counted(Lower(m, p), reserved, held - multiset{p});
  }

  // ---- Elementary steps of the kernel, from one good memory to the next ----

  // Every mapping of every environment is the same.
  ghost predicate SameMappings(m: Mem, m': Mem) {
    forall e: nat, i: nat, j: nat {:trigger Pte(m', e, i, j)} ::
      i < USER_PDES && j < NENTRIES ==> Pte(m', e, i, j) == Pte(m, e, i, j)
  }

  // ... except perhaps page (i, j) of environment e.
  ghost predicate SameMappingsBut(m: Mem, m': Mem, e: nat, i: nat, j: nat) {
    forall e': nat, i': nat, j': nat {:trigger Pte(m', e', i', j')} ::
      i' < USER_PDES && j' < NENTRIES && (e', i', j') != (e, i, j) ==> Pte(m', e', i', j') == Pte(m, e', i', j')
  }

  // Page (i, j) of environment e now holds w, and nothing else changed.
  ghost predicate Mapped(m: Mem, m': Mem, e: nat, i: nat, j: nat, w: Word) {
    SameBut(m, m', Leaf(e, i, j)) && SameMappingsBut(m, m', e, i, j) && Pte(m', e, i, j) == w
  }

  lemma MappedThenSame(m: Mem, m1: Mem, m2: Mem, e: nat, i: nat, j: nat, w: Word)
    requires Mapped(m, m1, e, i, j, w) && SameRefs(m1, m2) && i < USER_PDES && j < NENTRIES
    ensures Mapped(m, m2, e, i, j, w)
  {}

  lemma SameThenMapped(m: Mem, m1: Mem, m2: Mem, e: nat, i: nat, j: nat, w: Word)
    requires SameRefs(m, m1) && Mapped(m1, m2, e, i, j, w) && i < USER_PDES && j < NENTRIES
    ensures Mapped(m, m2, e, i, j, w)
  {}

  lemma StepData(m: Mem, reserved: set<nat>, held: multiset<nat>, p: nat, frame: seq<Word>)
    requires Inv(m, reserved, held) && p < |m.frames| && OnlyLeaves(m, p) && |frame| == NENTRIES
    ensures Inv(m.(frames := m.frames[p := frame]), reserved, held)
    ensures SameRefs(m, m.(frames := m.frames[p := frame]))
  {
    var m' := m.(frames := m.frames[p := frame]);
    StoreData(m, reserved, p, frame);
    forall q ensures RefsTo(m', q) == RefsTo(m, q) { RefsSame(m, m', q); }
  }

  // What the kernel holds after the word q was replaced by w.
  function Handed(held: multiset<nat>, q: Word, w: Word): multiset<nat> {
    var h := if q.flags.p then held + multiset{q.ppn} else held;
    if w.flags.p then h - multiset{w.ppn} else h
  }

  lemma Cancel(h: multiset<nat>, p: nat)
    ensures h + multiset{p} - multiset{p} == h
    ensures h[p] == 0 ==> h - multiset{p} == h
  {}

  lemma StepLeaf(m: Mem, reserved: set<nat>, held: multiset<nat>, e: nat, i: nat, j: nat, w: Word)
    requires Inv(m, reserved, held) && Live(m, Table(e, i)) && j < NENTRIES
    requires w == ZERO || (w.flags.p && w.ppn < |m.frames| && w.ppn !in reserved && OnlyLeaves(m, w.ppn) && held[w.ppn] > 0)
    ensures Pde(m, e, i).ppn < |m.frames| && |m.frames[Pde(m, e, i).ppn]| == NENTRIES
    ensures var m' := Store(m, Pde(m, e, i).ppn, j, w);
            && Inv(m', reserved, Handed(held, Pte(m, e, i, j), w))
            && Mapped(m, m', e, i, j, w)
  {
    assert Names(m, Table(e, i)) == Pde(m, e, i).ppn;
    var m' := Store(m, Pde(m, e, i).ppn, j, w);
    StoreLeaf(m, reserved, e, i, j, w);
    Recount(m, m', reserved, held, Leaf(e, i, j));
    assert held + Named(m, Leaf(e, i, j)) - Named(m', Leaf(e, i, j)) == Handed(held, Pte(m, e, i, j), w);
  }

  lemma StepNewTable(m: Mem, reserved: set<nat>, held: multiset<nat>, e: nat, i: nat, t: nat)
    requires Inv(m, reserved, held) && e in m.dirs && i < USER_PDES && !Live(m, Table(e, i))
    requires t < |m.frames| && t !in reserved && m.refs[t] == 0
    requires m.frames[t] == seq(NENTRIES, _ => ZERO)
    ensures m.dirs[e] < |m.frames| && |m.frames[m.dirs[e]]| == NENTRIES
    ensures var m' := Store(Raise(m, t), m.dirs[e], i, Word(t, PTE_PWU));
            && Inv(m', reserved, held) && SameBut(m, m', Table(e, i)) && SameMappings(m, m')
            && Live(m', Table(e, i)) && Names(m', Table(e, i)) == t
  {
    assert Live(m, Dir(e)) && Names(m, Dir(e)) == m.dirs[e];
    RaiseExact(m, reserved, held, t);
    UnnamedWhenZero(m, reserved, held, t);
    var m1 := Raise(m, t);
    assert Unnamed(m1, t);
    StoreTable(m1, reserved, e, i, t);
    var m' := Store(m1, m.dirs[e], i, Word(t, PTE_PWU));
    var h := held + multiset{t};
    Recount(m1, m', reserved, h, Table(e, i));
    assert h + Named(m1, Table(e, i)) - Named(m', Table(e, i)) == held;
  }

  lemma StepClearTable(m: Mem, reserved: set<nat>, held: multiset<nat>, e: nat, i: nat)
    requires Inv(m, reserved, held) && Live(m, Table(e, i))
    requires forall j :: 0 <= j < NENTRIES ==> !Live(m, Leaf(e, i, j))
    ensures m.dirs[e] < |m.frames| && |m.frames[m.dirs[e]]| == NENTRIES
    ensures var m' := Store(m, m.dirs[e], i, ZERO);
            && Inv(m', reserved, held + multiset{Pde(m, e, i).ppn})
            && SameBut(m, m', Table(e, i)) && !Live(m', Table(e, i)) && SameMappings(m, m')
  {
    assert Live(m, Dir(e)) && Names(m, Dir(e)) == m.dirs[e];
    ClearTable(m, reserved, e, i);
    var m' := Store(m, m.dirs[e], i, ZERO);
    Recount(m, m', reserved, held, Table(e, i));
    assert held + Named(m, Table(e, i)) - Named(m', Table(e, i)) == held + multiset{Pde(m, e, i).ppn};
  }

  lemma StepAddDir(m: Mem, reserved: set<nat>, held: multiset<nat>, e: nat, d: nat)
    requires Inv(m, reserved, held) && e !in m.dirs
    requires d < |m.frames| && d !in reserved && m.refs[d] == 0
    requires forall k :: 0 <= k < USER_PDES ==> m.frames[d][k] == ZERO
    ensures var m' := Raise(m, d).(dirs := m.dirs[e := d]);
            Inv(m', reserved, held) && SameBut(m, m', Dir(e)) && SameMappings(m, m')
  {
    RaiseExact(m, reserved, held, d);
    UnnamedWhenZero(m, reserved, held, d);
    var m1 := Raise(m, d);
    assert Unnamed(m1, d);
    AddDir(m1, reserved, e, d);
    var m' := m1.(dirs := m.dirs[e := d]);
    var h := held + multiset{d};
    Recount(m1, m', reserved, h, Dir(e));
    assert h + Named(m1, Dir(e)) - Named(m', Dir(e)) == held;
  }

  lemma StepRemoveDir(m: Mem, reserved: set<nat>, held: multiset<nat>, e: nat)
    requires Inv(m, reserved, held) && e in m.dirs
    requires forall i :: 0 <= i < USER_PDES ==> !Live(m, Table(e, i))
    ensures var m' := m.(dirs := m.dirs - {e});
            && Inv(m', reserved, held + multiset{m.dirs[e]})
            && SameBut(m, m', Dir(e)) && SameMappings(m, m')
  {
    RemoveDir(m, reserved, e);
    var m' := m.(dirs := m.dirs - {e});
    Recount(m, m', reserved, held, Dir(e));
    assert held + Named(m, Dir(e)) - Named(m', Dir(e)) == held + multiset{m.dirs[e]};
  }

  // A user directory entry names a page table exactly when its address part is not zero.
  lemma DirEntry(m: Mem, reserved: set<nat>, held: multiset<nat>, e: nat, i: nat)
    requires Inv(m, reserved, held) && e in m.dirs && i < USER_PDES
    ensures m.dirs[e] < |m.frames| && |m.frames[m.dirs[e]]| == NENTRIES
    ensures m.frames[m.dirs[e]][i] == Pde(m, e, i)
    ensures Live(m, Table(e, i)) <==> Pde(m, e, i).ppn != 0
    ensures Live(m, Table(e, i)) ==> Pde(m, e, i).ppn < |m.frames| && |m.frames[Pde(m, e, i).ppn]| == NENTRIES
  {
    assert Live(m, Dir(e)) && Names(m, Dir(e)) == m.dirs[e];
    assert Names(m, Table(e, i)) == Pde(m, e, i).ppn;
  }

  lemma EntryTarget(m: Mem, reserved: set<nat>, held: multiset<nat>, e: nat, i: nat, j: nat)
    requires Inv(m, reserved, held) && Live(m, Table(e, i)) && j < NENTRIES
    ensures var w := Pte(m, e, i, j);
            && w.ppn < |m.refs| && w == At(m, Pde(m, e, i).ppn, j)
            && (Live(m, Leaf(e, i, j)) ==> w.ppn !in reserved && m.refs[w.ppn] > held[w.ppn] && OnlyLeaves(m, w.ppn))
            && (!Live(m, Leaf(e, i, j)) ==> w == ZERO)
  {
    var w := Pte(m, e, i, j);
    assert Names(m, Table(e, i)) == Pde(m, e, i).ppn;
    if Live(m, Leaf(e, i, j)) {
      NamedIsReferenced(m, reserved, held, Leaf(e, i, j));
      assert Names(m, Leaf(e, i, j)) == w.ppn;
      forall r | Live(m, r) && Names(m, r) == w.ppn ensures r.Leaf? {}
    }
  }

  // Page (i, j) of environment e now holds w, and its page table exists; every other
  // mapping, page table and directory is as it was.
  ghost predicate Inserted(m: Mem, m': Mem, e: nat, i: nat, j: nat, w: Word) {
    && Live(m', Table(e, i)) && Pte(m', e, i, j) == w && SameMappingsBut(m, m', e, i, j)
    && (forall r :: r != Leaf(e, i, j) && r != Table(e, i) ==> Live(m', r) == Live(m, r))
    && (forall r :: r != Leaf(e, i, j) && Live(m, r) ==> Live(m', r) && Names(m', r) == Names(m, r))
    && (!Live(m, Table(e, i)) ==> Unnamed(m, Names(m', Table(e, i))))
  }

  lemma InsertedSame(m0: Mem, m1: Mem, m2: Mem, e: nat, i: nat, j: nat, w: Word)
    requires SameRefs(m0, m1) && Inserted(m1, m2, e, i, j, w) && i < USER_PDES && j < NENTRIES
    ensures Inserted(m0, m2, e, i, j, w)
  {}

  lemma InsertedAfter(m0: Mem, m1: Mem, m2: Mem, e: nat, i: nat, j: nat, w: Word)
    requires SameBut(m0, m1, Table(e, i)) && SameMappings(m0, m1) && Live(m1, Table(e, i))
    requires Live(m0, Table(e, i)) ==> Names(m1, Table(e, i)) == Names(m0, Table(e, i))
    requires !Live(m0, Table(e, i)) ==> Unnamed(m0, Names(m1, Table(e, i)))
    requires Mapped(m1, m2, e, i, j, w) && i < USER_PDES && j < NENTRIES
    ensures Inserted(m0, m2, e, i, j, w)
  {}

  lemma MappedTwice(m: Mem, m1: Mem, m2: Mem, e: nat, i: nat, j: nat, v: Word, w: Word)
    requires Mapped(m, m1, e, i, j, v) && Mapped(m1, m2, e, i, j, w) && i < USER_PDES && j < NENTRIES
    ensures Mapped(m, m2, e, i, j, w)
  {}

  // ---- Whole operations as functions on memory ----

  // *pte = w
  function SetPte(m: Mem, e: nat, i: nat, j: nat, w: Word): Mem {
    Store(m, Pde(m, e, i).ppn, j, w)
  }

  // page_remove of page (i, j): an absent entry of an existing table reads as page 0.
  function Removed(m: Mem, e: nat, i: nat, j: nat): Mem {
    if Live(m, Table(e, i)) then Lower(SetPte(m, e, i, j, ZERO), Pte(m, e, i, j).ppn) else m
  }

  // page_insert once the page table exists: count first, release the old page, write.
  function Vacated(m: Mem, e: nat, i: nat, j: nat, pp: nat): Mem {
    if Pte(m, e, i, j).flags.p then Removed(Raise(m, pp), e, i, j) else Raise(m, pp)
  }

  function Replaced(m: Mem, e: nat, i: nat, j: nat, w: Word): Mem {
    SetPte(Vacated(m, e, i, j, w.ppn), e, i, j, w)
  }

  // pgdir_walk creating a table out of page t
  function Tabled(m: Mem, e: nat, i: nat, t: nat): Mem
    requires e in m.dirs && t < |m.frames|
  {
    Store(Raise(m.(frames := m.frames[t := seq(NENTRIES, _ => ZERO)]), t), m.dirs[e], i, Word(t, PTE_PWU))
  }

  // page_insert from the start: the first free page becomes the page table if there is none.
  function Placed(m: Mem, e: nat, i: nat, j: nat, w: Word, free: seq<nat>): Mem {
    if Live(m, Table(e, i)) || e !in m.dirs || free == [] || free[0] >= |m.frames| then Replaced(m, e, i, j, w)
    else Replaced(Tabled(m, e, i, free[0]), e, i, j, w)
  }

  // The directory entry and the page table it leads to are there to be read.
  predicate Sits(m: Mem, e: nat, i: nat) {
    && e in m.dirs && m.dirs[e] < |m.frames| && |m.frames[m.dirs[e]]| == NENTRIES && i < NENTRIES
    && Pde(m, e, i).ppn != 0 && Pde(m, e, i).ppn < |m.frames| && |m.frames[Pde(m, e, i).ppn]| == NENTRIES
  }

  // The page table is not the directory.
  predicate Separate(m: Mem, e: nat, i: nat) { e in m.dirs && Pde(m, e, i).ppn != m.dirs[e] }

  lemma VacatedSits(m: Mem, e: nat, i: nat, j: nat, pp: nat)
    requires Live(m, Table(e, i)) && Sits(m, e, i) && Separate(m, e, i) && j < NENTRIES
    ensures var v := Vacated(m, e, i, j, pp); Live(v, Table(e, i)) && Sits(v, e, i) && Separate(v, e, i)
  {}

  // Whatever was there, the entry now reads as it was written.
  lemma ReplacedReads(m: Mem, e: nat, i: nat, j: nat, w: Word)
    requires Live(m, Table(e, i)) && Sits(m, e, i) && Separate(m, e, i) && j < NENTRIES
    ensures var m' := Replaced(m, e, i, j, w); Pte(m', e, i, j) == w && Live(m', Table(e, i))
  {
    VacatedSits(m, e, i, j, w.ppn);
  }

  lemma RemovedGood(m: Mem, reserved: set<nat>, held: multiset<nat>, e: nat, i: nat, j: nat)
    requires Inv(m, reserved, held) && held[0] == 0 && e in m.dirs && i < USER_PDES && j < NENTRIES
    ensures Inv(Removed(m, e, i, j), reserved, held)
    ensures Mapped(m, Removed(m, e, i, j), e, i, j, ZERO)
  {
    if Live(m, Table(e, i)) {
      DirEntry(m, reserved, held, e, i);
      EntryTarget(m, reserved, held, e, i, j);
      StepLeaf(m, reserved, held, e, i, j, ZERO);
      var m1 := SetPte(m, e, i, j, ZERO);
      var p := Pte(m, e, i, j).ppn;
      LowerExact(m1, reserved, Handed(held, Pte(m, e, i, j), ZERO), p);
      MappedThenSame(m, m1, Lower(m1, p), e, i, j, ZERO);
      Cancel(held, p);
    } else {
      assert Mapped(m, m, e, i, j, ZERO);
    }
  }

  lemma VacatedGood(m: Mem, reserved: set<nat>, held: multiset<nat>, e: nat, i: nat, j: nat, pp: nat)
    requires Inv(m, reserved, held) && held[0] == 0 && Live(m, Table(e, i)) && j < NENTRIES
    requires pp < |m.refs| && pp !in reserved && OnlyLeaves(m, pp) && m.refs[pp] < 0xFFFF
    ensures SameRefs(m, Raise(m, pp)) && Inv(Raise(m, pp), reserved, held + multiset{pp})
    ensures var v := Vacated(m, e, i, j, pp);
            && Inv(v, reserved, held + multiset{pp}) && Mapped(Raise(m, pp), v, e, i, j, ZERO)
            && Live(v, Table(e, i)) && OnlyLeaves(v, pp)
    ensures var q := Pte(m, e, i, j);
            && q.ppn < |m.refs| && Pte(Raise(m, pp), e, i, j) == q
            && (q.flags.p ==> (Raise(m, pp).refs[q.ppn] == 1 <==> q.ppn != pp && m.refs[q.ppn] == 1))
  {
    RaiseExact(m, reserved, held, pp);
    EntryTarget(m, reserved, held, e, i, j);
    RemovedGood(Raise(m, pp), reserved, held + multiset{pp}, e, i, j);
  }

  lemma ReplacedGood(m: Mem, reserved: set<nat>, held: multiset<nat>, e: nat, i: nat, j: nat, w: Word)
    requires Inv(m, reserved, held) && held[0] == 0 && Live(m, Table(e, i)) && j < NENTRIES
    requires w.flags.p && w.ppn < |m.refs| && w.ppn !in reserved && OnlyLeaves(m, w.ppn) && m.refs[w.ppn] < 0xFFFF
    ensures Inv(Replaced(m, e, i, j, w), reserved, held)
    ensures Mapped(m, Replaced(m, e, i, j, w), e, i, j, w)
  {
    VacatedGood(m, reserved, held, e, i, j, w.ppn);
    var h := held + multiset{w.ppn};
    var v := Vacated(m, e, i, j, w.ppn);
    StepLeaf(v, reserved, h, e, i, j, w);
    var m' := SetPte(v, e, i, j, w);
    Cancel(held, w.ppn);
    MappedTwice(Raise(m, w.ppn), v, m', e, i, j, ZERO, w);
    SameThenMapped(m, Raise(m, w.ppn), m', e, i, j, w);
  }

  // A page whose count is at its largest value may be mapped once more exactly where it is
  // mapped already: there the count is raised past its limit and lowered again.
  lemma FullCountExact(m: Mem, reserved: set<nat>, held: multiset<nat>, e: nat, i: nat, j: nat, w: Word)
    requires Inv(m, reserved, held) && Live(m, Table(e, i)) && Sits(m, e, i) && Separate(m, e, i) && j < NENTRIES
    requires w.flags.p && w.ppn < |m.refs| && w.ppn !in reserved && OnlyLeaves(m, w.ppn) && m.refs[w.ppn] == 0xFFFF
    ensures Inv(Replaced(m, e, i, j, w), reserved, held) <==> Pte(m, e, i, j).flags.p && Pte(m, e, i, j).ppn == w.ppn
    ensures Pte(m, e, i, j).flags.p && Pte(m, e, i, j).ppn == w.ppn ==> Replaced(m, e, i, j, w).refs == m.refs
  {
    var q, m' := Pte(m, e, i, j), Replaced(m, e, i, j, w);
    if q.flags.p && q.ppn == w.ppn {
      Rewritten(m, e, i, j, w);
      Rewrites(m, reserved, held, e, i, j, w);
    } else {
      ReplacedReads(m, e, i, j, w);
      assert m'.refs[w.ppn] == 0;
      if Inv(m', reserved, held) {
        assert Live(m', Leaf(e, i, j)) && Names(m', Leaf(e, i, j)) == w.ppn;
        NamedIsReferenced(m', reserved, held, Leaf(e, i, j));
      }
    }
  }

  lemma Rewritten(m: Mem, e: nat, i: nat, j: nat, w: Word)
    requires Live(m, Table(e, i)) && Sits(m, e, i) && Separate(m, e, i) && j < NENTRIES && w.ppn < |m.refs|
    requires m.refs[w.ppn] == 0xFFFF && Pte(m, e, i, j).flags.p && Pte(m, e, i, j).ppn == w.ppn
    ensures Replaced(m, e, i, j, w) == SetPte(SetPte(m, e, i, j, ZERO), e, i, j, w)
    ensures Replaced(m, e, i, j, w).refs == m.refs
  {
    var m1 := SetPte(m, e, i, j, ZERO);
    var v := Vacated(m, e, i, j, w.ppn);
    assert v.refs == m.refs;
    assert v == m1;
  }

  lemma Rewrites(m: Mem, reserved: set<nat>, held: multiset<nat>, e: nat, i: nat, j: nat, w: Word)
    requires Inv(m, reserved, held) && Live(m, Table(e, i)) && j < NENTRIES
    requires w.flags.p && w.ppn < |m.refs| && w.ppn !in reserved && OnlyLeaves(m, w.ppn)
    requires Pte(m, e, i, j).flags.p && Pte(m, e, i, j).ppn == w.ppn
    ensures Inv(SetPte(SetPte(m, e, i, j, ZERO), e, i, j, w), reserved, held)
  {
    var m1, h := SetPte(m, e, i, j, ZERO), held + multiset{w.ppn};
    StepLeaf(m, reserved, held, e, i, j, ZERO);
    assert Handed(held, Pte(m, e, i, j), ZERO) == h;
    assert OnlyLeaves(m1, w.ppn);
    StepLeaf(m1, reserved, h, e, i, j, w);
    Cancel(held, w.ppn);
  }

  lemma TabledGood(m: Mem, reserved: set<nat>, held: multiset<nat>, e: nat, i: nat, t: nat)
    requires Inv(m, reserved, held) && e in m.dirs && i < USER_PDES && !Live(m, Table(e, i))
    requires t < |m.frames| && t !in reserved && m.refs[t] == 0
    ensures var m' := Tabled(m, e, i, t);
            && Inv(m', reserved, held) && SameBut(m, m', Table(e, i)) && SameMappings(m, m')
            && Live(m', Table(e, i)) && Names(m', Table(e, i)) == t && Unnamed(m, t)
  {
    UnnamedWhenZero(m, reserved, held, t);
    StepData(m, reserved, held, t, seq(NENTRIES, _ => ZERO));
    StepNewTable(m.(frames := m.frames[t := seq(NENTRIES, _ => ZERO)]), reserved, held, e, i, t);
  }

  // env_setup_vm: page d becomes the directory of e, a copy of the kernel's directory
  // with its own self-map entry.
  function DirFrame(kernDir: seq<Word>, d: nat): seq<Word>
    requires |kernDir| == NENTRIES
  {
    kernDir[PDX(UVPT) := Word(d, PTE_PU)]
  }

  function WithDir(m: Mem, e: nat, d: nat, kernDir: seq<Word>): Mem
    requires d < |m.frames| && |kernDir| == NENTRIES
  {
    Raise(m.(frames := m.frames[d := DirFrame(kernDir, d)]), d).(dirs := m.dirs[e := d])
  }

  lemma WithDirGood(m: Mem, reserved: set<nat>, held: multiset<nat>, e: nat, d: nat, kernDir: seq<Word>)
    requires Inv(m, reserved, held) && e !in m.dirs
    requires d < |m.frames| && d !in reserved && m.refs[d] == 0
    requires |kernDir| == NENTRIES && forall i :: 0 <= i < USER_PDES ==> kernDir[i] == ZERO
    ensures var m' := WithDir(m, e, d, kernDir);
            && Inv(m', reserved, held) && SameBut(m, m', Dir(e)) && SameMappings(m, m')
            && (forall i: nat, j: nat :: i < USER_PDES && j < NENTRIES ==> Pte(m', e, i, j) == ZERO)
  {
    UnnamedWhenZero(m, reserved, held, d);
    StepData(m, reserved, held, d, DirFrame(kernDir, d));
    StepAddDir(m.(frames := m.frames[d := DirFrame(kernDir, d)]), reserved, held, e, d);
  }

  // ---- Tearing an environment down ----

  function Owner(r: Ref): nat { r.e }

  // Some references of e may be gone; every other reference is as it was.
  ghost predicate Drained(m: Mem, m': Mem, e: nat) {
    && m'.dirs == m.dirs
    && (forall r {:trigger Live(m', r)} :: Live(m', r) ==> Live(m, r))
    && (forall r :: Live(m', r) ==> Names(m', r) == Names(m, r))
    && (forall r {:trigger Live(m', r)} :: Live(m, r) && Owner(r) != e ==> Live(m', r))
  }

  lemma DrainedTrans(m: Mem, m1: Mem, m2: Mem, e: nat)
    requires Drained(m, m1, e) && Drained(m1, m2, e)
    ensures Drained(m, m2, e)
  {}

  lemma SameButDrained(m: Mem, m': Mem, x: Ref)
    requires SameBut(m, m', x) && !Live(m', x) && m'.dirs == m.dirs
    ensures Drained(m, m', Owner(x))
  {}

  // env_free, once no leaf of table i is left: clear the directory entry, drop the page.
  function Untabled(m: Mem, e: nat, i: nat): Mem {
    if e in m.dirs then Lower(Store(m, m.dirs[e], i, ZERO), Pde(m, e, i).ppn) else m
  }

  function Undirected(m: Mem, e: nat): Mem {
    if e in m.dirs then Lower(m.(dirs := m.dirs - {e}), m.dirs[e]) else m
  }

  lemma UntabledGood(m: Mem, reserved: set<nat>, held: multiset<nat>, e: nat, i: nat)
    requires Inv(m, reserved, held) && Live(m, Table(e, i))
    requires forall j :: 0 <= j < NENTRIES ==> !Live(m, Leaf(e, i, j))
    ensures m.dirs[e] < |m.frames| && Pde(m, e, i).ppn < |m.refs| && Pde(m, e, i).ppn !in reserved
    ensures var h := held + multiset{Pde(m, e, i).ppn};
            Inv(Store(m, m.dirs[e], i, ZERO), reserved, h) && h[Pde(m, e, i).ppn] > 0
    ensures Inv(Untabled(m, e, i), reserved, held)
    ensures Drained(m, Untabled(m, e, i), e) && !Live(Untabled(m, e, i), Table(e, i))
  {
    StepClearTable(m, reserved, held, e, i);
    var m1 := Store(m, m.dirs[e], i, ZERO);
    var t := Pde(m, e, i).ppn;
    assert Names(m, Table(e, i)) == t;
    SameButDrained(m, m1, Table(e, i));
    LowerExact(m1, reserved, held + multiset{t}, t);
    Cancel(held, t);
    SameRefsDrained(m1, Lower(m1, t), e);
    DrainedTrans(m, m1, Lower(m1, t), e);
  }

  lemma SameRefsDrained(m: Mem, m': Mem, e: nat)
    requires SameRefs(m, m')
    ensures Drained(m, m', e)
  {
    forall r | Live(m', r) ensures Names(m', r) == Names(m, r) {}
  }

  lemma UndirectedGood(m: Mem, reserved: set<nat>, held: multiset<nat>, e: nat)
    requires Inv(m, reserved, held) && e in m.dirs
    requires forall i :: 0 <= i < USER_PDES ==> !Live(m, Table(e, i))
    ensures m.dirs[e] < |m.refs| && m.dirs[e] !in reserved
    ensures var h := held + multiset{m.dirs[e]};
            Inv(m.(dirs := m.dirs - {e}), reserved, h) && h[m.dirs[e]] > 0
    ensures Inv(Undirected(m, e), reserved, held)
    ensures SameBut(m, Undirected(m, e), Dir(e)) && !Live(Undirected(m, e), Dir(e))
  {
    assert Live(m, Dir(e)) && Names(m, Dir(e)) == m.dirs[e];
    StepRemoveDir(m, reserved, held, e);
    var m1 := m.(dirs := m.dirs - {e});
    var d := m.dirs[e];
    LowerExact(m1, reserved, held + multiset{d}, d);
    Cancel(held, d);
    forall r ensures Live(Lower(m1, d), r) == Live(m1, r) && (Live(m1, r) ==> Names(Lower(m1, d), r) == Names(m1, r)) {}
  }

  lemma Freed(m: Mem, m1: Mem, m2: Mem, e: nat)
    requires Drained(m, m1, e) && SameBut(m1, m2, Dir(e)) && !Live(m2, Dir(e))
    requires forall i :: 0 <= i < USER_PDES ==> !Live(m1, Table(e, i))
    ensures forall r :: Live(m2, r) <==> Live(m, r) && Owner(r) != e
    ensures forall r :: Live(m2, r) ==> Names(m2, r) == Names(m, r)
  {
    forall r | Live(m2, r) ensures Owner(r) != e {
      assert r != Dir(e) && (Live(m2, r) ==> Live(m1, r));
    }
    forall r | Live(m, r) && Owner(r) != e ensures Live(m2, r) {
      assert Live(m1, r);
    }
    forall r | Live(m2, r) ensures Names(m2, r) == Names(m, r) {
      assert Live(m1, r) && Names(m1, r) == Names(m, r);
    }
  }

  // ---- What page_insert leaves alone, and what the counts decide ----

  // Pages that hold data keep their contents, except those on the list `spare`.
  ghost predicate DataKept(m: Mem, m': Mem, spare: seq<nat>) {
    |m'.frames| == |m.frames| &&
    forall p: nat :: p < |m.frames| && OnlyLeaves(m, p) && p !in spare ==> m'.frames[p] == m.frames[p]
  }

  lemma ReplacedKeepsData(m: Mem, reserved: set<nat>, held: multiset<nat>, e: nat, i: nat, j: nat, w: Word)
    requires Inv(m, reserved, held) && Live(m, Table(e, i)) && j < NENTRIES
    ensures DataKept(m, Replaced(m, e, i, j, w), [])
  {
    var t := Pde(m, e, i).ppn;
    assert Names(m, Table(e, i)) == t && Live(m, Dir(e)) && Names(m, Dir(e)) == m.dirs[e];
    assert !OnlyLeaves(m, t) && !OnlyLeaves(m, m.dirs[e]);
    var v := Vacated(m, e, i, j, w.ppn);
    assert Pde(v, e, i) == Pde(m, e, i);
  }

  lemma TabledKeepsData(m: Mem, reserved: set<nat>, held: multiset<nat>, e: nat, i: nat, t: nat, spare: seq<nat>)
    requires Inv(m, reserved, held) && e in m.dirs && t < |m.frames| && t in spare
    ensures DataKept(m, Tabled(m, e, i, t), spare)
  {
    assert Live(m, Dir(e)) && Names(m, Dir(e)) == m.dirs[e];
    assert !OnlyLeaves(m, m.dirs[e]);
  }

  // A page is counted zero exactly when nobody refers to it: the counts never lie.
  lemma UnreferencedIff(m: Mem, reserved: set<nat>, held: multiset<nat>, p: nat)
    requires Inv(m, reserved, held) && p < |m.refs| && p !in reserved
    ensures m.refs[p] == 0 <==> held[p] == 0 && Unnamed(m, p)
  {
    if m.refs[p] == 0 {
      UnnamedWhenZero(m, reserved, held, p);
      assert |RefsTo(m, p)| >= 0;
    }
    if held[p] == 0 && Unnamed(m, p) {
      assert RefsTo(m, p) == {};
    }
  }

  // The counts depend on the references alone: two good memories with the same live
  // references count every page alike.
  lemma CountsDetermined(m: Mem, m': Mem, reserved: set<nat>, held: multiset<nat>)
    requires Inv(m, reserved, held) && Inv(m', reserved, held) && |m'.refs| == |m.refs|
    requires forall r :: Live(m', r) == Live(m, r)
    requires forall r :: Live(m, r) ==> Names(m', r) == Names(m, r)
    ensures forall p :: 0 <= p < |m.refs| && p !in reserved ==> m'.refs[p] == m.refs[p]
  {
    forall p: nat | p < |m.refs| && p !in reserved ensures m'.refs[p] == m.refs[p] {
      forall r ensures r in RefsTo(m', p) <==> r in RefsTo(m, p) {
        RefsToIff(m, r, p);
        RefsToIff(m', r, p);
      }
      assert RefsTo(m', p) == RefsTo(m, p);
    }
  }

  // sys_page_map of an absent entry names page 0: the result is never a good memory.
  lemma PageZeroMappedBreaks(m: Mem, reserved: set<nat>, held: multiset<nat>, e: nat, i: nat, j: nat, perm: Flags)
    requires Live(m, Table(e, i)) && j < NENTRIES && perm.p
    requires Pte(m, e, i, j) == Word(0, perm)
    ensures !Inv(m, reserved, held)
  {
    assert Live(m, Leaf(e, i, j)) && Names(m, Leaf(e, i, j)) == 0;
  }

  // What removing or replacing an entry does to the counts.
  lemma RemovedCounts(m: Mem, reserved: set<nat>, held: multiset<nat>, e: nat, i: nat, j: nat)
    requires Inv(m, reserved, held) && Live(m, Table(e, i)) && j < NENTRIES
    ensures var q, m' := Pte(m, e, i, j).ppn, Removed(m, e, i, j);
      && q < |m.refs| == |m'.refs| && (q != 0 ==> q !in reserved && m.refs[q] > 0 && m'.refs[q] == m.refs[q] - 1)
      && forall p :: 0 <= p < |m.refs| && p != q ==> m'.refs[p] == m.refs[p]
  {
    EntryTarget(m, reserved, held, e, i, j);
    AbsentIsZero(m, reserved, held, e, i, j);
    if Pte(m, e, i, j).flags.p { NamedIsReferenced(m, reserved, held, Leaf(e, i, j)); }
  }

  lemma ReplacedCounts(m: Mem, e: nat, i: nat, j: nat, w: Word)
    requires Live(m, Table(e, i)) && j < NENTRIES && Pte(m, e, i, j).flags.p && w.ppn < |m.refs|
    requires Pte(m, e, i, j).ppn < |m.refs| && 0 < m.refs[Pte(m, e, i, j).ppn] < 0x1_0000 && m.refs[w.ppn] < 0xFFFF
    ensures var q, r1, r2 := Pte(m, e, i, j).ppn, Raise(m, w.ppn).refs, Replaced(m, e, i, j, w).refs;
      |r1| == |r2| && r1[q] > 0 && r2 == r1[q := r1[q] - 1]
  {}

  // A new page table leaves any other page as fit to be mapped as it was.
  lemma TabledLeaves(m: Mem, reserved: set<nat>, held: multiset<nat>, e: nat, i: nat, t: nat, pp: nat)
    requires Inv(m, reserved, held) && e in m.dirs && i < USER_PDES && !Live(m, Table(e, i))
    requires t < |m.frames| && t !in reserved && m.refs[t] == 0 && pp != t && OnlyLeaves(m, pp) && pp < |m.refs|
    ensures OnlyLeaves(Tabled(m, e, i, t), pp) && Tabled(m, e, i, t).refs[pp] == m.refs[pp]
  {
    TabledGood(m, reserved, held, e, i, t);
  }

  // It leaves a full count full, and maps nothing yet.
  lemma WalkedFull(m: Mem, reserved: set<nat>, held: multiset<nat>, e: nat, i: nat, j: nat, t: nat, pp: nat)
    requires Inv(m, reserved, held) && e in m.dirs && i < USER_PDES && !Live(m, Table(e, i))
    requires t < |m.frames| && t !in reserved && m.refs[t] == 0 && pp != t && OnlyLeaves(m, pp) && pp < |m.refs|
    ensures var m1 := Tabled(m, e, i, t);
      && OnlyLeaves(m1, pp) && pp < |m1.refs| && m1.refs[pp] == m.refs[pp]
      && !Live(m1, Leaf(e, i, j)) && !Live(m, Leaf(e, i, j))
  {
    TabledGood(m, reserved, held, e, i, t);
    TabledLeaves(m, reserved, held, e, i, t, pp);
  }

  // Mapping page pp at (i, j) frees the page there before: it is counted once by then.
  predicate FreesOld(m: Mem, e: nat, i: nat, j: nat, pp: nat) {
    var q := Pte(m, e, i, j);
    q.flags.p && q.ppn < |m.refs| && Raise(m, pp).refs[q.ppn] == 1
  }

  // The free list once page pp is mapped at (i, j): the page there before comes first if
  // that was its last reference.
  function FreeAfter(m: Mem, e: nat, i: nat, j: nat, pp: nat, free: seq<nat>): seq<nat> {
    var q := Pte(m, e, i, j);
    if q.flags.p && q.ppn != pp && q.ppn < |m.refs| && m.refs[q.ppn] == 1 then [q.ppn] + free else free
  }

  // page_insert of a page that may be mapped once more: what pgdir_walk leaves to do, and
  // what is done in the end.
  lemma WalkedPlaceable(m: Mem, reserved: set<nat>, held: multiset<nat>, e: nat, i: nat, j: nat, w: Word, free: seq<nat>)
    requires Inv(m, reserved, held) && held[0] == 0 && e in m.dirs && i < USER_PDES && j < NENTRIES
    requires !Live(m, Table(e, i)) ==> free != [] && free[0] < |m.frames| && free[0] !in reserved && m.refs[free[0]] == 0
    requires w.flags.p && w.ppn < |m.refs| && w.ppn !in reserved && w.ppn !in free && OnlyLeaves(m, w.ppn) && m.refs[w.ppn] < 0xFFFF
    ensures Inserted(m, Placed(m, e, i, j, w, free), e, i, j, w) && DataKept(m, Placed(m, e, i, j, w, free), free)
    ensures !Live(m, Table(e, i)) ==>
      var m1 := Tabled(m, e, i, free[0]);
      && OnlyLeaves(m1, w.ppn) && w.ppn < |m1.refs| && m1.refs[w.ppn] < 0xFFFF
      && FreeAfter(m1, e, i, j, w.ppn, free[1..]) == FreeAfter(m, e, i, j, w.ppn, free[1..])
  {
    var m1 := if Live(m, Table(e, i)) then m else Tabled(m, e, i, free[0]);
    if !Live(m, Table(e, i)) {
      TabledGood(m, reserved, held, e, i, free[0]);
      TabledKeepsData(m, reserved, held, e, i, free[0], free);
      TabledLeaves(m, reserved, held, e, i, free[0], w.ppn);
    }
    ReplacedGood(m1, reserved, held, e, i, j, w);
    ReplacedKeepsData(m1, reserved, held, e, i, j, w);
    InsertedAfter(m, m1, Replaced(m1, e, i, j, w), e, i, j, w);
  }

  lemma PlacedReads(m: Mem, reserved: set<nat>, held: multiset<nat>, e: nat, i: nat, j: nat, w: Word, free: seq<nat>)
    requires Inv(m, reserved, held) && e in m.dirs && i < USER_PDES && j < NENTRIES
    requires !Live(m, Table(e, i)) ==> free != [] && free[0] < |m.frames| && free[0] !in reserved && m.refs[free[0]] == 0
    ensures Pte(Placed(m, e, i, j, w, free), e, i, j) == w && Live(Placed(m, e, i, j, w, free), Table(e, i))
  {
    var m1 := if Live(m, Table(e, i)) then m else Tabled(m, e, i, free[0]);
    if !Live(m, Table(e, i)) { TabledGood(m, reserved, held, e, i, free[0]); }
    TableSits(m1, reserved, held, e, i);
    ReplacedReads(m1, e, i, j, w);
  }

  lemma TableSits(m: Mem, reserved: set<nat>, held: multiset<nat>, e: nat, i: nat)
    requires Inv(m, reserved, held) && Live(m, Table(e, i))
    ensures Sits(m, e, i) && Separate(m, e, i)
  {
    DirEntry(m, reserved, held, e, i);
    assert Live(m, Dir(e)) && Names(m, Dir(e)) == m.dirs[e] && Names(m, Table(e, i)) == Pde(m, e, i).ppn;
  }

  lemma AbsentIsZero(m: Mem, reserved: set<nat>, held: multiset<nat>, e: nat, i: nat, j: nat)
    requires Inv(m, reserved, held) && e in m.dirs && i < USER_PDES && j < NENTRIES
    ensures !Pte(m, e, i, j).flags.p ==> Pte(m, e, i, j) == ZERO
  {
    if Live(m, Table(e, i)) { EntryTarget(m, reserved, held, e, i, j); }
  }

  // ---- The two-level tables refine one finite map per environment ----

  lemma ViewAt(m: Mem, e: nat, v: nat)
    ensures v in View(m, e) <==> v < USER_PAGES && Live(m, Leaf(e, v / NENTRIES, v % NENTRIES))
    ensures v in View(m, e) ==> View(m, e)[v] == Pte(m, e, v / NENTRIES, v % NENTRIES)
  {}

  lemma LiveLeaf(m: Mem, e: nat, v: nat)
    requires v < USER_PAGES
    ensures v / NENTRIES < USER_PDES && v % NENTRIES < NENTRIES
    ensures Live(m, Leaf(e, v / NENTRIES, v % NENTRIES)) <==> e in m.dirs && Pte(m, e, v / NENTRIES, v % NENTRIES).flags.p
  {}

  lemma OtherPagesSame(m: Mem, m': Mem, e: nat, i: nat, j: nat, e': nat, v: nat)
    requires SameMappingsBut(m, m', e, i, j) && m'.dirs.Keys == m.dirs.Keys && j < NENTRIES
    requires (e', v) != (e, i * NENTRIES + j)
    ensures v in View(m', e') <==> v in View(m, e')
    ensures v in View(m, e') ==> View(m', e')[v] == View(m, e')[v]
  {
    ViewAt(m, e', v);
    ViewAt(m', e', v);
    if v < USER_PAGES {
      LiveLeaf(m, e', v);
      LiveLeaf(m', e', v);
      assert v == v / NENTRIES * NENTRIES + v % NENTRIES;
      assert Pte(m', e', v / NENTRIES, v % NENTRIES) == Pte(m, e', v / NENTRIES, v % NENTRIES);
    }
  }

  lemma SameDirs(m: Mem, m': Mem)
    requires forall e :: Live(m', Dir(e)) == Live(m, Dir(e))
    ensures m'.dirs.Keys == m.dirs.Keys
  {
    forall e ensures e in m'.dirs.Keys <==> e in m.dirs.Keys {
      assert Live(m', Dir(e)) == Live(m, Dir(e));
    }
  }

  lemma OtherViewSame(m: Mem, m': Mem, e: nat, i: nat, j: nat, e': nat)
    requires SameMappingsBut(m, m', e, i, j) && m'.dirs.Keys == m.dirs.Keys && j < NENTRIES && e' != e
    ensures View(m', e') == View(m, e')
  {
    var V, V' := View(m, e'), View(m', e');
    forall u: nat ensures (u in V' <==> u in V) && (u in V ==> V'[u] == V[u]) {
      OtherPagesSame(m, m', e, i, j, e', u);
    }
  }

  lemma AgreeBut(V: map<nat, Word>, V': map<nat, Word>, v: nat)
    requires forall u :: u != v ==> (u in V' <==> u in V)
    requires forall u :: u != v && u in V ==> V'[u] == V[u]
    ensures v in V' ==> V' == V[v := V'[v]]
    ensures v !in V' ==> V' == V - {v}
  {}

  // The one entry that changed decides the new map of its own environment.
  lemma OwnView(m: Mem, m': Mem, e: nat, i: nat, j: nat)
    requires SameMappingsBut(m, m', e, i, j) && m'.dirs.Keys == m.dirs.Keys && i < USER_PDES && j < NENTRIES
    ensures var v := i * NENTRIES + j;
            View(m', e) == if Live(m', Leaf(e, i, j)) then View(m, e)[v := Pte(m', e, i, j)] else View(m, e) - {v}
  {
    var v := i * NENTRIES + j;
    var V, V' := View(m, e), View(m', e);
    forall u: nat | u != v ensures (u in V' <==> u in V) && (u in V ==> V'[u] == V[u]) {
      OtherPagesSame(m, m', e, i, j, e, u);
    }
    assert v / NENTRIES == i && v % NENTRIES == j;
    ViewAt(m', e, v);
    AgreeBut(V, V', v);
  }

  // page_insert is a map update at its page, and touches no other environment's map.
  lemma InsertIsUpdate(m: Mem, m': Mem, e: nat, va: nat, w: Word)
    requires va < UTOP && Inserted(m, m', e, PDX(va), PTX(va), w) && w.flags.p
    ensures View(m', e) == View(m, e)[PGNUM(va) := w]
    ensures forall e' :: e' != e ==> View(m', e') == View(m, e')
  {
    UserAddress(va);
    InsertAt(m, m', e, PDX(va), PTX(va), w);
  }

  lemma InsertAt(m: Mem, m': Mem, e: nat, i: nat, j: nat, w: Word)
    requires Inserted(m, m', e, i, j, w) && w.flags.p && i < USER_PDES && j < NENTRIES
    ensures View(m', e) == View(m, e)[i * NENTRIES + j := w]
    ensures forall e' :: e' != e ==> View(m', e') == View(m, e')
  {
    SameDirs(m, m');
    OwnView(m, m', e, i, j);
    OtherViews(m, m', e, i, j);
  }

  lemma OtherViews(m: Mem, m': Mem, e: nat, i: nat, j: nat)
    requires SameMappingsBut(m, m', e, i, j) && m'.dirs.Keys == m.dirs.Keys && j < NENTRIES
    ensures forall e' :: e' != e ==> View(m', e') == View(m, e')
  {
    forall e' | e' != e ensures View(m', e') == View(m, e') { OtherViewSame(m, m', e, i, j, e'); }
  }

  // page_remove is a deletion.
  lemma RemoveIsDelete(m: Mem, m': Mem, e: nat, va: nat)
    requires va < UTOP && Mapped(m, m', e, PDX(va), PTX(va), ZERO)
    ensures View(m', e) == View(m, e) - {PGNUM(va)}
    ensures forall e' :: e' != e ==> View(m', e') == View(m, e')
  {
    UserAddress(va);
    RemoveAt(m, m', e, PDX(va), PTX(va));
  }

  lemma RemoveAt(m: Mem, m': Mem, e: nat, i: nat, j: nat)
    requires Mapped(m, m', e, i, j, ZERO) && i < USER_PDES && j < NENTRIES
    ensures View(m', e) == View(m, e) - {i * NENTRIES + j}
    ensures forall e' :: e' != e ==> View(m', e') == View(m, e')
  {
    SameDirs(m, m');
    OwnView(m, m', e, i, j);
    OtherViews(m, m', e, i, j);
  }
}
