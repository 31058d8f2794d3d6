/** User-level copy-on-write fork as a state machine: any number of environments, every
    system call of fork, duppage and the page-fault handler a step of its own. */
module CowFork {
  type Contents = seq<nat>

  // Page numbers of PFTEMP, of the exception stack and of UTOP.
  const PFTEMP: nat := 0x7ff
  const UXSTACK: nat := 0xeebff
  const TOP: nat := 0xeec00

  // A present user mapping: W, COW and SHARE bits of its entry.
  datatype Entry = Entry(page: nat, w: bool, cow: bool, share: bool)

  // Where an environment is inside its page-fault handler for page v ...
  datatype Fault = NoFault | Allocated(v: nat) | Copied(v: nat) | Remapped(v: nat)

  // ... and inside fork: the child, the page the loop has reached, the entry duppage read.
  datatype Fork = Idle | Stacking(c: nat) | Scan(c: nat, v: nat) | Read(c: nat, v: nat, pte: Entry) | ChildMapped(c: nat, v: nat)

  datatype Env = Env(space: map<nat, Entry>, run: bool, parent: nat, fault: Fault, fork: Fork)

  datatype State = State(mem: map<nat, Contents>, envs: map<nat, Env>)

  function ZeroPage(): Contents { seq(4096, _ => 0) }

  function Put(c: Contents, off: nat, x: nat): Contents
    requires off < |c|
  {
    c[off := x]
  }

  // ---- What is mapped ----

  predicate Maps(s: State, e: nat, v: nat) {
    e in s.envs && v in s.envs[e].space
  }

  function At(s: State, e: nat, v: nat): Entry
    requires Maps(s, e, v)
  {
    s.envs[e].space[v]
  }

  // No address space maps physical page p: page_alloc may hand it out.
  ghost predicate Unmapped(s: State, p: nat) {
    forall e, v :: Maps(s, e, v) ==> At(s, e, v).page != p
  }

  function SetEnv(s: State, e: nat, env: Env): State {
    s.(envs := s.envs[e := env])
  }

  function SetEntry(s: State, e: nat, v: nat, entry: Entry): State
    requires e in s.envs
  {
    SetEnv(s, e, s.envs[e].(space := s.envs[e].space[v := entry]))
  }

  // sys_page_alloc(e, v, perm) handing out page p
  function Alloc(s: State, e: nat, v: nat, entry: Entry): State
    requires e in s.envs
  {
    State(s.mem[entry.page := ZeroPage()], SetEntry(s, e, v, entry).envs)
  }

  // ---- Steps ----

  datatype Action =
    | Load(e: nat, v: nat, off: nat, x: nat)
    | Store(e: nat, v: nat, off: nat, x: nat)
    | PageAlloc(e: nat, v: nat, w: bool, share: bool, p: nat)
    | PageUnmap(e: nat, v: nat)
    | FaultAlloc(e: nat, v: nat, p: nat)
    | FaultCopy(e: nat)
    | FaultRemap(e: nat)
    | FaultUnmap(e: nat)
    | Exofork(e: nat, c: nat)
    | ForkStack(e: nat, p: nat)
    | ForkSkip(e: nat)
    | ForkRead(e: nat)
    | MapChild(e: nat)
    | MapSelf(e: nat)
    | ForkFinish(e: nat)
    | Exit(e: nat)

  // The environment's own code can run: it is scheduled and not inside the handler.
  predicate Live(s: State, e: nat) {
    e in s.envs && s.envs[e].run && s.envs[e].fault.NoFault?
  }

  // envid2env accepts c as a child of e.
  predicate Kid(s: State, e: nat, c: nat) {
    c in s.envs && c != e && s.envs[c].parent == e
  }

  // What each step needs to happen; the conditions on the handler and on fork are those
  // under which the system call succeeds instead of ending in a panic.
  ghost predicate Enabled(s: State, a: Action) {
    match a
    case Load(e, v, off, x) =>
      Live(s, e) && Maps(s, e, v) && v != PFTEMP &&
      At(s, e, v).page in s.mem && off < |s.mem[At(s, e, v).page]| && x == s.mem[At(s, e, v).page][off]
    case Store(e, v, off, x) =>
      Live(s, e) && Maps(s, e, v) && v != PFTEMP && At(s, e, v).w &&
      At(s, e, v).page in s.mem && off < |s.mem[At(s, e, v).page]|
    case PageAlloc(e, v, w, share, p) =>
      Live(s, e) && s.envs[e].fork.Idle? && v != PFTEMP && v < TOP && Unmapped(s, p)
    case PageUnmap(e, v) =>
      Live(s, e) && s.envs[e].fork.Idle? && v != PFTEMP && v < TOP
    case FaultAlloc(e, v, p) =>
      Live(s, e) && Maps(s, e, v) && v != PFTEMP && !At(s, e, v).w && At(s, e, v).cow && Unmapped(s, p)
    case FaultCopy(e) =>
      e in s.envs && s.envs[e].fault.Allocated? && Maps(s, e, PFTEMP) && Maps(s, e, s.envs[e].fault.v) &&
      At(s, e, s.envs[e].fault.v).page in s.mem
    case FaultRemap(e) =>
      e in s.envs && s.envs[e].fault.Copied? && Maps(s, e, PFTEMP) && At(s, e, PFTEMP).w
    case FaultUnmap(e) => e in s.envs && s.envs[e].fault.Remapped?
    case Exofork(e, c) => Live(s, e) && s.envs[e].fork.Idle? && c !in s.envs
    case ForkStack(e, p) => Live(s, e) && s.envs[e].fork.Stacking? && Kid(s, e, s.envs[e].fork.c) && Unmapped(s, p)
    case ForkSkip(e) =>
      Live(s, e) && s.envs[e].fork.Scan? && s.envs[e].fork.v < TOP &&
      (s.envs[e].fork.v == UXSTACK || !Maps(s, e, s.envs[e].fork.v))
    case ForkRead(e) =>
      Live(s, e) && s.envs[e].fork.Scan? && s.envs[e].fork.v < TOP &&
      s.envs[e].fork.v != UXSTACK && Maps(s, e, s.envs[e].fork.v)
    case MapChild(e) =>
      Live(s, e) && s.envs[e].fork.Read? && Kid(s, e, s.envs[e].fork.c) && Maps(s, e, s.envs[e].fork.v) &&
      (s.envs[e].fork.pte.share && s.envs[e].fork.pte.w ==> At(s, e, s.envs[e].fork.v).w)
    case MapSelf(e) =>
      Live(s, e) && s.envs[e].fork.ChildMapped? && Kid(s, e, s.envs[e].fork.c) && Maps(s, e, s.envs[e].fork.v)
    case ForkFinish(e) =>
      Live(s, e) && s.envs[e].fork.Scan? && s.envs[e].fork.v >= TOP && Kid(s, e, s.envs[e].fork.c)
    case Exit(e) => e in s.envs && s.envs[e].run
  }

  // The entry duppage gives the child: permissions from the entry it read, the page from
  // the mapping sys_page_map finds.
  function ChildEntry(pte: Entry, page: nat): Entry {
    if pte.share then Entry(page, pte.w, pte.cow, true)
    else Entry(page, false, pte.w || pte.cow, false)
  }

  function DoStore(s: State, e: nat, v: nat, off: nat, x: nat): State
    requires Maps(s, e, v) && At(s, e, v).page in s.mem && off < |s.mem[At(s, e, v).page]|
  {
    s.(mem := s.mem[At(s, e, v).page := Put(s.mem[At(s, e, v).page], off, x)])
  }

  function DoUnmap(s: State, e: nat, v: nat): State
    requires e in s.envs
  {
    SetEnv(s, e, s.envs[e].(space := s.envs[e].space - {v}))
  }

  function SetFault(s: State, e: nat, f: Fault): State
    requires e in s.envs
  {
    SetEnv(s, e, s.envs[e].(fault := f))
  }

  function SetFork(s: State, e: nat, f: Fork): State
    requires e in s.envs
  {
    SetEnv(s, e, s.envs[e].(fork := f))
  }

  // memcpy(PFTEMP, page v)
  function DoCopy(s: State, e: nat, v: nat): State
    requires Maps(s, e, PFTEMP) && Maps(s, e, v) && At(s, e, v).page in s.mem
  {
    s.(mem := s.mem[At(s, e, PFTEMP).page := s.mem[At(s, e, v).page]])
  }

  function DoMapChild(s: State, e: nat, c: nat, v: nat, pte: Entry): State
    requires Maps(s, e, v) && c in s.envs && c != e
  {
    SetFork(SetEntry(s, c, v, ChildEntry(pte, At(s, e, v).page)), e,
            if pte.share || !(pte.w || pte.cow) then Scan(c, v + 1) else ChildMapped(c, v))
  }

  function NewChild(e: nat): Env { Env(map[], false, e, NoFault, Idle) }

  ghost function Next(s: State, a: Action): State
    requires Enabled(s, a)
  {
    match a
    case Load(e, v, off, x) => s
    case Store(e, v, off, x) => DoStore(s, e, v, off, x)
    case PageAlloc(e, v, w, share, p) => Alloc(s, e, v, Entry(p, w, false, share))
    case PageUnmap(e, v) => DoUnmap(s, e, v)
    case FaultAlloc(e, v, p) => SetFault(Alloc(s, e, PFTEMP, Entry(p, true, false, false)), e, Allocated(v))
    case FaultCopy(e) => SetFault(DoCopy(s, e, s.envs[e].fault.v), e, Copied(s.envs[e].fault.v))
    case FaultRemap(e) =>
      SetFault(SetEntry(s, e, s.envs[e].fault.v, Entry(At(s, e, PFTEMP).page, true, false, false)), e,
               Remapped(s.envs[e].fault.v))
    case FaultUnmap(e) => SetFault(DoUnmap(s, e, PFTEMP), e, NoFault)
    case Exofork(e, c) => SetFork(SetEnv(s, c, NewChild(e)), e, Stacking(c))
    case ForkStack(e, p) =>
      SetFork(Alloc(s, s.envs[e].fork.c, UXSTACK, Entry(p, true, false, false)), e, Scan(s.envs[e].fork.c, 0))
    case ForkSkip(e) => SetFork(s, e, Scan(s.envs[e].fork.c, s.envs[e].fork.v + 1))
    case ForkRead(e) => SetFork(s, e, Read(s.envs[e].fork.c, s.envs[e].fork.v, At(s, e, s.envs[e].fork.v)))
    case MapChild(e) => DoMapChild(s, e, s.envs[e].fork.c, s.envs[e].fork.v, s.envs[e].fork.pte)
    case MapSelf(e) =>
      SetFork(SetEntry(s, e, s.envs[e].fork.v, Entry(At(s, e, s.envs[e].fork.v).page, false, true, false)), e,
              Scan(s.envs[e].fork.c, s.envs[e].fork.v + 1))
    case ForkFinish(e) =>
      SetFork(SetEnv(s, s.envs[e].fork.c, s.envs[s.envs[e].fork.c].(run := true)), e, Idle)
    case Exit(e) => s.(envs := s.envs - {e})
  }

  // ---- Invariants ----

  // duppage of page v is between its two calls: the child has the page, the parent is
  // not yet marked copy-on-write.
  predicate Window(s: State, e: nat, c: nat, v: nat) {
    e in s.envs && s.envs[e].fork == ChildMapped(c, v)
  }

  // The handler has mapped its copy at v and not yet removed it from PFTEMP.
  predicate Doubled(s: State, e: nat, v1: nat, v2: nat) {
    e in s.envs && s.envs[e].fault.Remapped? &&
    ((v1 == PFTEMP && v2 == s.envs[e].fault.v) || (v2 == PFTEMP && v1 == s.envs[e].fault.v))
  }

  // A page mapped writable is mapped nowhere else, unless both are PTE_SHARE.
  predicate Apart(s: State, e1: nat, v1: nat, e2: nat, v2: nat)
    requires Maps(s, e1, v1) && Maps(s, e2, v2)
  {
    (e1, v1) != (e2, v2) && At(s, e1, v1).page == At(s, e2, v2).page && At(s, e1, v1).w ==>
      || (At(s, e1, v1).share && At(s, e2, v2).share)
      || (Window(s, e1, e2, v1) && v1 == v2)
      || (e1 == e2 && Doubled(s, e1, v1, v2))
  }

  ghost predicate Isolated(s: State) {
    forall e1, v1, e2, v2 {:trigger Maps(s, e1, v1), Maps(s, e2, v2)} ::
      Maps(s, e1, v1) && Maps(s, e2, v2) ==> Apart(s, e1, v1, e2, v2)
  }

  ghost predicate Shares(s: State) {
    && (forall e, v {:trigger Maps(s, e, v)} :: Maps(s, e, v) ==>
          At(s, e, v).page in s.mem && !(At(s, e, v).share && At(s, e, v).cow))
    && (forall e1, v1, e2, v2 {:trigger Maps(s, e1, v1), Maps(s, e2, v2)} ::
          Maps(s, e1, v1) && Maps(s, e2, v2) && At(s, e1, v1).page == At(s, e2, v2).page ==>
          At(s, e1, v1).share == At(s, e2, v2).share)
  }

  // The entry duppage read still says which of its three branches applies.
  predicate PteOk(pte: Entry, now: Entry) {
    && pte.share == now.share && !(pte.share && pte.cow)
    && (pte.share || !(pte.w || pte.cow) ==> pte == now)
  }

  predicate ForkOk(s: State, e: nat)
    requires e in s.envs
  {
    match s.envs[e].fork
    case Idle => true
    case Stacking(c) => Child(s, e, c) && Below(s, c, 0)
    case Scan(c, v) => Child(s, e, c) && Below(s, c, v)
    case Read(c, v, pte) =>
      && Child(s, e, c) && Below(s, c, v) && v != PFTEMP && v != UXSTACK && Maps(s, e, v)
      && PteOk(pte, At(s, e, v))
    case ChildMapped(c, v) =>
      && Child(s, e, c) && Below(s, c, v + 1) && v != PFTEMP && v != UXSTACK && Maps(s, e, v) && Maps(s, c, v)
      && !At(s, e, v).share && !At(s, c, v).w && !At(s, c, v).share
  }

  // Apart from its exception stack, the child has pages below the loop's only.
  predicate Below(s: State, c: nat, bound: nat) {
    forall v | c in s.envs && v in s.envs[c].space :: v < bound || v == UXSTACK
  }

  // c was made by e and does not run yet.
  predicate Child(s: State, e: nat, c: nat) {
    && e in s.envs && s.envs[e].run && c in s.envs && c != e
    && !s.envs[c].run && s.envs[c].parent == e && s.envs[c].fork.Idle?
  }

  // PFTEMP is mapped exactly inside the handler, privately, and holds the copy once made.
  predicate FaultOk(s: State, e: nat)
    requires e in s.envs
  {
    match s.envs[e].fault
    case NoFault => !Maps(s, e, PFTEMP)
    case Allocated(v) => Handling(s, e, v) && !At(s, e, v).w && At(s, e, v).cow
    case Copied(v) =>
      && Handling(s, e, v) && !At(s, e, v).w && At(s, e, v).cow
      && At(s, e, PFTEMP).page in s.mem && At(s, e, v).page in s.mem
      && s.mem[At(s, e, PFTEMP).page] == s.mem[At(s, e, v).page]
    case Remapped(v) => Handling(s, e, v) && At(s, e, v).w
  }

  predicate Handling(s: State, e: nat, v: nat) {
    && e in s.envs && s.envs[e].run && v != PFTEMP && Maps(s, e, v) && Maps(s, e, PFTEMP)
    && At(s, e, PFTEMP).w && !At(s, e, PFTEMP).share && !At(s, e, v).share
  }

  ghost predicate Inv(s: State) {
    && Isolated(s)
    && Shares(s)
    && (forall e :: e in s.envs ==> ForkOk(s, e) && FaultOk(s, e))
  }

  // ---- Every step keeps the invariant ----

  lemma KeepStore(s: State, e: nat, v: nat, off: nat, x: nat)
    requires Inv(s) && Enabled(s, Store(e, v, off, x))
    ensures Inv(DoStore(s, e, v, off, x))
  {
    var s' := DoStore(s, e, v, off, x);
    assert forall e1: nat, v1: nat :: Maps(s', e1, v1) == Maps(s, e1, v1);
    forall e1 | e1 in s'.envs ensures ForkOk(s', e1) && FaultOk(s', e1) {
      assert ForkOk(s, e1) && FaultOk(s, e1);
    }
  }

  lemma KeepPageAllocMaps(s: State, e: nat, v: nat, w: bool, share: bool, p: nat)
    requires Inv(s) && Enabled(s, PageAlloc(e, v, w, share, p))
    ensures Isolated(Next(s, PageAlloc(e, v, w, share, p))) && Shares(Next(s, PageAlloc(e, v, w, share, p)))
  {
    var s' := Next(s, PageAlloc(e, v, w, share, p));
    assert forall e1: nat, v1: nat :: Maps(s', e1, v1) ==> (e1, v1) == (e, v) || (Maps(s, e1, v1) && At(s', e1, v1) == At(s, e1, v1));
  }

  lemma KeepPageAlloc(s: State, e: nat, v: nat, w: bool, share: bool, p: nat)
    requires Inv(s) && Enabled(s, PageAlloc(e, v, w, share, p))
    ensures Inv(Next(s, PageAlloc(e, v, w, share, p)))
  {
    KeepPageAllocMaps(s, e, v, w, share, p);
    var s' := Next(s, PageAlloc(e, v, w, share, p));
    forall e1 | e1 in s'.envs ensures ForkOk(s', e1) && FaultOk(s', e1) {
      assert ForkOk(s, e1) && FaultOk(s, e1);
    }
  }

  lemma KeepPageUnmap(s: State, e: nat, v: nat)
    requires Inv(s) && Enabled(s, PageUnmap(e, v))
    ensures Inv(DoUnmap(s, e, v))
  {
    var s' := DoUnmap(s, e, v);
    assert forall e1: nat, v1: nat :: Maps(s', e1, v1) ==> Maps(s, e1, v1) && At(s', e1, v1) == At(s, e1, v1);
    forall e1 | e1 in s'.envs ensures ForkOk(s', e1) && FaultOk(s', e1) {
      assert ForkOk(s, e1) && FaultOk(s, e1);
    }
  }

  lemma KeepFaultAllocMaps(s: State, e: nat, v: nat, p: nat)
    requires Inv(s) && Enabled(s, FaultAlloc(e, v, p))
    ensures Isolated(Next(s, FaultAlloc(e, v, p))) && Shares(Next(s, FaultAlloc(e, v, p)))
  {
    var s' := Next(s, FaultAlloc(e, v, p));
    assert ForkOk(s, e) && FaultOk(s, e);
    assert forall e1: nat, v1: nat :: Maps(s', e1, v1) ==> (e1, v1) == (e, PFTEMP) || (Maps(s, e1, v1) && At(s', e1, v1) == At(s, e1, v1));
  }

  lemma KeepFaultAlloc(s: State, e: nat, v: nat, p: nat)
    requires Inv(s) && Enabled(s, FaultAlloc(e, v, p))
    ensures Inv(Next(s, FaultAlloc(e, v, p)))
  {
    KeepFaultAllocMaps(s, e, v, p);
    var s' := Next(s, FaultAlloc(e, v, p));
    assert ForkOk(s, e) && FaultOk(s, e);
    forall e1 | e1 in s'.envs ensures ForkOk(s', e1) && FaultOk(s', e1) {
      assert ForkOk(s, e1) && FaultOk(s, e1);
    }
  }

  lemma KeepFaultCopyMaps(s: State, e: nat)
    requires Inv(s) && Enabled(s, FaultCopy(e))
    ensures Isolated(Next(s, FaultCopy(e))) && Shares(Next(s, FaultCopy(e)))
  {
    var s' := Next(s, FaultCopy(e));
    assert ForkOk(s, e) && FaultOk(s, e);
    assert forall e1: nat, v1: nat :: Maps(s', e1, v1) ==> Maps(s, e1, v1) && At(s', e1, v1) == At(s, e1, v1);
  }

  lemma KeepFaultCopy(s: State, e: nat)
    requires Inv(s) && Enabled(s, FaultCopy(e))
    ensures Inv(Next(s, FaultCopy(e)))
  {
    KeepFaultCopyMaps(s, e);
    var s' := Next(s, FaultCopy(e));
    assert ForkOk(s, e) && FaultOk(s, e);
    forall e1 | e1 in s'.envs ensures ForkOk(s', e1) && FaultOk(s', e1) {
      assert ForkOk(s, e1) && FaultOk(s, e1);
    }
  }

  // The page under PFTEMP is mapped there and, once remapped, at the faulting page only.
  lemma SoleTemp(s: State, e: nat, e2: nat, v2: nat)
    requires Inv(s) && e in s.envs && (s.envs[e].fault.Allocated? || s.envs[e].fault.Copied?)
    requires Maps(s, e, PFTEMP) && Maps(s, e2, v2) && At(s, e2, v2).page == At(s, e, PFTEMP).page
    ensures (e2, v2) == (e, PFTEMP)
  {
    assert FaultOk(s, e) && ForkOk(s, e);
    assert Apart(s, e, PFTEMP, e2, v2);
  }

  lemma KeepFaultRemapMaps(s: State, e: nat)
    requires Inv(s) && Enabled(s, FaultRemap(e))
    ensures Isolated(Next(s, FaultRemap(e))) && Shares(Next(s, FaultRemap(e)))
  {
    var s' := Next(s, FaultRemap(e));
    var v := s.envs[e].fault.v;
    assert ForkOk(s, e) && FaultOk(s, e);
    assert forall e1: nat, v1: nat :: Maps(s', e1, v1) ==> (e1, v1) == (e, v) || (Maps(s, e1, v1) && At(s', e1, v1) == At(s, e1, v1));
    forall e1: nat, v1: nat, e2: nat, v2: nat | Maps(s', e1, v1) && Maps(s', e2, v2)
      ensures Apart(s', e1, v1, e2, v2)
      ensures At(s', e1, v1).page == At(s', e2, v2).page ==> At(s', e1, v1).share == At(s', e2, v2).share
    {
      if (e1, v1) != (e, v) && (e2, v2) != (e, v) {
        assert Apart(s, e1, v1, e2, v2);
      } else if At(s', e1, v1).page == At(s', e2, v2).page {
        if (e1, v1) != (e, v) { SoleTemp(s, e, e1, v1); }
        if (e2, v2) != (e, v) { SoleTemp(s, e, e2, v2); }
      }
    }
  }

  lemma KeepFaultRemap(s: State, e: nat)
    requires Inv(s) && Enabled(s, FaultRemap(e))
    ensures Inv(Next(s, FaultRemap(e)))
  {
    KeepFaultRemapMaps(s, e);
    var s' := Next(s, FaultRemap(e));
    assert ForkOk(s, e) && FaultOk(s, e);
    forall e1 | e1 in s'.envs ensures ForkOk(s', e1) && FaultOk(s', e1) {
      assert ForkOk(s, e1) && FaultOk(s, e1);
    }
  }

  lemma KeepFaultUnmapMaps(s: State, e: nat)
    requires Inv(s) && Enabled(s, FaultUnmap(e))
    ensures Isolated(Next(s, FaultUnmap(e))) && Shares(Next(s, FaultUnmap(e)))
  {
    var s' := Next(s, FaultUnmap(e));
    assert ForkOk(s, e) && FaultOk(s, e);
    assert forall e1: nat, v1: nat :: Maps(s', e1, v1) ==> Maps(s, e1, v1) && At(s', e1, v1) == At(s, e1, v1);
  }

  lemma KeepFaultUnmap(s: State, e: nat)
    requires Inv(s) && Enabled(s, FaultUnmap(e))
    ensures Inv(Next(s, FaultUnmap(e)))
  {
    KeepFaultUnmapMaps(s, e);
    var s' := Next(s, FaultUnmap(e));
    assert ForkOk(s, e) && FaultOk(s, e);
    forall e1 | e1 in s'.envs ensures ForkOk(s', e1) && FaultOk(s', e1) {
      assert ForkOk(s, e1) && FaultOk(s, e1);
    }
  }

  lemma KeepExoforkMaps(s: State, e: nat, c: nat)
    requires Inv(s) && Enabled(s, Exofork(e, c))
    ensures Isolated(Next(s, Exofork(e, c))) && Shares(Next(s, Exofork(e, c)))
  {
    var s' := Next(s, Exofork(e, c));
    assert ForkOk(s, e) && FaultOk(s, e);
    assert forall e1: nat, v1: nat :: Maps(s', e1, v1) ==> Maps(s, e1, v1) && At(s', e1, v1) == At(s, e1, v1);
  }

  lemma KeepExofork(s: State, e: nat, c: nat)
    requires Inv(s) && Enabled(s, Exofork(e, c))
    ensures Inv(Next(s, Exofork(e, c)))
  {
    KeepExoforkMaps(s, e, c);
    var s' := Next(s, Exofork(e, c));
    assert ForkOk(s, e) && FaultOk(s, e);
    forall e1 | e1 in s'.envs ensures ForkOk(s', e1) && FaultOk(s', e1) {
      assert e1 != c ==> ForkOk(s, e1) && FaultOk(s, e1);
    }
  }

  lemma KeepForkStackMaps(s: State, e: nat, p: nat)
    requires Inv(s) && Enabled(s, ForkStack(e, p))
    ensures Isolated(Next(s, ForkStack(e, p))) && Shares(Next(s, ForkStack(e, p)))
  {
    var s' := Next(s, ForkStack(e, p));
    var c := s.envs[e].fork.c;
    assert ForkOk(s, e);
    assert forall e1: nat, v1: nat :: Maps(s', e1, v1) ==> (e1, v1) == (c, UXSTACK) || (Maps(s, e1, v1) && At(s', e1, v1) == At(s, e1, v1));
    forall e1: nat, v1: nat, e2: nat, v2: nat | Maps(s', e1, v1) && Maps(s', e2, v2) ensures Apart(s', e1, v1, e2, v2) {
      if (e1, v1) != (c, UXSTACK) && (e2, v2) != (c, UXSTACK) {
        assert Apart(s, e1, v1, e2, v2);
      }
    }
  }

  lemma KeepForkStack(s: State, e: nat, p: nat)
    requires Inv(s) && Enabled(s, ForkStack(e, p))
    ensures Inv(Next(s, ForkStack(e, p)))
  {
    KeepForkStackMaps(s, e, p);
    var s' := Next(s, ForkStack(e, p));
    assert ForkOk(s, e) && FaultOk(s, e);
    forall e1 | e1 in s'.envs ensures ForkOk(s', e1) && FaultOk(s', e1) {
      assert ForkOk(s, e1) && FaultOk(s, e1);
    }
  }

  lemma KeepForkSkipMaps(s: State, e: nat)
    requires Inv(s) && Enabled(s, ForkSkip(e))
    ensures Isolated(Next(s, ForkSkip(e))) && Shares(Next(s, ForkSkip(e)))
  {
    var s' := Next(s, ForkSkip(e));
    assert ForkOk(s, e) && FaultOk(s, e);
    assert forall e1: nat, v1: nat :: Maps(s', e1, v1) ==> Maps(s, e1, v1) && At(s', e1, v1) == At(s, e1, v1);
  }

  lemma KeepForkSkip(s: State, e: nat)
    requires Inv(s) && Enabled(s, ForkSkip(e))
    ensures Inv(Next(s, ForkSkip(e)))
  {
    KeepForkSkipMaps(s, e);
    var s' := Next(s, ForkSkip(e));
    assert ForkOk(s, e) && FaultOk(s, e);
    forall e1 | e1 in s'.envs ensures ForkOk(s', e1) && FaultOk(s', e1) {
      assert ForkOk(s, e1) && FaultOk(s, e1);
    }
  }

  lemma KeepForkReadMaps(s: State, e: nat)
    requires Inv(s) && Enabled(s, ForkRead(e))
    ensures Isolated(Next(s, ForkRead(e))) && Shares(Next(s, ForkRead(e)))
  {
    var s' := Next(s, ForkRead(e));
    assert ForkOk(s, e) && FaultOk(s, e);
    assert forall e1: nat, v1: nat :: Maps(s', e1, v1) ==> Maps(s, e1, v1) && At(s', e1, v1) == At(s, e1, v1);
  }

  lemma KeepForkRead(s: State, e: nat)
    requires Inv(s) && Enabled(s, ForkRead(e))
    ensures Inv(Next(s, ForkRead(e)))
  {
    KeepForkReadMaps(s, e);
    var s' := Next(s, ForkRead(e));
    assert ForkOk(s, e) && FaultOk(s, e);
    forall e1 | e1 in s'.envs ensures ForkOk(s', e1) && FaultOk(s', e1) {
      assert ForkOk(s, e1) && FaultOk(s, e1);
    }
  }

  lemma NoWriter(s: State, e: nat, v: nat, e2: nat, v2: nat)
    requires Inv(s) && Live(s, e) && Maps(s, e, v) && !At(s, e, v).w && !At(s, e, v).share
    requires Maps(s, e2, v2) && At(s, e2, v2).page == At(s, e, v).page
    ensures !At(s, e2, v2).w
  {
    assert Apart(s, e2, v2, e, v);
    assert ForkOk(s, e2) && FaultOk(s, e);
  }

  // A private page that is mapped writable is mapped once.
  lemma SoleMapping(s: State, e: nat, v: nat, e2: nat, v2: nat)
    requires Inv(s) && Live(s, e) && Maps(s, e, v) && At(s, e, v).w && !At(s, e, v).share
    requires !s.envs[e].fork.ChildMapped?
    requires Maps(s, e2, v2) && At(s, e2, v2).page == At(s, e, v).page
    ensures (e2, v2) == (e, v)
  {
    assert Apart(s, e, v, e2, v2);
  }

  lemma KeepMapChildMaps(s: State, e: nat)
    requires Inv(s) && Enabled(s, MapChild(e))
    ensures Isolated(Next(s, MapChild(e))) && Shares(Next(s, MapChild(e)))
  {
    var s' := Next(s, MapChild(e));
    assert ForkOk(s, e) && FaultOk(s, e);
    var c, v := s.envs[e].fork.c, s.envs[e].fork.v;
    assert forall e1: nat, v1: nat :: Maps(s', e1, v1) ==> (e1, v1) == (c, v) || (Maps(s, e1, v1) && At(s', e1, v1) == At(s, e1, v1));
    forall e1: nat, v1: nat, e2: nat, v2: nat | Maps(s', e1, v1) && Maps(s', e2, v2) ensures Apart(s', e1, v1, e2, v2) {
      if (e1, v1) != (c, v) && (e2, v2) != (c, v) {
        assert Apart(s, e1, v1, e2, v2);
      } else if At(s, e, v).share {
      } else if (e1, v1) == (c, v) {
        assert !At(s', c, v).w;
      } else if At(s, e1, v1).page == At(s, e, v).page {
        if At(s, e, v).w {
          SoleMapping(s, e, v, e1, v1);
        } else {
          NoWriter(s, e, v, e1, v1);
        }
      }
    }
  }

  lemma KeepMapChild(s: State, e: nat)
    requires Inv(s) && Enabled(s, MapChild(e))
    ensures Inv(Next(s, MapChild(e)))
  {
    KeepMapChildMaps(s, e);
    var s' := Next(s, MapChild(e));
    assert ForkOk(s, e) && FaultOk(s, e);
    forall e1 | e1 in s'.envs ensures ForkOk(s', e1) && FaultOk(s', e1) {
      assert ForkOk(s, e1) && FaultOk(s, e1);
    }
  }

  lemma KeepMapSelfMaps(s: State, e: nat)
    requires Inv(s) && Enabled(s, MapSelf(e))
    ensures Isolated(Next(s, MapSelf(e))) && Shares(Next(s, MapSelf(e)))
  {
    var s' := Next(s, MapSelf(e));
    assert ForkOk(s, e) && FaultOk(s, e);
    assert forall e1: nat, v1: nat :: Maps(s', e1, v1) ==> (e1, v1) == (e, s.envs[e].fork.v) || (Maps(s, e1, v1) && At(s', e1, v1) == At(s, e1, v1));
  }

  lemma KeepMapSelf(s: State, e: nat)
    requires Inv(s) && Enabled(s, MapSelf(e))
    ensures Inv(Next(s, MapSelf(e)))
  {
    KeepMapSelfMaps(s, e);
    var s' := Next(s, MapSelf(e));
    assert ForkOk(s, e) && FaultOk(s, e);
    forall e1 | e1 in s'.envs ensures ForkOk(s', e1) && FaultOk(s', e1) {
      assert ForkOk(s, e1) && FaultOk(s, e1);
    }
  }

  lemma KeepForkFinishMaps(s: State, e: nat)
    requires Inv(s) && Enabled(s, ForkFinish(e))
    ensures Isolated(Next(s, ForkFinish(e))) && Shares(Next(s, ForkFinish(e)))
  {
    var s' := Next(s, ForkFinish(e));
    assert ForkOk(s, e) && FaultOk(s, e);
    assert forall e1: nat, v1: nat :: Maps(s', e1, v1) ==> Maps(s, e1, v1) && At(s', e1, v1) == At(s, e1, v1);
  }

  lemma KeepForkFinish(s: State, e: nat)
    requires Inv(s) && Enabled(s, ForkFinish(e))
    ensures Inv(Next(s, ForkFinish(e)))
  {
    KeepForkFinishMaps(s, e);
    var s' := Next(s, ForkFinish(e));
    assert ForkOk(s, e) && FaultOk(s, e);
    forall e1 | e1 in s'.envs ensures ForkOk(s', e1) && FaultOk(s', e1) {
      assert ForkOk(s, e1) && FaultOk(s, e1);
    }
  }

  lemma KeepExit(s: State, e: nat)
    requires Inv(s) && Enabled(s, Exit(e))
    ensures Inv(Next(s, Exit(e)))
  {
    var s' := Next(s, Exit(e));
    assert ForkOk(s, e) && FaultOk(s, e);
    assert forall e1: nat, v1: nat :: Maps(s', e1, v1) ==> Maps(s, e1, v1) && At(s', e1, v1) == At(s, e1, v1);
    forall e1 | e1 in s'.envs ensures ForkOk(s', e1) && FaultOk(s', e1) {
      assert ForkOk(s, e1) && FaultOk(s, e1);
    }
  }

  lemma KeepsInv(s: State, a: Action)
    requires Inv(s) && Enabled(s, a)
    ensures Inv(Next(s, a))
  {
    match a
    case Load(e, v, off, x) =>
    case Store(e, v, off, x) => KeepStore(s, e, v, off, x);
    case PageAlloc(e, v, w, share, p) => KeepPageAlloc(s, e, v, w, share, p);
    case PageUnmap(e, v) => KeepPageUnmap(s, e, v);
    case FaultAlloc(e, v, p) => KeepFaultAlloc(s, e, v, p);
    case FaultCopy(e) => KeepFaultCopy(s, e);
    case FaultRemap(e) => KeepFaultRemap(s, e);
    case FaultUnmap(e) => KeepFaultUnmap(s, e);
    case Exofork(e, c) => KeepExofork(s, e, c);
    case ForkStack(e, p) => KeepForkStack(s, e, p);
    case ForkSkip(e) => KeepForkSkip(s, e);
    case ForkRead(e) => KeepForkRead(s, e);
    case MapChild(e) => KeepMapChild(s, e);
    case MapSelf(e) => KeepMapSelf(s, e);
    case ForkFinish(e) => KeepForkFinish(s, e);
    case Exit(e) => KeepExit(s, e);
  }

  // ---- The eager reference: private copies, made at fork ----

  // A private page, or a PTE_SHARE page p that everyone who shares it sees alike.
  datatype Cell = Own(data: Contents) | Common(p: nat, data: Contents)

  type Spaces = map<nat, map<nat, Cell>>

  datatype Label =
    | Tau
    | Seen(e: nat, v: nat, off: nat, x: nat)
    | Written(e: nat, v: nat, off: nat, x: nat)
    | Fresh(e: nat, v: nat, cell: Cell)
    | Dropped(e: nat, v: nat)
    | Spawned(c: nat)
    | CopiedTo(e: nat, c: nat, v: nat)
    | Gone(e: nat)
    | GoneCopying(e: nat, c: nat, v: nat)

  predicate Has(t: Spaces, e: nat, v: nat) {
    e in t && v in t[e]
  }

  function PutAt(m: map<nat, Cell>, v: nat, cell: Cell): map<nat, Cell> { m[v := cell] }

  function Without(m: map<nat, Cell>, v: nat): map<nat, Cell> { m - {v} }

  function PutCell(t: Spaces, e: nat, v: nat, cell: Cell): Spaces
    requires e in t
  {
    t[e := PutAt(t[e], v, cell)]
  }

  // Writing a common page shows in every space that shares it.
  ghost function Spread(t: Spaces, p: nat, data: Contents): Spaces {
    map e | e in t :: map v | v in t[e] :: if t[e][v].Common? && t[e][v].p == p then Common(p, data) else t[e][v]
  }

  ghost predicate EagerStep(t: Spaces, t': Spaces, l: Label) {
    match l
    case Tau => t' == t
    case Seen(e, v, off, x) => t' == t && Has(t, e, v) && off < |t[e][v].data| && x == t[e][v].data[off]
    case Written(e, v, off, x) =>
      && Has(t, e, v) && off < |t[e][v].data|
      && (t[e][v].Own? ==> t' == PutCell(t, e, v, Own(Put(t[e][v].data, off, x))))
      && (t[e][v].Common? ==> t' == Spread(t, t[e][v].p, Put(t[e][v].data, off, x)))
    case Fresh(e, v, cell) => e in t && cell.data == ZeroPage() && t' == PutCell(t, e, v, cell)
    case Dropped(e, v) => e in t && t' == t[e := Without(t[e], v)]
    case Spawned(c) => c !in t && t' == t[c := map[]]
    case CopiedTo(e, c, v) => Has(t, e, v) && c in t && t' == PutCell(t, c, v, t[e][v])
    case Gone(e) => e in t && t' == t - {e}
    case GoneCopying(e, c, v) => Has(t, e, v) && c in t && t' == PutCell(t, c, v, t[e][v]) - {e}
  }

  // ---- The mapping from the copy-on-write machine ----

  // duppage has given the child page v of a parent that can still write it: the child's
  // copy is not taken yet.
  predicate Pending(s: State, c: nat, v: nat) {
    && Maps(s, c, v)
    && var e := s.envs[c].parent;
    && !s.envs[c].run && Window(s, e, c, v) && Maps(s, e, v)
    && At(s, e, v).w && At(s, e, v).page == At(s, c, v).page
  }

  predicate Visible(s: State, e: nat, v: nat) {
    Maps(s, e, v) && v != PFTEMP && !Pending(s, e, v) && At(s, e, v).page in s.mem
  }

  function CellOf(s: State, e: nat, v: nat): Cell
    requires Visible(s, e, v)
  {
    var entry := At(s, e, v);
    if entry.share then Common(entry.page, s.mem[entry.page]) else Own(s.mem[entry.page])
  }

  ghost function Abs(s: State): Spaces {
    map e | e in s.envs :: map v | v in s.envs[e].space && Visible(s, e, v) :: CellOf(s, e, v)
  }

  lemma AbsAt(s: State, e: nat, v: nat)
    ensures Has(Abs(s), e, v) <==> Visible(s, e, v)
    ensures Visible(s, e, v) ==> Abs(s)[e][v] == CellOf(s, e, v)
    ensures e in Abs(s) <==> e in s.envs
  {}

  // Spaces agree when they agree cell by cell.
  lemma SpacesEqual(t: Spaces, t': Spaces)
    requires t.Keys == t'.Keys
    requires forall e: nat, v: nat :: Has(t, e, v) <==> Has(t', e, v)
    requires forall e: nat, v: nat :: Has(t, e, v) && Has(t', e, v) ==> t[e][v] == t'[e][v]
    ensures t == t'
  {
    forall e: nat | e in t ensures t[e] == t'[e] {
      forall v: nat ensures v in t[e] <==> v in t'[e] {
        assert Has(t, e, v) <==> Has(t', e, v);
      }
      forall v: nat | v in t[e] ensures t[e][v] == t'[e][v] {
        assert Has(t, e, v);
      }
    }
  }

  // Two states whose visible cells coincide look the same.
  lemma SameView(s: State, s': State)
    requires s'.envs.Keys == s.envs.Keys
    requires forall e: nat, v: nat :: Visible(s', e, v) <==> Visible(s, e, v)
    requires forall e: nat, v: nat :: Visible(s, e, v) ==> CellOf(s', e, v) == CellOf(s, e, v)
    ensures Abs(s') == Abs(s)
  {
    forall e: nat, v: nat
      ensures Has(Abs(s'), e, v) <==> Has(Abs(s), e, v)
      ensures Has(Abs(s), e, v) ==> Abs(s')[e][v] == Abs(s)[e][v]
    {
      AbsAt(s, e, v);
      AbsAt(s', e, v);
    }
    SpacesEqual(Abs(s'), Abs(s));
  }

  // Only cell (c, v) changed.
  lemma OneCell(s: State, s': State, c: nat, v: nat)
    requires s'.envs.Keys == s.envs.Keys && c in s.envs && Visible(s', c, v)
    requires forall e: nat, u: nat :: (e, u) != (c, v) ==> (Visible(s', e, u) <==> Visible(s, e, u))
    requires forall e: nat, u: nat :: (e, u) != (c, v) && Visible(s, e, u) ==> CellOf(s', e, u) == CellOf(s, e, u)
    ensures Abs(s') == PutCell(Abs(s), c, v, CellOf(s', c, v))
  {
    var t := PutCell(Abs(s), c, v, CellOf(s', c, v));
    forall e: nat, u: nat
      ensures Has(Abs(s'), e, u) <==> Has(t, e, u)
      ensures Has(Abs(s'), e, u) ==> Abs(s')[e][u] == t[e][u]
    {
      AbsAt(s, e, u);
      AbsAt(s', e, u);
    }
    SpacesEqual(Abs(s'), t);
  }

  // What the eager machine does when the copy-on-write machine takes action a.
  ghost function LabelOf(s: State, a: Action): Label
    requires Enabled(s, a)
  {
    match a
    case Load(e, v, off, x) => Seen(e, v, off, x)
    case Store(e, v, off, x) => Written(e, v, off, x)
    case PageAlloc(e, v, w, share, p) => Fresh(e, v, if share then Common(p, ZeroPage()) else Own(ZeroPage()))
    case PageUnmap(e, v) => Dropped(e, v)
    case FaultAlloc(_, _, _) => Tau
    case FaultCopy(_) => Tau
    case FaultRemap(_) => Tau
    case FaultUnmap(_) => Tau
    case Exofork(e, c) => Spawned(c)
    case ForkStack(e, p) => Fresh(s.envs[e].fork.c, UXSTACK, Own(ZeroPage()))
    case ForkSkip(_) => Tau
    case ForkRead(_) => Tau
    case MapChild(e) =>
      if !s.envs[e].fork.pte.share && At(s, e, s.envs[e].fork.v).w then Tau
      else CopiedTo(e, s.envs[e].fork.c, s.envs[e].fork.v)
    case MapSelf(e) =>
      if Pending(s, s.envs[e].fork.c, s.envs[e].fork.v) then CopiedTo(e, s.envs[e].fork.c, s.envs[e].fork.v)
      else Tau
    case ForkFinish(_) => Tau
    case Exit(e) =>
      if s.envs[e].fork.ChildMapped? && Pending(s, s.envs[e].fork.c, s.envs[e].fork.v) then
        GoneCopying(e, s.envs[e].fork.c, s.envs[e].fork.v)
      else Gone(e)
  }

  // ---- The refinement, action by action ----

  lemma RefineStore(s: State, e: nat, v: nat, off: nat, x: nat)
    requires Inv(s) && Enabled(s, Store(e, v, off, x))
    ensures EagerStep(Abs(s), Abs(DoStore(s, e, v, off, x)), Written(e, v, off, x))
  {
    var s' := DoStore(s, e, v, off, x);
    var p := At(s, e, v).page;
    AbsAt(s, e, v);
    if At(s, e, v).share {
      RefineSharedStore(s, e, v, off, x);
    } else {
      forall e2: nat, u: nat | (e2, u) != (e, v)
        ensures Visible(s', e2, u) <==> Visible(s, e2, u)
        ensures Visible(s, e2, u) ==> CellOf(s', e2, u) == CellOf(s, e2, u)
      {
        if Maps(s, e2, u) && At(s, e2, u).page == p {
          assert Apart(s, e, v, e2, u) && ForkOk(s, e);
          assert Pending(s, e2, u);
        }
      }
      OneCell(s, s', e, v);
    }
  }

  lemma RefineSharedStore(s: State, e: nat, v: nat, off: nat, x: nat)
    requires Inv(s) && Enabled(s, Store(e, v, off, x)) && At(s, e, v).share
    ensures var s' := DoStore(s, e, v, off, x);
            Abs(s') == Spread(Abs(s), At(s, e, v).page, s'.mem[At(s, e, v).page])
  {
    var s' := DoStore(s, e, v, off, x);
    var p := At(s, e, v).page;
    var t := Spread(Abs(s), p, s'.mem[p]);
    forall e2: nat, u: nat
      ensures Has(Abs(s'), e2, u) <==> Has(t, e2, u)
      ensures Has(Abs(s'), e2, u) ==> Abs(s')[e2][u] == t[e2][u]
    {
      AbsAt(s, e2, u);
      AbsAt(s', e2, u);
      if Maps(s, e2, u) && At(s, e2, u).page == p {
        assert At(s, e2, u).share == At(s, e, v).share;
      }
    }
    SpacesEqual(Abs(s'), t);
  }

  lemma RefinePageAlloc(s: State, e: nat, v: nat, w: bool, share: bool, p: nat)
    requires Inv(s) && Enabled(s, PageAlloc(e, v, w, share, p))
    ensures EagerStep(Abs(s), Abs(Next(s, PageAlloc(e, v, w, share, p))), LabelOf(s, PageAlloc(e, v, w, share, p)))
  {
    OneCell(s, Next(s, PageAlloc(e, v, w, share, p)), e, v);
  }

  lemma RefinePageUnmap(s: State, e: nat, v: nat)
    requires Inv(s) && Enabled(s, PageUnmap(e, v))
    ensures EagerStep(Abs(s), Abs(DoUnmap(s, e, v)), Dropped(e, v))
  {
    var s' := DoUnmap(s, e, v);
    var t := Abs(s)[e := Without(Abs(s)[e], v)];
    forall e2: nat, u: nat
      ensures Has(Abs(s'), e2, u) <==> Has(t, e2, u)
      ensures Has(Abs(s'), e2, u) ==> Abs(s')[e2][u] == t[e2][u]
    {
      AbsAt(s, e2, u);
      AbsAt(s', e2, u);
    }
    SpacesEqual(Abs(s'), t);
  }

  lemma RefineFaultAlloc(s: State, e: nat, v: nat, p: nat)
    requires Inv(s) && Enabled(s, FaultAlloc(e, v, p))
    ensures Abs(Next(s, FaultAlloc(e, v, p))) == Abs(s)
  {
    SameView(s, Next(s, FaultAlloc(e, v, p)));
  }

  lemma RefineFaultCopy(s: State, e: nat)
    requires Inv(s) && Enabled(s, FaultCopy(e))
    ensures Abs(Next(s, FaultCopy(e))) == Abs(s)
  {
    var s' := Next(s, FaultCopy(e));
    forall e2: nat, u: nat
      ensures Visible(s', e2, u) <==> Visible(s, e2, u)
      ensures Visible(s, e2, u) ==> CellOf(s', e2, u) == CellOf(s, e2, u)
    {
      assert FaultOk(s, e) && ForkOk(s, e);
      if Maps(s, e2, u) { assert Apart(s, e, PFTEMP, e2, u); }
    }
    SameView(s, s');
  }

  lemma RefineFaultRemap(s: State, e: nat)
    requires Inv(s) && Enabled(s, FaultRemap(e))
    ensures Abs(Next(s, FaultRemap(e))) == Abs(s)
  {
    var s' := Next(s, FaultRemap(e));
    assert FaultOk(s, e) && ForkOk(s, e);
    forall e2: nat, u: nat
      ensures Visible(s', e2, u) <==> Visible(s, e2, u)
      ensures Visible(s, e2, u) ==> CellOf(s', e2, u) == CellOf(s, e2, u)
    {
      if Maps(s, e2, u) { assert Apart(s, e, PFTEMP, e2, u); }
    }
    SameView(s, s');
  }

  lemma RefineFaultUnmap(s: State, e: nat)
    requires Inv(s) && Enabled(s, FaultUnmap(e))
    ensures Abs(Next(s, FaultUnmap(e))) == Abs(s)
  {
    assert FaultOk(s, e) && ForkOk(s, e);
    SameView(s, Next(s, FaultUnmap(e)));
  }

  lemma ExoforkView(s: State, e: nat, c: nat)
    requires Enabled(s, Exofork(e, c))
    requires forall e2 :: e2 in s.envs ==> s.envs[e2].fork.Idle? || s.envs[e2].fork.c != c
    ensures Abs(Next(s, Exofork(e, c))) == Abs(s)[c := map[]]
  {
    var s' := Next(s, Exofork(e, c));
    var t := Abs(s)[c := map[]];
    forall e2: nat, u: nat
      ensures Has(Abs(s'), e2, u) <==> Has(t, e2, u)
      ensures Has(Abs(s'), e2, u) ==> Abs(s')[e2][u] == t[e2][u]
    {
      AbsAt(s, e2, u);
      AbsAt(s', e2, u);
    }
    SpacesEqual(Abs(s'), t);
  }

  lemma RefineExofork(s: State, e: nat, c: nat)
    requires Inv(s) && Enabled(s, Exofork(e, c))
    ensures EagerStep(Abs(s), Abs(Next(s, Exofork(e, c))), Spawned(c))
  {
    forall e2 | e2 in s.envs ensures s.envs[e2].fork.Idle? || s.envs[e2].fork.c != c {
      assert ForkOk(s, e2);
    }
    ExoforkView(s, e, c);
  }

  lemma RefineForkStack(s: State, e: nat, p: nat)
    requires Inv(s) && Enabled(s, ForkStack(e, p))
    ensures EagerStep(Abs(s), Abs(Next(s, ForkStack(e, p))), LabelOf(s, ForkStack(e, p)))
  {
    assert ForkOk(s, e);
    OneCell(s, Next(s, ForkStack(e, p)), s.envs[e].fork.c, UXSTACK);
  }

  lemma RefineForkSkip(s: State, e: nat)
    requires Inv(s) && Enabled(s, ForkSkip(e))
    ensures Abs(Next(s, ForkSkip(e))) == Abs(s)
  {
    SameView(s, Next(s, ForkSkip(e)));
  }

  lemma RefineForkRead(s: State, e: nat)
    requires Inv(s) && Enabled(s, ForkRead(e))
    ensures Abs(Next(s, ForkRead(e))) == Abs(s)
  {
    SameView(s, Next(s, ForkRead(e)));
  }

  // duppage's first call, without the global invariant: either the child's copy is taken
  // now, or it stays pending because the parent can still write the page.
  lemma MapChildView(s: State, e: nat, c: nat, v: nat, pte: Entry)
    requires e in s.envs && s.envs[e].fork == Read(c, v, pte) && ForkOk(s, e)
    requires At(s, e, v).page in s.mem && !(At(s, e, v).share && At(s, e, v).cow)
    ensures var s' := DoMapChild(s, e, c, v, pte);
            if !pte.share && At(s, e, v).w then Abs(s') == Abs(s)
            else Visible(s, e, v) && c in Abs(s) && Abs(s') == PutCell(Abs(s), c, v, CellOf(s, e, v))
  {
    var s' := DoMapChild(s, e, c, v, pte);
    assert !Maps(s, c, v);
    if !pte.share && At(s, e, v).w {
      assert Pending(s', c, v);
      SameView(s, s');
    } else {
      AbsAt(s, c, v);
      OneCell(s, s', c, v);
    }
  }

  lemma RefineMapChild(s: State, e: nat)
    requires Inv(s) && Enabled(s, MapChild(e))
    ensures EagerStep(Abs(s), Abs(Next(s, MapChild(e))), LabelOf(s, MapChild(e)))
  {
    var v := s.envs[e].fork.v;
    assert ForkOk(s, e) && Maps(s, e, v);
    AbsAt(s, e, v);
    MapChildView(s, e, s.envs[e].fork.c, v, s.envs[e].fork.pte);
  }

  // duppage's second call: a pending copy is taken at this instant.
  lemma MapSelfView(s: State, s': State, e: nat, c: nat, v: nat)
    requires e in s.envs && s.envs[e].fork == ChildMapped(c, v) && ForkOk(s, e)
    requires At(s, e, v).page in s.mem && At(s, c, v).page in s.mem
    requires s' == SetFork(SetEntry(s, e, v, Entry(At(s, e, v).page, false, true, false)), e, Scan(c, v + 1))
    ensures if Pending(s, c, v) then Visible(s, e, v) && c in Abs(s) && Abs(s') == PutCell(Abs(s), c, v, CellOf(s, e, v))
            else Abs(s') == Abs(s)
  {
    AbsAt(s, c, v);
    if Pending(s, c, v) {
      OneCell(s, s', c, v);
    } else {
      SameView(s, s');
    }
  }

  lemma RefineMapSelf(s: State, e: nat)
    requires Inv(s) && Enabled(s, MapSelf(e))
    ensures EagerStep(Abs(s), Abs(Next(s, MapSelf(e))), LabelOf(s, MapSelf(e)))
  {
    var c, v := s.envs[e].fork.c, s.envs[e].fork.v;
    assert ForkOk(s, e) && Maps(s, e, v) && Maps(s, c, v);
    AbsAt(s, e, v);
    MapSelfView(s, Next(s, MapSelf(e)), e, c, v);
  }

  lemma RefineForkFinish(s: State, e: nat)
    requires Inv(s) && Enabled(s, ForkFinish(e))
    ensures Abs(Next(s, ForkFinish(e))) == Abs(s)
  {
    assert ForkOk(s, e);
    SameView(s, Next(s, ForkFinish(e)));
  }

  lemma ExitView(s: State, e: nat)
    requires e in s.envs && ForkOk(s, e) && (forall v :: Maps(s, e, v) ==> At(s, e, v).page in s.mem)
    ensures var s' := s.(envs := s.envs - {e});
            match s.envs[e].fork
            case ChildMapped(c, v) =>
              if Pending(s, c, v) then
                Visible(s, e, v) && c in Abs(s) && Abs(s') == PutCell(Abs(s), c, v, CellOf(s, e, v)) - {e}
              else Abs(s') == Abs(s) - {e}
            case _ => Abs(s') == Abs(s) - {e}
  {
    var s' := s.(envs := s.envs - {e});
    var f := s.envs[e].fork;
    var t := if f.ChildMapped? && Pending(s, f.c, f.v) then PutCell(Abs(s), f.c, f.v, CellOf(s, e, f.v)) - {e}
             else Abs(s) - {e};
    forall e2: nat, u: nat
      ensures Has(Abs(s'), e2, u) <==> Has(t, e2, u)
      ensures Has(Abs(s'), e2, u) ==> Abs(s')[e2][u] == t[e2][u]
    {
      AbsAt(s, e2, u);
      AbsAt(s', e2, u);
    }
    SpacesEqual(Abs(s'), t);
  }

  lemma RefineExit(s: State, e: nat)
    requires Inv(s) && Enabled(s, Exit(e))
    ensures EagerStep(Abs(s), Abs(Next(s, Exit(e))), LabelOf(s, Exit(e)))
  {
    assert ForkOk(s, e);
    ExitView(s, e);
    if s.envs[e].fork.ChildMapped? { AbsAt(s, e, s.envs[e].fork.v); }
  }

  // The theorem for one step: what environments see changes exactly as in the machine
  // that copies eagerly.
  lemma Refines(s: State, a: Action)
    requires Inv(s) && Enabled(s, a)
    ensures Inv(Next(s, a))
    ensures EagerStep(Abs(s), Abs(Next(s, a)), LabelOf(s, a))
  {
    KeepsInv(s, a);
    match a
    case Load(e, v, off, x) => AbsAt(s, e, v);
    case Store(e, v, off, x) => RefineStore(s, e, v, off, x);
    case PageAlloc(e, v, w, share, p) => RefinePageAlloc(s, e, v, w, share, p);
    case PageUnmap(e, v) => RefinePageUnmap(s, e, v);
    case FaultAlloc(e, v, p) => RefineFaultAlloc(s, e, v, p);
    case FaultCopy(e) => RefineFaultCopy(s, e);
    case FaultRemap(e) => RefineFaultRemap(s, e);
    case FaultUnmap(e) => RefineFaultUnmap(s, e);
    case Exofork(e, c) => RefineExofork(s, e, c);
    case ForkStack(e, p) => RefineForkStack(s, e, p);
    case ForkSkip(e) => RefineForkSkip(s, e);
    case ForkRead(e) => RefineForkRead(s, e);
    case MapChild(e) => RefineMapChild(s, e);
    case MapSelf(e) => RefineMapSelf(s, e);
    case ForkFinish(e) => RefineForkFinish(s, e);
    case Exit(e) => RefineExit(s, e);
  }

  // ---- Whole runs ----

  ghost predicate Run(s: State, acts: seq<Action>, s': State)
    decreases |acts|
  {
    if acts == [] then s' == s else Enabled(s, acts[0]) && Run(Next(s, acts[0]), acts[1..], s')
  }

  ghost predicate EagerRun(t: Spaces, labels: seq<Label>, t': Spaces)
    decreases |labels|
  {
    if labels == [] then t' == t else exists u :: EagerStep(t, u, labels[0]) && EagerRun(u, labels[1..], t')
  }

  ghost function Labels(s: State, acts: seq<Action>, s': State): seq<Label>
    requires Run(s, acts, s')
    decreases |acts|
  {
    if acts == [] then [] else [LabelOf(s, acts[0])] + Labels(Next(s, acts[0]), acts[1..], s')
  }

  // Copy-on-write fork refines eager copying over every interleaving.
  lemma {:induction false} ForkRefinesEagerCopy(s: State, acts: seq<Action>, s': State)
    requires Inv(s) && Run(s, acts, s')
    ensures Inv(s') && EagerRun(Abs(s), Labels(s, acts, s'), Abs(s'))
    decreases |acts|
  {
    if acts != [] {
      var s1 := Next(s, acts[0]);
      Refines(s, acts[0]);
      ForkRefinesEagerCopy(s1, acts[1..], s');
      var labels := Labels(s, acts, s');
      assert labels[1..] == Labels(s1, acts[1..], s');
      assert EagerStep(Abs(s), Abs(s1), labels[0]) && EagerRun(Abs(s1), labels[1..], Abs(s'));
    }
  }

  // The first environment, before it maps anything.
  const BOOT := State(map[], map[0 := Env(map[], true, 0, NoFault, Idle)])

  // No page is writable in one environment and mapped in another, in any reachable state,
  // but for PTE_SHARE pages and for the two calls of one duppage.
  lemma WritableMeansPrivate(acts: seq<Action>, s: State, e1: nat, v1: nat, e2: nat, v2: nat)
    requires Run(BOOT, acts, s) && Maps(s, e1, v1) && Maps(s, e2, v2) && e1 != e2
    requires At(s, e1, v1).page == At(s, e2, v2).page && At(s, e1, v1).w
    ensures (At(s, e1, v1).share && At(s, e2, v2).share) || (s.envs[e1].fork == ChildMapped(e2, v1) && v1 == v2)
  {
    assert Inv(BOOT);
    ForkRefinesEagerCopy(BOOT, acts, s);
    assert Apart(s, e1, v1, e2, v2);
  }

  // No system call of the handler or of fork fails in a reachable state, given a free page
  // for data when one is needed and memory for page tables: a handler in progress can always
  // take its next step, a fork in progress can whenever no handler is in the way.
  lemma NeverStuck(s: State, e: nat, p: nat)
    requires Inv(s) && e in s.envs && Unmapped(s, p)
    ensures s.envs[e].fault.Allocated? ==> Enabled(s, FaultCopy(e))
    ensures s.envs[e].fault.Copied? ==> Enabled(s, FaultRemap(e))
    ensures s.envs[e].fault.Remapped? ==> Enabled(s, FaultUnmap(e)) && At(s, e, s.envs[e].fault.v).w
    ensures s.envs[e].fault.NoFault? ==>
      match s.envs[e].fork
      case Idle => true
      case Stacking(_) => Enabled(s, ForkStack(e, p))
      case Scan(_, _) => Enabled(s, ForkSkip(e)) || Enabled(s, ForkRead(e)) || Enabled(s, ForkFinish(e))
      case Read(_, _, _) => Enabled(s, MapChild(e))
      case ChildMapped(_, _) => Enabled(s, MapSelf(e))
  {
    assert ForkOk(s, e) && FaultOk(s, e);
  }

  // ---- A run that needs the second call ----

  lemma {:induction false} RunJoins(s: State, acts: seq<Action>, s1: State, acts1: seq<Action>, s2: State)
    requires Run(s, acts, s1) && Run(s1, acts1, s2)
    ensures Run(s, acts + acts1, s2)
    decreases |acts|
  {
    if acts == [] {
      assert acts + acts1 == acts1;
    } else {
      RunJoins(Next(s, acts[0]), acts[1..], s1, acts1, s2);
      assert (acts + acts1)[1..] == acts[1..] + acts1;
    }
  }

  lemma OneMore(s: State, acts: seq<Action>, s1: State, a: Action) returns (acts': seq<Action>)
    requires Run(s, acts, s1) && Enabled(s1, a)
    ensures Run(s, acts', Next(s1, a))
  {
    assert Run(s1, [a], Next(s1, a));
    RunJoins(s, acts, s1, [a], Next(s1, a));
    acts' := acts + [a];
  }

  // The loop of fork over pages that are not mapped, or are the exception stack.
  lemma {:induction false} Skips(s: State, acts: seq<Action>, s1: State, e: nat, c: nat, v: nat, to: nat) returns (acts': seq<Action>)
    requires Run(s, acts, s1) && Live(s1, e) && s1.envs[e].fork == Scan(c, v) && v <= to <= TOP
    requires forall u: nat :: v <= u < to && u != UXSTACK ==> !Maps(s1, e, u)
    ensures Run(s, acts', SetFork(s1, e, Scan(c, to)))
    decreases (to as int) - v
  {
    if v == to {
      acts' := acts;
      assert s1.envs[e].(fork := Scan(c, to)) == s1.envs[e] && s1.envs[e := s1.envs[e]] == s1.envs;
    } else {
      var acts1 := OneMore(s, acts, s1, ForkSkip(e));
      var s2 := SetFork(s1, e, Scan(c, v + 1));
      assert s2 == Next(s1, ForkSkip(e)) && Live(s2, e);
      forall u: nat | v + 1 <= u < to && u != UXSTACK ensures !Maps(s2, e, u) { assert !Maps(s1, e, u); }
      acts' := Skips(s, acts1, s2, e, c, v + 1, to);
      assert s2.envs[e := s2.envs[e].(fork := Scan(c, to))] == s1.envs[e := s1.envs[e].(fork := Scan(c, to))];
    }
  }

  function Parent(entry: Entry, fork: Fork): Env { Env(map[5 := entry], true, 0, NoFault, fork) }

  function Kept(p: nat): Env { Env(map[UXSTACK := Entry(p, true, false, false)], false, 0, NoFault, Idle) }

  // fork of environment 0, which has page 5 alone: the child and its exception stack.
  lemma ForkBegins(s: State, acts: seq<Action>, s1: State, entry: Entry, c: nat, p: nat) returns (acts': seq<Action>, s2: State)
    requires Run(s, acts, s1) && 0 in s1.envs && s1.envs[0] == Parent(entry, Idle) && c !in s1.envs && Unmapped(s1, p)
    ensures Run(s, acts', s2)
    ensures s2 == State(s1.mem[p := ZeroPage()], s1.envs[c := Kept(p)][0 := Parent(entry, Scan(c, 0))])
  {
    acts' := OneMore(s, acts, s1, Exofork(0, c));
    s2 := Next(s1, Exofork(0, c));
    assert forall e: nat, v: nat :: Maps(s2, e, v) ==> Maps(s1, e, v) && At(s2, e, v) == At(s1, e, v);
    acts' := OneMore(s, acts', s2, ForkStack(0, p));
    s2 := Next(s2, ForkStack(0, p));
  }

  // Then the loop, until duppage has read the page's entry.
  lemma ForkReads(s: State, acts: seq<Action>, s1: State, entry: Entry, c: nat, p: nat) returns (acts': seq<Action>, s2: State)
    requires Run(s, acts, s1) && 0 in s1.envs && s1.envs[0] == Parent(entry, Idle) && c !in s1.envs && Unmapped(s1, p)
    ensures Run(s, acts', s2)
    ensures s2 == State(s1.mem[p := ZeroPage()], s1.envs[c := Kept(p)][0 := Parent(entry, Read(c, 5, entry))])
  {
    acts', s2 := ForkBegins(s, acts, s1, entry, c, p);
    acts' := Skips(s, acts', s2, 0, c, 0, 5);
    s2 := SetFork(s2, 0, Scan(c, 5));
    acts' := OneMore(s, acts', s2, ForkRead(0));
    s2 := Next(s2, ForkRead(0));
  }

  function Cow(entry: Entry): Entry { Entry(entry.page, false, true, false) }

  // The child, once page 5 is mapped in it.
  function Given(p: nat, entry: Entry, run: bool): Env { Kept(p).(space := Kept(p).space[5 := Cow(entry)], run := run) }

  // duppage of a writable page: the child's mapping, then the parent's.
  lemma ChildGiven(s: State, acts: seq<Action>, s1: State, entry: Entry, c: nat, p: nat) returns (acts': seq<Action>)
    requires Run(s, acts, s1) && c != 0 && c in s1.envs && s1.envs[c] == Kept(p) && entry.w && !entry.share
    requires 0 in s1.envs && s1.envs[0] == Parent(entry, Read(c, 5, entry))
    ensures Run(s, acts', State(s1.mem, s1.envs[c := Given(p, entry, false)][0 := Parent(entry, ChildMapped(c, 5))]))
  {
    acts' := OneMore(s, acts, s1, MapChild(0));
    assert Next(s1, MapChild(0)) == State(s1.mem, s1.envs[c := Given(p, entry, false)][0 := Parent(entry, ChildMapped(c, 5))]);
  }

  lemma ParentMarked(s: State, acts: seq<Action>, s1: State, entry: Entry, c: nat, p: nat) returns (acts': seq<Action>)
    requires Run(s, acts, s1) && c != 0 && c in s1.envs && s1.envs[c] == Given(p, entry, false)
    requires 0 in s1.envs && s1.envs[0] == Parent(entry, ChildMapped(c, 5))
    ensures Run(s, acts', State(s1.mem, s1.envs[0 := Parent(Cow(entry), Scan(c, 6))]))
  {
    acts' := OneMore(s, acts, s1, MapSelf(0));
    assert Next(s1, MapSelf(0)) == State(s1.mem, s1.envs[0 := Parent(Cow(entry), Scan(c, 6))]) by {
      assert s1.envs[0].space[5 := Cow(entry)] == map[5 := Cow(entry)];
    }
  }

  // The last turns of the loop, and the child is made runnable.
  lemma ForkLeaves(s: State, acts: seq<Action>, s1: State, entry: Entry, c: nat, p: nat) returns (acts': seq<Action>)
    requires Run(s, acts, s1) && c != 0 && c in s1.envs && s1.envs[c] == Given(p, entry, false)
    requires 0 in s1.envs && s1.envs[0] == Parent(Cow(entry), Scan(c, 6))
    ensures Run(s, acts', State(s1.mem, s1.envs[c := Given(p, entry, true)][0 := Parent(Cow(entry), Idle)]))
  {
    acts' := Skips(s, acts, s1, 0, c, 6, TOP);
    var s2 := SetFork(s1, 0, Scan(c, TOP));
    acts' := OneMore(s, acts', s2, ForkFinish(0));
    assert Next(s2, ForkFinish(0)).envs == s1.envs[c := Given(p, entry, true)][0 := Parent(Cow(entry), Idle)];
  }

  lemma ForkEnds(s: State, acts: seq<Action>, s1: State, entry: Entry, c: nat, p: nat) returns (acts': seq<Action>, s2: State)
    requires Run(s, acts, s1) && c != 0 && c in s1.envs && s1.envs[c] == Kept(p) && entry.w && !entry.share
    requires 0 in s1.envs && s1.envs[0] == Parent(entry, Read(c, 5, entry))
    ensures Run(s, acts', s2) && s2 == State(s1.mem, s1.envs[c := Given(p, entry, true)][0 := Parent(Cow(entry), Idle)])
  {
    acts' := ChildGiven(s, acts, s1, entry, c, p);
    s2 := State(s1.mem, s1.envs[c := Given(p, entry, false)][0 := Parent(entry, ChildMapped(c, 5))]);
    acts' := ParentMarked(s, acts', s2, entry, c, p);
    s2 := State(s2.mem, s2.envs[0 := Parent(Cow(entry), Scan(c, 6))]);
    acts' := ForkLeaves(s, acts', s2, entry, c, p);
    s2 := State(s2.mem, s2.envs[c := Given(p, entry, true)][0 := Parent(Cow(entry), Idle)]);
    assert s2.envs == s1.envs[c := Given(p, entry, true)][0 := Parent(Cow(entry), Idle)];
  }

  // The handler's copy is made, for a write to page 5 after duppage has read its entry.
  lemma CopyBetween(s: State, acts: seq<Action>, s1: State, pte: Entry, c: nat, p: nat) returns (acts': seq<Action>, s2: State)
    requires Run(s, acts, s1) && 0 in s1.envs && s1.envs[0] == Parent(pte, Read(c, 5, pte)) && pte.cow && !pte.w && pte.page in s1.mem && Unmapped(s1, p)
    ensures Run(s, acts', s2)
    ensures s2.envs == s1.envs[0 := Env(map[5 := pte, PFTEMP := Entry(p, true, false, false)], true, 0, Copied(5), Read(c, 5, pte))]
  {
    acts' := OneMore(s, acts, s1, FaultAlloc(0, 5, p));
    s2 := Next(s1, FaultAlloc(0, 5, p));
    acts' := OneMore(s, acts', s2, FaultCopy(0));
    s2 := Next(s2, FaultCopy(0));
    assert s2.envs[0].space == map[5 := pte, PFTEMP := Entry(p, true, false, false)];
  }

  // And moved to page 5.
  lemma FaultBetween(s: State, acts: seq<Action>, s1: State, pte: Entry, c: nat, p: nat) returns (acts': seq<Action>, s2: State)
    requires Run(s, acts, s1) && 0 in s1.envs
    requires s1.envs[0] == Env(map[5 := pte, PFTEMP := Entry(p, true, false, false)], true, 0, Copied(5), Read(c, 5, pte))
    ensures Run(s, acts', s2) && s2.envs == s1.envs[0 := Parent(Entry(p, true, false, false), Read(c, 5, pte))]
  {
    acts' := OneMore(s, acts, s1, FaultRemap(0));
    s2 := Next(s1, FaultRemap(0));
    acts' := OneMore(s, acts', s2, FaultUnmap(0));
    s2 := Next(s2, FaultUnmap(0));
    assert s2.envs[0].space == map[5 := Entry(p, true, false, false)];
  }

  // One fork, after which page 5 is copy-on-write.
  lemma FirstFork() returns (acts: seq<Action>, s: State)
    ensures Run(BOOT, acts, s) && 0 in s.envs && s.envs[0] == Parent(Entry(7, false, true, false), Idle) && 1 !in s.envs
    ensures 7 in s.mem && forall e: nat, v: nat :: Maps(s, e, v) ==> At(s, e, v).page == 7 || At(s, e, v).page == 9
  {
    var writable := Entry(7, true, false, false);
    assert Run(BOOT, [], BOOT);
    acts := OneMore(BOOT, [], BOOT, PageAlloc(0, 5, true, false, 7));
    s := Next(BOOT, PageAlloc(0, 5, true, false, 7));
    assert s.envs[0].space == map[5 := writable];
    acts, s := ForkReads(BOOT, acts, s, writable, 2, 9);
    assert forall e: nat, v: nat :: Maps(s, e, v) ==> At(s, e, v).page == 7 || At(s, e, v).page == 9;
    acts, s := ForkEnds(BOOT, acts, s, writable, 2, 9);
  }

  lemma SecondFork() returns (acts: seq<Action>, s: State)
    ensures Run(BOOT, acts, s) && 0 in s.envs && s.envs[0] == Parent(Entry(8, true, false, false), Read(1, 5, Entry(7, false, true, false)))
    ensures 1 in s.envs && s.envs[1] == Kept(10)
  {
    var pte := Entry(7, false, true, false);
    var acts1, s1 := FirstFork();
    acts, s := ForkReads(BOOT, acts1, s1, pte, 1, 10);
    forall e: nat, v: nat | Maps(s, e, v) ensures At(s, e, v).page != 8 {
      if e != 0 && e != 1 { assert Maps(s1, e, v) && At(s, e, v) == At(s1, e, v); }
    }
    acts, s := CopyBetween(BOOT, acts, s, pte, 1, 8);
    acts, s := FaultBetween(BOOT, acts, s, pte, 1, 8);
  }

  // duppage must mark the parent again even if the entry it read was already COW: here is a
  // run from the start to a state where, because of a fault in between, mapping the child
  // alone leaves a writable page shared.
  lemma RemarkingNeeded() returns (acts: seq<Action>, s: State)
    ensures Run(BOOT, acts, s) && Inv(s) && Enabled(s, MapChild(0))
    ensures s.envs[0].fork.Read? && s.envs[0].fork.pte.cow && !s.envs[0].fork.pte.w
    ensures !Isolated(SetFork(Next(s, MapChild(0)), 0, Scan(s.envs[0].fork.c, s.envs[0].fork.v + 1)))
  {
    acts, s := SecondFork();
    assert Inv(BOOT);
    ForkRefinesEagerCopy(BOOT, acts, s);
    ChildAlone(s);
  }

  // Stopping after the child's mapping.
  lemma ChildAlone(s: State)
    requires 0 in s.envs && s.envs[0] == Parent(Entry(8, true, false, false), Read(1, 5, Entry(7, false, true, false)))
    requires 1 in s.envs && s.envs[1] == Kept(10)
    ensures Enabled(s, MapChild(0)) && !Isolated(SetFork(Next(s, MapChild(0)), 0, Scan(1, 6)))
  {
    var s' := SetFork(Next(s, MapChild(0)), 0, Scan(1, 6));
    assert Maps(s', 0, 5) && Maps(s', 1, 5) && !Apart(s', 0, 5, 1, 5);
  }
}
