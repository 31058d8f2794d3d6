/** lib/fork.c as it runs when nothing interrupts it: the page-fault handler, duppage and the
    loop of fork, each system call a step of the copy-on-write machine. */
module ForkCode {
  import opened CowFork

  // What the handler leaves: a private writable page at v with the old contents.
  ghost predicate Privatized(s: State, s': State, e: nat, v: nat, p: nat)
    requires Maps(s, e, v) && At(s, e, v).page in s.mem
  {
    && s' == State(s.mem[p := s.mem[At(s, e, v).page]],
                   s.envs[e := s.envs[e].(space := s.envs[e].space[v := Entry(p, true, false, false)])])
  }

  // The entry the parent has after duppage.
  function OwnEntry(pte: Entry): Entry {
    if pte.share || !(pte.w || pte.cow) then pte else Entry(pte.page, false, true, false)
  }

  // duppage(c, v) by e, uninterrupted.
  function Dupped(s: State, e: nat, c: nat, v: nat): State
    requires Maps(s, e, v) && c in s.envs && c != e
  {
    var pte := At(s, e, v);
    SetFork(SetEntry(SetEntry(s, c, v, ChildEntry(pte, pte.page)), e, v, OwnEntry(pte)), e, Scan(c, v + 1))
  }

  class World {
    var mem: map<nat, Contents>
    var envs: map<nat, Env>

    ghost function Now(): State
      reads this
    {
      State(mem, envs)
    }

    // ---- System calls ----

    method SysPageAlloc(e: nat, v: nat, entry: Entry)
      requires e in envs
      modifies this
      ensures Now() == Alloc(old(Now()), e, v, entry)
    {
      mem := mem[entry.page := ZeroPage()];
      envs := envs[e := envs[e].(space := envs[e].space[v := entry])];
    }

    method SysPageMap(src: nat, sv: nat, dst: nat, dv: nat, w: bool, cow: bool, share: bool)
      requires Maps(Now(), src, sv) && dst in envs
      modifies this`envs
      ensures Now() == SetEntry(old(Now()), dst, dv, Entry(old(envs)[src].space[sv].page, w, cow, share))
    {
      var page := envs[src].space[sv].page;
      envs := envs[dst := envs[dst].(space := envs[dst].space[dv := Entry(page, w, cow, share)])];
    }

    method SysPageUnmap(e: nat, v: nat)
      requires e in envs
      modifies this`envs
      ensures Now() == DoUnmap(old(Now()), e, v)
    {
      envs := envs[e := envs[e].(space := envs[e].space - {v})];
    }

    method Mark(e: nat, fault: Fault)
      requires e in envs
      modifies this`envs
      ensures Now() == SetFault(old(Now()), e, fault)
    {
      envs := envs[e := envs[e].(fault := fault)];
    }

    method Reach(e: nat, fork: Fork)
      requires e in envs
      modifies this`envs
      ensures Now() == SetFork(old(Now()), e, fork)
    {
      envs := envs[e := envs[e].(fork := fork)];
    }

    // ---- pgfault ----

    // The first two of the handler's steps, for a write to a copy-on-write page.
    method CopyToTemp(e: nat, v: nat, p: nat)
      requires Inv(Now()) && Enabled(Now(), FaultAlloc(e, v, p))
      modifies this
      ensures Inv(Now()) && Enabled(Now(), FaultRemap(e))
      ensures var s1 := Next(old(Now()), FaultAlloc(e, v, p)); Enabled(s1, FaultCopy(e)) && Now() == Next(s1, FaultCopy(e))
    {
      ghost var s := Now();
      SysPageAlloc(e, PFTEMP, Entry(p, true, false, false));
      Mark(e, Allocated(v));
      KeepsInv(s, FaultAlloc(e, v, p));
      assert Now() == Next(s, FaultAlloc(e, v, p));
      FaultStep(Now(), e);
      ghost var s1 := Now();
      mem := mem[envs[e].space[PFTEMP].page := mem[envs[e].space[v].page]];
      Mark(e, Copied(v));
      KeepsInv(s1, FaultCopy(e));
      FaultStep(Now(), e);
    }

    // The other two.
    method MoveFromTemp(e: nat, v: nat)
      requires Inv(Now()) && Enabled(Now(), FaultRemap(e)) && envs[e].fault == Copied(v)
      modifies this
      ensures Inv(Now())
      ensures var s1 := Next(old(Now()), FaultRemap(e)); Enabled(s1, FaultUnmap(e)) && Now() == Next(s1, FaultUnmap(e))
    {
      ghost var s := Now();
      SysPageMap(e, PFTEMP, e, v, true, false, false);
      Mark(e, Remapped(v));
      KeepsInv(s, FaultRemap(e));
      assert Now() == Next(s, FaultRemap(e));
      ghost var s1 := Now();
      SysPageUnmap(e, PFTEMP);
      Mark(e, NoFault);
      KeepsInv(s1, FaultUnmap(e));
    }

    // The whole handler. It panics, doing nothing, unless the fault was a write to a mapped
    // page marked copy-on-write; p is the page sys_page_alloc hands out. A page that can be
    // written does not fault.
    method PgFault(e: nat, v: nat, write: bool, p: nat) returns (ok: bool)
      requires Inv(Now()) && Live(Now(), e) && (Maps(Now(), e, v) ==> !At(Now(), e, v).w) && Unmapped(Now(), p)
      modifies this
      ensures Inv(Now()) && ok == (old(Maps(Now(), e, v)) && write && old(At(Now(), e, v)).cow)
      ensures ok ==> At(old(Now()), e, v).page in old(mem) && Privatized(old(Now()), Now(), e, v, p)
      ensures !ok ==> Now() == old(Now())
    {
      ghost var s := Now();
      if v !in envs[e].space { return false; }
      assert Maps(s, e, v);
      if !write { return false; }
      if !envs[e].space[v].cow { return false; }
      assert FaultOk(s, e);
      CopyToTemp(e, v, p);
      MoveFromTemp(e, v);
      HandlerEffect(s, e, v, p);
      return true;
    }

    // ---- duppage and fork ----

    // duppage
    method DupPage(e: nat, c: nat, v: nat)
      requires Maps(Now(), e, v) && c in envs && c != e
      modifies this`envs
      ensures Now() == Dupped(old(Now()), e, c, v)
    {
      ghost var s := Now();
      var pte := envs[e].space[v];
      if pte.share {
        SysPageMap(e, v, c, v, pte.w, pte.cow, true);
      } else if pte.w || pte.cow {
        SysPageMap(e, v, c, v, false, true, false);
        SysPageMap(e, v, e, v, false, true, false);
      } else {
        SysPageMap(e, v, c, v, false, false, false);
      }
      Reach(e, Scan(c, v + 1));
      SameEnvs(s, Now(), e, c, v, pte);
    }

    // fork, but for the child's side of it. c is the slot sys_exofork takes, p the page of
    // the child's exception stack.
    method Fork(e: nat, c: nat, p: nat)
      requires Inv(Now()) && Live(Now(), e) && envs[e].fork.Idle? && c !in envs && Unmapped(Now(), p)
      modifies this
      ensures Inv(Now()) && Forked(old(Now()), Now(), e, c, p)
    {
      ghost var s := Now();
      ForkStart(s, e, c, p);
      envs := envs[c := NewChild(e)];
      Reach(e, Stacking(c));
      SysPageAlloc(c, UXSTACK, Entry(p, true, false, false));
      Reach(e, Scan(c, 0));
      var v := 0;
      while v < TOP
        invariant v <= TOP && Inv(Now()) && Copying(s, Now(), e, c, p, v)
      {
        CopyPage(e, c, p, v, s);
        v := v + 1;
      }
      ForkEnd(s, Now(), e, c, p);
      envs := envs[c := envs[c].(run := true)];
      Reach(e, Idle);
    }

    // One turn of fork's loop.
    method CopyPage(e: nat, c: nat, p: nat, v: nat, ghost s: State)
      requires Inv(Now()) && Copying(s, Now(), e, c, p, v) && v < TOP
      modifies this`envs
      ensures Inv(Now()) && Copying(s, Now(), e, c, p, v + 1)
    {
      TurnKeeps(s, Now(), e, c, p, v);
      if v != UXSTACK && v in envs[e].space {
        DupPage(e, c, v);
      } else {
        Reach(e, Scan(c, v + 1));
      }
    }
  }

  lemma SameEnvs(s: State, s': State, e: nat, c: nat, v: nat, pte: Entry)
    requires Maps(s, e, v) && c in s.envs && c != e && pte == At(s, e, v) && s'.mem == s.mem
    requires s'.envs == s.envs[c := s.envs[c].(space := s.envs[c].space[v := ChildEntry(pte, pte.page)])]
                              [e := s.envs[e].(space := if pte.share || !(pte.w || pte.cow) then s.envs[e].space
                                                        else s.envs[e].space[v := OwnEntry(pte)], fork := Scan(c, v + 1))]
    ensures s' == Dupped(s, e, c, v)
  {
    assert s.envs[e].space[v := pte] == s.envs[e].space;
    var d := Dupped(s, e, c, v);
    assert d.envs[e] == s'.envs[e] && d.envs[c] == s'.envs[c];
    assert d.envs == s'.envs;
  }

  // duppage's steps, one after another: reading the entry and mapping the child,
  lemma ChildMappedInv(s: State, e: nat, c: nat, v: nat)
    requires Inv(s) && Live(s, e) && s.envs[e].fork == Scan(c, v) && v < TOP && v != UXSTACK && Maps(s, e, v)
    ensures Child(s, e, c)
    ensures var pte := At(s, e, v); Inv(DoMapChild(SetFork(s, e, Read(c, v, pte)), e, c, v, pte))
  {
    assert ForkOk(s, e);
    var s1 := Next(s, ForkRead(e));
    KeepsInv(s, ForkRead(e));
    assert Maps(s1, e, v) && At(s1, e, v) == At(s, e, v);
    KeepsInv(s1, MapChild(e));
  }

  // and then marking the parent.
  lemma DuppedInv(s: State, e: nat, c: nat, v: nat)
    requires Inv(s) && Live(s, e) && s.envs[e].fork == Scan(c, v) && v < TOP && v != UXSTACK && Maps(s, e, v)
    ensures Child(s, e, c) && Inv(Dupped(s, e, c, v))
  {
    ChildMappedInv(s, e, c, v);
    var pte := At(s, e, v);
    var s2 := DoMapChild(SetFork(s, e, Read(c, v, pte)), e, c, v, pte);
    if pte.share || !(pte.w || pte.cow) {
      SameEnvs(s, s2, e, c, v, pte);
    } else {
      assert ForkOk(s2, e);
      KeepsInv(s2, MapSelf(e));
      SameEnvs(s, Next(s2, MapSelf(e)), e, c, v, pte);
    }
  }

  // A turn of the loop takes it to the next page.
  lemma TurnKeeps(s: State, s1: State, e: nat, c: nat, p: nat, v: nat)
    requires Inv(s1) && Copying(s, s1, e, c, p, v) && v < TOP
    ensures v != UXSTACK && Maps(s1, e, v) ==> Inv(Dupped(s1, e, c, v)) && Copying(s, Dupped(s1, e, c, v), e, c, p, v + 1)
    ensures v == UXSTACK || !Maps(s1, e, v) ==> Inv(SetFork(s1, e, Scan(c, v + 1))) && Copying(s, SetFork(s1, e, Scan(c, v + 1)), e, c, p, v + 1)
  {
    if v != UXSTACK && Maps(s1, e, v) {
      DuppedInv(s1, e, c, v);
      CopyingDup(s, s1, e, c, p, v);
    } else {
      KeepsInv(s1, ForkSkip(e));
      CopyingSkip(s, s1, e, c, p, v);
    }
  }

  lemma CopyingSkip(s: State, s1: State, e: nat, c: nat, p: nat, v: nat)
    requires Copying(s, s1, e, c, p, v) && (v == UXSTACK || !Maps(s1, e, v))
    ensures Copying(s, SetFork(s1, e, Scan(c, v + 1)), e, c, p, v + 1)
  {
    assert v == UXSTACK || v !in s.envs[e].space;
  }

  lemma CopyingDup(s: State, s1: State, e: nat, c: nat, p: nat, v: nat)
    requires Copying(s, s1, e, c, p, v) && v < TOP && v != UXSTACK && Maps(s1, e, v)
    ensures Copying(s, Dupped(s1, e, c, v), e, c, p, v + 1)
  {
    var s' := Dupped(s1, e, c, v);
    assert At(s1, e, v) == s.envs[e].space[v];
    assert s'.envs[e].space == s1.envs[e].space[v := OwnEntry(s.envs[e].space[v])];
    assert s'.envs[c].space == s1.envs[c].space[v := ChildEntry(s.envs[e].space[v], s.envs[e].space[v].page)];
  }

  lemma ForkStart(s: State, e: nat, c: nat, p: nat)
    requires Inv(s) && Live(s, e) && s.envs[e].fork.Idle? && c !in s.envs && Unmapped(s, p)
    ensures c != e
    ensures var s1 := SetFork(SetEnv(s, c, NewChild(e)), e, Stacking(c));
      var s2 := SetFork(Alloc(s1, c, UXSTACK, Entry(p, true, false, false)), e, Scan(c, 0));
      Inv(s2) && Copying(s, s2, e, c, p, 0)
  {
    KeepsInv(s, Exofork(e, c));
    var s1 := Next(s, Exofork(e, c));
    assert forall e1: nat, v1: nat :: Maps(s1, e1, v1) ==> Maps(s, e1, v1) && At(s1, e1, v1) == At(s, e1, v1);
    KeepsInv(s1, ForkStack(e, p));
  }

  lemma ForkEnd(s: State, s2: State, e: nat, c: nat, p: nat)
    requires Inv(s2) && Copying(s, s2, e, c, p, TOP)
    ensures var s3 := SetFork(SetEnv(s2, c, s2.envs[c].(run := true)), e, Idle); Inv(s3) && Forked(s, s3, e, c, p)
  {
    KeepsInv(s2, ForkFinish(e));
  }

  // fork's loop has reached page v: of the parent's pages at the start, those below v (but
  // for the exception stack) are in the child, and marked in the parent where they must be.
  ghost predicate Copying(s: State, s': State, e: nat, c: nat, p: nat, v: nat)
  {
    && e in s.envs && c !in s.envs && e in s'.envs && c in s'.envs
    && s'.mem == s.mem[p := ZeroPage()] && s'.envs.Keys == s.envs.Keys + {c}
    && (forall e1 :: e1 in s.envs && e1 != e ==> s'.envs[e1] == s.envs[e1])
    && Live(s', e) && s'.envs[e].fork == Scan(c, v) && Kid(s', e, c) && s'.envs[c] == NewChild(e).(space := s'.envs[c].space)
    && s'.envs[e].space.Keys == s.envs[e].space.Keys
    && (forall u {:trigger u in s.envs[e].space} :: u in s.envs[e].space ==>
          s'.envs[e].space[u] == if u < v && u != UXSTACK then OwnEntry(s.envs[e].space[u]) else s.envs[e].space[u])
    && (forall u {:trigger u in s'.envs[c].space} :: u in s'.envs[c].space <==> u == UXSTACK || (u in s.envs[e].space && u < v))
    && (forall u {:trigger u in s'.envs[c].space} :: u in s'.envs[c].space ==>
          s'.envs[c].space[u] == if u == UXSTACK then Entry(p, true, false, false) else ChildEntry(s.envs[e].space[u], s.envs[e].space[u].page))
  }

  // The child has every page of the parent, as duppage maps it, and a fresh exception
  // stack; no page but that stack has changed.
  ghost predicate Forked(s: State, s': State, e: nat, c: nat, p: nat) {
    && e in s.envs && c !in s.envs && s'.envs.Keys == s.envs.Keys + {c} && s'.mem == s.mem[p := ZeroPage()]
    && (forall e1 :: e1 in s.envs && e1 != e ==> s'.envs[e1] == s.envs[e1])
    && s'.envs[c].run && s'.envs[c].parent == e && s'.envs[e].fork == Idle
    && (forall u {:trigger u in s'.envs[c].space} :: u in s'.envs[c].space <==> u == UXSTACK || (u in s.envs[e].space && u < TOP))
    && (forall u {:trigger u in s'.envs[c].space} :: u in s'.envs[c].space ==>
          s'.envs[c].space[u] == if u == UXSTACK then Entry(p, true, false, false) else ChildEntry(s.envs[e].space[u], s.envs[e].space[u].page))
    && s'.envs[e].space.Keys == s.envs[e].space.Keys
    && (forall u {:trigger u in s.envs[e].space} :: u in s.envs[e].space ==>
          s'.envs[e].space[u] == if u < TOP && u != UXSTACK then OwnEntry(s.envs[e].space[u]) else s.envs[e].space[u])
  }

  // A handler in progress in a state that keeps the invariant can take its next step.
  lemma FaultStep(s: State, e: nat)
    requires Inv(s) && e in s.envs
    ensures s.envs[e].fault.Allocated? ==> Enabled(s, FaultCopy(e))
    ensures s.envs[e].fault.Copied? ==> Enabled(s, FaultRemap(e))
  {
    assert FaultOk(s, e);
    if s.envs[e].fault.Allocated? {
      assert Maps(s, e, s.envs[e].fault.v);
    }
  }

  // The handler's four steps together.
  lemma HandlerEffect(s: State, e: nat, v: nat, p: nat)
    requires Inv(s) && Enabled(s, FaultAlloc(e, v, p))
    ensures At(s, e, v).page in s.mem && At(s, e, v).page != p
    ensures var s1 := Next(s, FaultAlloc(e, v, p));
      Enabled(s1, FaultCopy(e)) &&
      var s2 := Next(s1, FaultCopy(e));
      Enabled(s2, FaultRemap(e)) &&
      var s3 := Next(s2, FaultRemap(e));
      Enabled(s3, FaultUnmap(e)) && Privatized(s, Next(s3, FaultUnmap(e)), e, v, p)
  {
    assert FaultOk(s, e) && Maps(s, e, v);
    var s1 := Next(s, FaultAlloc(e, v, p));
    assert At(s1, e, PFTEMP).page == p && At(s1, e, v) == At(s, e, v);
    var s2 := Next(s1, FaultCopy(e));
    var s3 := Next(s2, FaultRemap(e));
    var s4 := Next(s3, FaultUnmap(e));
    assert s4.mem == s.mem[p := s.mem[At(s, e, v).page]];
    assert s4.envs[e].space == s.envs[e].space[v := Entry(p, true, false, false)];
    assert s4.envs == s.envs[e := s.envs[e].(space := s.envs[e].space[v := Entry(p, true, false, false)])];
  }
}
