/** Environments under the big kernel lock: any number of CPUs trapping, spinning, running
    one system call each under the lock, and scheduling. */
module Environments {
  import opened Mmu
  import opened EnvIds

  const E_BAD_ENV: int := 2
  const E_INVAL: int := 3
  const E_NO_MEM: int := 4
  const E_IPC_NOT_RECV: int := 7

  datatype Option<T> = None | Some(value: T)

  datatype Status = FREE | DYING | RUNNABLE | RUNNING | NOT_RUNNABLE

  // What the sender's and the receiver's page tables have in store for one send: whether a
  // table covers the sender's address, and whether page_insert gets the memory it needs.
  datatype Memory = Memory(tabled: bool, room: bool)

  // A user mapping, as far as IPC looks at it: the page and its W bit.
  datatype Slot = Slot(page: nat, w: bool)

  datatype Env = Env(
    id: int, parent: int, status: Status, runs: nat,
    space: map<nat, Slot>,     // mappings below UTOP
    dir: map<nat, Slot>,       // page-directory entries written through UVPT
    recving: bool, dstva: nat, value: nat, from: int, perm: Flags)

  // Where a CPU is: in user mode, halted, spinning on the lock, just inside the kernel,
  // about to return from trap, about to schedule, or in the monitor for good.
  datatype Pc = User | Halted | Spin | Entered | Returning | Yielding | Monitor

  datatype Cpu = Cpu(pc: Pc, cur: Option<nat>)

  datatype State = State(
    envs: seq<Env>, cpus: seq<Cpu>, lock: Option<nat>,
    free: seq<nat>,            // env_free_list
    shared: map<nat, Slot>)    // the page tables above UTOP, common to all

  // ---- envid2env ----

  // curenv's slot when envid is 0; else the slot envid names, if its occupant has that id
  // and, with checkperm, is curenv or a child of curenv.
  function Envid2Env(s: State, cur: nat, envid: int, checkperm: bool): Option<nat>
    requires |s.envs| == NENV && cur < NENV
  {
    if envid == 0 then Some(cur)
    else if s.envs[ENVX(envid)].status == FREE || s.envs[ENVX(envid)].id != envid then None
    else if checkperm && ENVX(envid) != cur && s.envs[ENVX(envid)].parent != s.envs[cur].id then None
    else Some(ENVX(envid))
  }

  // ---- sched_yield's search ----

  // Slot k of the circle that begins at `start`.
  function Nth(start: nat, k: nat): nat { (start + k) % NENV }

  // The first RUNNABLE slot at or after start + i, in circular order, within the table.
  function FirstRunnable(envs: seq<Env>, start: nat, i: nat): Option<nat>
    requires |envs| == NENV
    decreases NENV - i
  {
    if i >= NENV then None
    else if envs[Nth(start, i)].status == RUNNABLE then Some(Nth(start, i))
    else FirstRunnable(envs, start, i + 1)
  }

  function Start(s: State, c: nat): nat
    requires c < |s.cpus|
  {
    if s.cpus[c].cur.Some? then s.cpus[c].cur.value else 0
  }

  // ---- Steps ----

  datatype Action =
    | Trap(c: nat)
    | Acquire(c: nat)
    | Collect(c: nat)
    | Timer(c: nat)
    | OtherCall(c: nat)
    | Exofork(c: nat, vmOk: bool)
    | SetStatus(c: nat, envid: int, status: Status)
    | Destroy(c: nat, envid: int)
    | Recv(c: nat, dstva: nat)
    | TrySend(c: nat, envid: int, value: nat, srcva: nat, perm: Flags, mem: Memory)
    | Return(c: nat)
    | Yield(c: nat)

  function SetEnv(s: State, e: nat, env: Env): State
    requires e < |s.envs|
  {
    s.(envs := s.envs[e := env])
  }

  function SetCpu(s: State, c: nat, pc: Pc, cur: Option<nat>): State
    requires c < |s.cpus|
  {
    s.(cpus := s.cpus[c := Cpu(pc, cur)])
  }

  function Goto(s: State, c: nat, pc: Pc): State
    requires c < |s.cpus|
  {
    SetCpu(s, c, pc, s.cpus[c].cur)
  }

  function EnvFree(s: State, e: nat): State
    requires e < |s.envs|
  {
    SetEnv(s, e, s.envs[e].(status := FREE, space := map[], dir := map[])).(free := [e] + s.free)
  }

  // env_alloc as sys_exofork uses it: the child starts out NOT_RUNNABLE.
  function NewEnv(last: Env, idx: nat, parent: int): Env {
    last.(id := NextId(last.id, idx), parent := parent, status := NOT_RUNNABLE, runs := 0, recving := false)
  }

  function DoExofork(s: State, c: nat, cur: nat, vmOk: bool): State
    requires c < |s.cpus| && cur < |s.envs| && (s.free != [] ==> s.free[0] < |s.envs|)
  {
    if s.free == [] || !vmOk then Goto(s, c, Returning)
    else Goto(SetEnv(s, s.free[0], NewEnv(s.envs[s.free[0]], s.free[0], s.envs[cur].id)).(free := s.free[1..]), c, Returning)
  }

  function DoSetStatus(s: State, c: nat, target: Option<nat>, status: Status): State
    requires c < |s.cpus| && (target.Some? ==> target.value < |s.envs|)
  {
    if (status != RUNNABLE && status != NOT_RUNNABLE) || target.None? then Goto(s, c, Returning)
    else Goto(SetEnv(s, target.value, s.envs[target.value].(status := status)), c, Returning)
  }

  function DoDestroy(s: State, c: nat, target: Option<nat>): State
    requires c < |s.cpus| && (target.Some? ==> target.value < |s.envs|)
  {
    if target.None? then Goto(s, c, Returning)
    else if s.envs[target.value].status == RUNNING && s.cpus[c].cur != target then
      Goto(SetEnv(s, target.value, s.envs[target.value].(status := DYING)), c, Returning)
    else if s.cpus[c].cur == target then SetCpu(EnvFree(s, target.value), c, Yielding, None)
    else Goto(EnvFree(s, target.value), c, Returning)
  }

  function DoRecv(s: State, c: nat, cur: nat, dstva: nat): State
    requires c < |s.cpus| && cur < |s.envs|
  {
    if dstva < UTOP && dstva % PGSIZE != 0 then Goto(s, c, Returning)
    else Goto(SetEnv(s, cur, s.envs[cur].(recving := true, dstva := dstva, status := NOT_RUNNABLE)), c, Yielding)
  }

  // What page_lookup finds: an absent entry of an existing page table reads as page 0.
  function Lookup(space: map<nat, Slot>, va: nat, mem: Memory): Option<Slot> {
    if PGNUM(va) in space then Some(space[PGNUM(va)])
    else if mem.tabled then Some(Slot(0, false))
    else None
  }

  function TrySendResult(s: State, cur: nat, envid: int, srcva: nat, perm: Flags, mem: Memory): int
    requires |s.envs| == NENV && cur < NENV
  {
    var target := Envid2Env(s, cur, envid, false);
    if target.None? then -E_BAD_ENV
    else if !s.envs[target.value].recving then -E_IPC_NOT_RECV
    else if srcva < UTOP then
      if srcva % PGSIZE != 0 || !SyscallPerm(perm) then -E_INVAL
      else if Lookup(s.envs[cur].space, srcva, mem).None? then -E_INVAL
      else if !Lookup(s.envs[cur].space, srcva, mem).value.w && perm.w then -E_INVAL
      else if !mem.room then -E_NO_MEM
      else 0
    else 0
  }

  // page_insert at va: below UTOP it writes the environment's own tables, in the 4 MB at
  // UVPT the environment's own page directory, and elsewhere above UTOP everyone's tables.
  function Insert(s: State, e: nat, va: nat, slot: Slot): State
    requires e < |s.envs|
  {
    if va < UTOP then SetEnv(s, e, s.envs[e].(space := s.envs[e].space[PGNUM(va) := slot]))
    else if UVPT <= va < UVPT + PTSIZE then SetEnv(s, e, s.envs[e].(dir := s.envs[e].dir[PTX(va) := slot]))
    else s.(shared := s.shared[PGNUM(va) := slot])
  }

  function Delivered(env: Env, value: nat, from: int, perm: Flags): Env {
    env.(recving := false, value := value, from := from, perm := perm, status := RUNNABLE)
  }

  function DoTrySend(s: State, cur: nat, envid: int, value: nat, srcva: nat, perm: Flags, mem: Memory): (s': State)
    requires |s.envs| == NENV && cur < NENV
    ensures |s'.envs| == NENV && s'.cpus == s.cpus
  {
    if TrySendResult(s, cur, envid, srcva, perm, mem) != 0 then s
    else
      var e := Envid2Env(s, cur, envid, false).value;
      if srcva < UTOP then
        var s1 := Insert(s, e, s.envs[e].dstva, Slot(Lookup(s.envs[cur].space, srcva, mem).value.page, perm.w));
        SetEnv(s1, e, Delivered(s1.envs[e], value, s.envs[cur].id, perm))
      else SetEnv(s, e, Delivered(s.envs[e], value, s.envs[cur].id, NO_FLAGS))
  }

  // env_run, first part: curenv steps down if it was running.
  function StepDown(s: State, c: nat): State
    requires c < |s.cpus| && (s.cpus[c].cur.Some? ==> s.cpus[c].cur.value < |s.envs|)
  {
    if s.cpus[c].cur.Some? && s.envs[s.cpus[c].cur.value].status == RUNNING
    then SetEnv(s, s.cpus[c].cur.value, s.envs[s.cpus[c].cur.value].(status := RUNNABLE)) else s
  }

  // env_run, second part: the lock goes with the return to user mode.
  function Resume(s: State, c: nat, i: nat): State
    requires c < |s.cpus| && i < |s.envs|
  {
    SetCpu(SetEnv(s, i, s.envs[i].(status := RUNNING, runs := s.envs[i].runs + 1)), c, User, Some(i)).(lock := None)
  }

  function EnvRun(s: State, c: nat, i: nat): (s': State)
    requires c < |s.cpus| && i < |s.envs| && (s.cpus[c].cur.Some? ==> s.cpus[c].cur.value < |s.envs|)
    ensures |s'.envs| == |s.envs| && |s'.cpus| == |s.cpus|
  {
    Resume(StepDown(s, c), c, i)
  }

  ghost predicate AnyoneLeft(envs: seq<Env>) {
    exists e :: 0 <= e < |envs| && envs[e].status in {RUNNABLE, RUNNING, DYING}
  }

  ghost function SchedYield(s: State, c: nat): (s': State)
    requires |s.envs| == NENV && c < |s.cpus| && (s.cpus[c].cur.Some? ==> s.cpus[c].cur.value < NENV)
    ensures |s'.envs| == NENV && |s'.cpus| == |s.cpus|
  {
    var next := FirstRunnable(s.envs, Start(s, c), 0);
    if next.Some? && next.value < NENV then EnvRun(s, c, next.value)
    else if s.cpus[c].cur.Some? && s.envs[s.cpus[c].cur.value].status == RUNNING then EnvRun(s, c, s.cpus[c].cur.value)
    else if AnyoneLeft(s.envs) then SetCpu(s, c, Halted, None).(lock := None)
    else Goto(s, c, Monitor)
  }

  predicate Sized(s: State) {
    && |s.envs| == NENV
    && (forall c :: 0 <= c < |s.cpus| && s.cpus[c].cur.Some? ==> s.cpus[c].cur.value < NENV)
    && (forall k :: 0 <= k < |s.free| ==> s.free[k] < NENV)
  }

  // CPU c is inside the kernel with a live curenv.
  predicate Serving(s: State, c: nat) {
    c < |s.cpus| && s.cpus[c].pc == Entered && s.cpus[c].cur.Some? && s.cpus[c].cur.value < |s.envs|
    && s.envs[s.cpus[c].cur.value].status != DYING
  }

  ghost predicate Enabled(s: State, a: Action) {
    && Sized(s) && a.c < |s.cpus|
    && match a
       case Trap(c) => s.cpus[c].pc == User || s.cpus[c].pc == Halted
       case Acquire(c) => s.cpus[c].pc == Spin && s.lock == None
       case Collect(c) =>
         s.cpus[c].pc == Entered && s.cpus[c].cur.Some? && s.envs[s.cpus[c].cur.value].status == DYING
       case Timer(c) => s.cpus[c].pc == Entered && (s.cpus[c].cur.Some? ==> Serving(s, c))
       case Return(c) => s.cpus[c].pc == Returning
       case Yield(c) => s.cpus[c].pc == Yielding
       case _ => Serving(s, a.c)
  }

  ghost function Next(s: State, a: Action): (s': State)
    requires Enabled(s, a)
    ensures |s'.envs| == NENV && |s'.cpus| == |s.cpus|
  {
    match a
    case Trap(c) => Goto(s, c, Spin)
    case Acquire(c) => Goto(s, c, Entered).(lock := Some(c))
    case Collect(c) => SetCpu(EnvFree(s, s.cpus[c].cur.value), c, Yielding, None)
    case Timer(c) => Goto(s, c, Yielding)
    case OtherCall(c) => Goto(s, c, Returning)
    case Exofork(c, vmOk) => DoExofork(s, c, s.cpus[c].cur.value, vmOk)
    case SetStatus(c, envid, status) =>
      DoSetStatus(s, c, Envid2Env(s, s.cpus[c].cur.value, envid, true), status)
    case Destroy(c, envid) => DoDestroy(s, c, Envid2Env(s, s.cpus[c].cur.value, envid, true))
    case Recv(c, dstva) => DoRecv(s, c, s.cpus[c].cur.value, dstva)
    case TrySend(c, envid, value, srcva, perm, mem) =>
      Goto(DoTrySend(s, s.cpus[c].cur.value, envid, value, srcva, perm, mem), c, Returning)
    case Return(c) =>
      if s.cpus[c].cur.Some? && s.envs[s.cpus[c].cur.value].status == RUNNING then EnvRun(s, c, s.cpus[c].cur.value)
      else SchedYield(s, c)
    case Yield(c) => SchedYield(s, c)
  }

  // ---- Invariant ----

  predicate InKernel(pc: Pc) {
    pc in {Entered, Returning, Yielding, Monitor}
  }

  predicate CurOk(s: State, c: nat)
    requires c < |s.cpus|
  {
    match s.cpus[c].cur
    case None => s.cpus[c].pc != User
    case Some(e) =>
      && e < |s.envs| && s.cpus[c].pc != Halted
      && (s.cpus[c].pc in {User, Spin, Entered} ==> s.envs[e].status in {RUNNING, DYING})
      && (s.cpus[c].pc in {Returning, Yielding, Monitor} ==> s.envs[e].status in {RUNNING, RUNNABLE, NOT_RUNNABLE})
  }

  // The lock is held by exactly the CPU inside the kernel.
  ghost predicate LockOk(s: State) {
    && (s.lock.Some? ==> s.lock.value < |s.cpus|)
    && (forall c :: 0 <= c < |s.cpus| ==> (InKernel(s.cpus[c].pc) <==> s.lock == Some(c)))
  }

  // No environment is on two CPUs, and one that is RUNNING or DYING is on one.
  ghost predicate CursOk(s: State) {
    && (forall c :: 0 <= c < |s.cpus| ==> CurOk(s, c))
    && (forall c, d :: 0 <= c < |s.cpus| && 0 <= d < |s.cpus| && c != d && s.cpus[c].cur.Some? ==>
          s.cpus[c].cur != s.cpus[d].cur)
    && (forall e :: 0 <= e < |s.envs| && s.envs[e].status in {RUNNING, DYING} ==> OnSomeCpu(s.cpus, e))
  }

  ghost predicate OnSomeCpu(cpus: seq<Cpu>, e: int) {
    exists c :: 0 <= c < |cpus| && cpus[c].cur.Some? && cpus[c].cur.value == e
  }

  // A blocked receiver is not runnable.
  ghost predicate ReceiversOk(s: State) {
    forall e :: 0 <= e < |s.envs| && s.envs[e].recving ==> s.envs[e].status in {FREE, NOT_RUNNABLE}
  }

  // env_free_list holds exactly the free slots, once each.
  ghost predicate FreeOk(s: State) {
    && (forall e :: 0 <= e < |s.envs| ==> (s.envs[e].status == FREE <==> e in s.free))
    && (forall j, k :: 0 <= j < k < |s.free| ==> s.free[j] != s.free[k])
  }

  ghost predicate Inv(s: State) {
    Sized(s) && LockOk(s) && CursOk(s) && ReceiversOk(s) && FreeOk(s)
  }

  // What the code does not check: an environment on another CPU must not have its status
  // set, a blocked receiver must not be made runnable, a dying one not be destroyed again.
  predicate Allowed(s: State, a: Action)
    requires Sized(s)
  {
    match a
    case SetStatus(c, envid, status) =>
      Serving(s, c) && status in {RUNNABLE, NOT_RUNNABLE} ==>
        var target := Envid2Env(s, s.cpus[c].cur.value, envid, true);
        target.Some? && target != s.cpus[c].cur ==>
          && s.envs[target.value].status !in {RUNNING, DYING}
          && (s.envs[target.value].recving ==> status == NOT_RUNNABLE)
    case Destroy(c, envid) =>
      Serving(s, c) ==>
        var target := Envid2Env(s, s.cpus[c].cur.value, envid, true);
        target.Some? ==> s.envs[target.value].status != DYING
    case _ => true
  }

  // ---- Every step keeps the invariant, under exactly that condition ----

  // The CPU in the kernel moves on; curenv and the environments stay.
  lemma KeepGoto(s: State, c: nat, pc: Pc)
    requires Inv(s) && c < |s.cpus| && s.cpus[c].pc == Entered && pc in {Returning, Yielding}
    requires s.cpus[c].cur.Some? ==> Serving(s, c)
    ensures Inv(Goto(s, c, pc))
  {
    var s' := Goto(s, c, pc);
    forall d | 0 <= d < |s.cpus| ensures CurOk(s', d) { assert CurOk(s, d); }
    forall e | 0 <= e < |s.envs| && s.envs[e].status in {RUNNING, DYING} ensures OnSomeCpu(s'.cpus, e) {
      SameCurs(s.cpus, s'.cpus, e);
    }
  }

  lemma SameCurs(cpus: seq<Cpu>, cpus': seq<Cpu>, e: int)
    requires OnSomeCpu(cpus, e) && |cpus'| == |cpus| && forall c :: 0 <= c < |cpus| ==> cpus'[c].cur == cpus[c].cur
    ensures OnSomeCpu(cpus', e)
  {
    var c :| 0 <= c < |cpus| && cpus[c].cur.Some? && cpus[c].cur.value == e;
    assert cpus'[c].cur == cpus[c].cur;
  }

  // The CPU in the kernel changes one live environment and moves on.
  lemma KeepOneEnv(s: State, c: nat, pc: Pc, e: nat, env: Env)
    requires Inv(s) && Serving(s, c) && pc in {Returning, Yielding} && e < NENV
    requires s.envs[e].status != FREE && env.status != FREE
    requires env.recving ==> env.status == NOT_RUNNABLE
    requires s.cpus[c].cur == Some(e) ==> env.status in {RUNNING, RUNNABLE, NOT_RUNNABLE}
    requires s.cpus[c].cur != Some(e) && s.envs[e].status in {RUNNING, DYING} ==> env.status in {RUNNING, DYING}
    requires env.status in {RUNNING, DYING} ==> s.envs[e].status in {RUNNING, DYING}
    ensures Inv(Goto(SetEnv(s, e, env), c, pc))
  {
    var s' := Goto(SetEnv(s, e, env), c, pc);
    forall d | 0 <= d < |s.cpus| ensures CurOk(s', d) {
      assert CurOk(s, d) && CurOk(s, c);
      if d != c { assert s.cpus[d].cur != s.cpus[c].cur && !InKernel(s.cpus[d].pc); }
    }
    forall e1 | 0 <= e1 < NENV && s'.envs[e1].status in {RUNNING, DYING} ensures OnSomeCpu(s'.cpus, e1) {
      assert s.envs[e1].status in {RUNNING, DYING};
      SameCurs(s.cpus, s'.cpus, e1);
    }
    forall e1 | 0 <= e1 < NENV ensures s'.envs[e1].status == FREE <==> e1 in s.free {
      assert s.envs[e1].status == FREE <==> e1 in s.free;
    }
  }

  // The CPU in the kernel frees environment e, which is its own curenv or nobody's.
  lemma KeepFree(s: State, c: nat, pc: Pc, e: nat)
    requires Inv(s) && c < |s.cpus| && s.cpus[c].pc == Entered && s.cpus[c].cur.Some?
    requires e < NENV && s.envs[e].status != FREE
    requires s.cpus[c].cur != Some(e) ==> Serving(s, c) && s.envs[e].status !in {RUNNING, DYING} && pc == Returning
    requires s.cpus[c].cur == Some(e) ==> pc == Yielding
    ensures Inv(SetCpu(EnvFree(s, e), c, pc, if s.cpus[c].cur == Some(e) then None else s.cpus[c].cur))
  {
    var s' := SetCpu(EnvFree(s, e), c, pc, if s.cpus[c].cur == Some(e) then None else s.cpus[c].cur);
    assert e !in s.free;
    forall k | 0 <= k < |s'.free| ensures s'.free[k] < NENV {
      if k > 0 { assert s'.free[k] == s.free[k - 1]; }
    }
    forall d | 0 <= d < |s.cpus| ensures CurOk(s', d) {
      assert CurOk(s, d) && CurOk(s, c);
      if d != c { assert s.cpus[d].cur != s.cpus[c].cur && !InKernel(s.cpus[d].pc); }
    }
    forall e1 | 0 <= e1 < NENV && s'.envs[e1].status in {RUNNING, DYING} ensures OnSomeCpu(s'.cpus, e1) {
      assert e1 != e && OnSomeCpu(s.cpus, e1);
      var d :| 0 <= d < |s.cpus| && s.cpus[d].cur.Some? && s.cpus[d].cur.value == e1;
      assert s'.cpus[d].cur == s.cpus[d].cur;
    }
    forall e1 | 0 <= e1 < NENV ensures s'.envs[e1].status == FREE <==> e1 in s'.free {
      assert s.envs[e1].status == FREE <==> e1 in s.free;
    }
    forall j, k | 0 <= j < k < |s'.free| ensures s'.free[j] != s'.free[k] {
      if j > 0 { assert s.free[j - 1] != s.free[k - 1]; } else { assert s.free[k - 1] in s.free; }
    }
  }

  lemma KeepExofork(s: State, c: nat, vmOk: bool)
    requires Inv(s) && Enabled(s, Exofork(c, vmOk))
    ensures Inv(Next(s, Exofork(c, vmOk)))
  {
    var cur := s.cpus[c].cur.value;
    if s.free == [] || !vmOk {
      KeepGoto(s, c, Returning);
    } else {
      var e := s.free[0];
      var s' := Next(s, Exofork(c, vmOk));
      assert e in s.free && s.free == [e] + s.free[1..];
      forall d | 0 <= d < |s.cpus| ensures CurOk(s', d) { assert CurOk(s, d); }
      forall e1 | 0 <= e1 < NENV && s'.envs[e1].status in {RUNNING, DYING} ensures OnSomeCpu(s'.cpus, e1) {
        assert s.envs[e1].status in {RUNNING, DYING};
        SameCurs(s.cpus, s'.cpus, e1);
      }
      forall e1 | 0 <= e1 < NENV ensures s'.envs[e1].status == FREE <==> e1 in s'.free {
        assert s.envs[e1].status == FREE <==> e1 in s.free;
        if e1 in s.free[1..] { var k :| 0 <= k < |s.free[1..]| && s.free[1..][k] == e1; assert s.free[0] != s.free[k + 1]; }
      }
    }
  }

  lemma KeepSetStatus(s: State, c: nat, envid: int, status: Status)
    requires Inv(s) && Enabled(s, SetStatus(c, envid, status))
    ensures Inv(Next(s, SetStatus(c, envid, status))) <==> Allowed(s, SetStatus(c, envid, status))
  {
    var cur := s.cpus[c].cur.value;
    var target := Envid2Env(s, cur, envid, true);
    var s' := Next(s, SetStatus(c, envid, status));
    assert CurOk(s, c);
    if status !in {RUNNABLE, NOT_RUNNABLE} || target.None? {
      KeepGoto(s, c, Returning);
    } else if Allowed(s, SetStatus(c, envid, status)) {
      KeepOneEnv(s, c, Returning, target.value, s.envs[target.value].(status := status));
    } else if s.envs[target.value].status in {RUNNING, DYING} {
      assert OnSomeCpu(s.cpus, target.value);
      var d :| 0 <= d < |s.cpus| && s.cpus[d].cur.Some? && s.cpus[d].cur.value == target.value;
      assert CurOk(s, d) && !InKernel(s.cpus[d].pc);
      assert !CurOk(s', d);
    } else {
      assert s'.envs[target.value].recving;
    }
  }

  lemma KeepDestroy(s: State, c: nat, envid: int)
    requires Inv(s) && Enabled(s, Destroy(c, envid))
    ensures Inv(Next(s, Destroy(c, envid))) <==> Allowed(s, Destroy(c, envid))
  {
    var cur := s.cpus[c].cur.value;
    var target := Envid2Env(s, cur, envid, true);
    var s' := Next(s, Destroy(c, envid));
    assert CurOk(s, c);
    if target.None? {
      KeepGoto(s, c, Returning);
    } else if s.envs[target.value].status == RUNNING && target != s.cpus[c].cur {
      KeepOneEnv(s, c, Returning, target.value, s.envs[target.value].(status := DYING));
    } else if target == s.cpus[c].cur {
      KeepFree(s, c, Yielding, cur);
    } else if s.envs[target.value].status == DYING {
      assert OnSomeCpu(s.cpus, target.value);
      var d :| 0 <= d < |s.cpus| && s.cpus[d].cur.Some? && s.cpus[d].cur.value == target.value;
      assert CurOk(s, d) && !InKernel(s.cpus[d].pc);
      assert !CurOk(s', d);
    } else {
      KeepFree(s, c, Returning, target.value);
    }
  }

  lemma KeepRecv(s: State, c: nat, dstva: nat)
    requires Inv(s) && Enabled(s, Recv(c, dstva))
    ensures Inv(Next(s, Recv(c, dstva)))
  {
    var cur := s.cpus[c].cur.value;
    assert CurOk(s, c);
    if dstva < UTOP && dstva % PGSIZE != 0 {
      KeepGoto(s, c, Returning);
    } else {
      KeepOneEnv(s, c, Yielding, cur, s.envs[cur].(recving := true, dstva := dstva, status := NOT_RUNNABLE));
    }
  }

  lemma KeepShared(s: State, shared: map<nat, Slot>)
    requires Inv(s)
    ensures Inv(s.(shared := shared))
  {
    forall c | 0 <= c < |s.cpus| ensures CurOk(s.(shared := shared), c) { assert CurOk(s, c); }
  }

  lemma KeepTrySend(s: State, c: nat, envid: int, value: nat, srcva: nat, perm: Flags, mem: Memory)
    requires Inv(s) && Enabled(s, TrySend(c, envid, value, srcva, perm, mem))
    ensures Inv(Next(s, TrySend(c, envid, value, srcva, perm, mem)))
  {
    var cur := s.cpus[c].cur.value;
    assert CurOk(s, c);
    if TrySendResult(s, cur, envid, srcva, perm, mem) != 0 {
      KeepGoto(s, c, Returning);
    } else {
      var e := Envid2Env(s, cur, envid, false).value;
      var s' := DoTrySend(s, cur, envid, value, srcva, perm, mem);
      assert s.envs[e].status == NOT_RUNNABLE;
      KeepOneEnv(s, c, Returning, e, s'.envs[e]);
      assert s' == SetEnv(s, e, s'.envs[e]).(shared := s'.shared);
      KeepShared(Goto(SetEnv(s, e, s'.envs[e]), c, Returning), s'.shared);
      assert Goto(s', c, Returning) == Goto(SetEnv(s, e, s'.envs[e]), c, Returning).(shared := s'.shared);
    }
  }

  // ---- Scheduling ----

  lemma {:induction false} FirstRunnableSpec(envs: seq<Env>, start: nat, i: nat)
    requires |envs| == NENV && i <= NENV
    ensures FirstRunnable(envs, start, i).None? ==> forall j: nat :: i <= j < NENV ==> envs[Nth(start, j)].status != RUNNABLE
    ensures FirstRunnable(envs, start, i).Some? ==>
      exists k: nat :: i <= k < NENV && FirstRunnable(envs, start, i).value == Nth(start, k)
        && envs[Nth(start, k)].status == RUNNABLE
        && forall j: nat :: i <= j < k ==> envs[Nth(start, j)].status != RUNNABLE
    decreases NENV - i
  {
    if i < NENV && envs[Nth(start, i)].status != RUNNABLE {
      FirstRunnableSpec(envs, start, i + 1);
    }
  }

  lemma KeepStepDown(s: State, c: nat)
    requires Inv(s) && c < |s.cpus| && s.cpus[c].pc in {Returning, Yielding}
    ensures Inv(StepDown(s, c))
    ensures s.cpus[c].cur.Some? ==> StepDown(s, c).envs[s.cpus[c].cur.value].status != RUNNING
  {
    var s' := StepDown(s, c);
    forall d | 0 <= d < |s.cpus| ensures CurOk(s', d) { assert CurOk(s, d) && CurOk(s, c); }
    forall e1 | 0 <= e1 < NENV && s'.envs[e1].status in {RUNNING, DYING} ensures OnSomeCpu(s'.cpus, e1) {
      assert s.envs[e1].status in {RUNNING, DYING};
    }
    forall e1 | 0 <= e1 < NENV ensures s'.envs[e1].status == FREE <==> e1 in s.free {
      assert s.envs[e1].status == FREE <==> e1 in s.free;
    }
  }

  // Returning to user mode in environment i.
  lemma KeepResume(s: State, c: nat, i: nat)
    requires Inv(s) && c < |s.cpus| && s.cpus[c].pc in {Returning, Yielding} && i < NENV
    requires s.envs[i].status == RUNNABLE
    requires s.cpus[c].cur.Some? ==> s.envs[s.cpus[c].cur.value].status != RUNNING
    ensures Inv(Resume(s, c, i))
  {
    var s' := Resume(s, c, i);
    assert CurOk(s, c);
    forall d | 0 <= d < |s.cpus| && d != c ensures CurOk(s', d) && s.cpus[d].cur != Some(i) {
      assert CurOk(s, d) && !InKernel(s.cpus[d].pc);
    }
    forall e1 | 0 <= e1 < NENV && s'.envs[e1].status in {RUNNING, DYING} ensures OnSomeCpu(s'.cpus, e1) {
      ResumedOn(s, c, i, e1);
    }
    forall e1 | 0 <= e1 < NENV ensures s'.envs[e1].status == FREE <==> e1 in s.free {
      assert s.envs[e1].status == FREE <==> e1 in s.free;
    }
  }

  lemma ResumedOn(s: State, c: nat, i: nat, e: nat)
    requires Inv(s) && c < |s.cpus| && s.cpus[c].pc in {Returning, Yielding} && i < NENV && e < NENV
    requires s.cpus[c].cur.Some? ==> s.envs[s.cpus[c].cur.value].status != RUNNING
    requires e == i || s.envs[e].status in {RUNNING, DYING}
    ensures OnSomeCpu(Resume(s, c, i).cpus, e)
  {
    var s' := Resume(s, c, i);
    assert CurOk(s, c);
    if e == i {
      assert s'.cpus[c].cur == Some(i);
    } else {
      assert OnSomeCpu(s.cpus, e);
      var d :| 0 <= d < |s.cpus| && s.cpus[d].cur.Some? && s.cpus[d].cur.value == e;
      assert s'.cpus[d].cur == s.cpus[d].cur;
    }
  }

  lemma KeepEnvRun(s: State, c: nat, i: nat)
    requires Inv(s) && c < |s.cpus| && s.cpus[c].pc in {Returning, Yielding} && i < NENV
    requires s.envs[i].status == RUNNABLE || (s.cpus[c].cur == Some(i) && s.envs[i].status == RUNNING)
    ensures Inv(EnvRun(s, c, i))
  {
    KeepStepDown(s, c);
    KeepResume(StepDown(s, c), c, i);
  }

  lemma KeepSchedYield(s: State, c: nat)
    requires Inv(s) && c < |s.cpus| && s.cpus[c].pc in {Returning, Yielding}
    ensures Inv(SchedYield(s, c))
  {
    FirstRunnableSpec(s.envs, Start(s, c), 0);
    var next := FirstRunnable(s.envs, Start(s, c), 0);
    assert CurOk(s, c);
    if next.Some? {
      KeepEnvRun(s, c, next.value);
    } else if s.cpus[c].cur.Some? && s.envs[s.cpus[c].cur.value].status == RUNNING {
      KeepEnvRun(s, c, s.cpus[c].cur.value);
    } else {
      KeepHalt(s, c);
    }
  }

  lemma KeepHalt(s: State, c: nat)
    requires Inv(s) && c < |s.cpus| && s.cpus[c].pc in {Returning, Yielding}
    requires s.cpus[c].cur.Some? ==> s.envs[s.cpus[c].cur.value].status != RUNNING
    ensures Inv(SetCpu(s, c, Halted, None).(lock := None))
    ensures Inv(Goto(s, c, Monitor))
  {
    var s1, s2 := SetCpu(s, c, Halted, None).(lock := None), Goto(s, c, Monitor);
    assert CurOk(s, c);
    forall d | 0 <= d < |s.cpus| ensures CurOk(s1, d) && CurOk(s2, d) { assert CurOk(s, d); }
    forall e1 | 0 <= e1 < NENV && s.envs[e1].status in {RUNNING, DYING}
      ensures OnSomeCpu(s1.cpus, e1) && OnSomeCpu(s2.cpus, e1)
    {
      assert OnSomeCpu(s.cpus, e1);
      var d :| 0 <= d < |s.cpus| && s.cpus[d].cur.Some? && s.cpus[d].cur.value == e1;
      assert s1.cpus[d].cur == s.cpus[d].cur && s2.cpus[d].cur == s.cpus[d].cur;
    }
  }

  lemma KeepEntry(s: State, c: nat)
    requires Inv(s) && c < |s.cpus|
    ensures s.cpus[c].pc in {User, Halted} ==> Inv(Goto(s, c, Spin))
    ensures s.cpus[c].pc == Spin && s.lock == None ==> Inv(Goto(s, c, Entered).(lock := Some(c)))
  {
    var s1, s2 := Goto(s, c, Spin), Goto(s, c, Entered).(lock := Some(c));
    assert CurOk(s, c);
    forall d | 0 <= d < |s.cpus|
      ensures s.cpus[c].pc in {User, Halted} ==> CurOk(s1, d)
      ensures s.cpus[c].pc == Spin && s.lock == None ==> CurOk(s2, d)
    {
      assert CurOk(s, d);
    }
    forall e1 | 0 <= e1 < NENV && s.envs[e1].status in {RUNNING, DYING}
      ensures OnSomeCpu(s1.cpus, e1) && OnSomeCpu(s2.cpus, e1)
    {
      SameCurs(s.cpus, s1.cpus, e1);
      SameCurs(s.cpus, s2.cpus, e1);
    }
  }

  lemma KeepsInv(s: State, a: Action)
    requires Inv(s) && Enabled(s, a)
    ensures Inv(Next(s, a)) <==> Allowed(s, a)
  {
    assert CurOk(s, a.c);
    match a
    case Trap(c) => KeepEntry(s, c);
    case Acquire(c) => KeepEntry(s, c);
    case Collect(c) => KeepFree(s, c, Yielding, s.cpus[c].cur.value);
    case Timer(c) => KeepGoto(s, c, Yielding);
    case OtherCall(c) => KeepGoto(s, c, Returning);
    case Exofork(c, vmOk) => KeepExofork(s, c, vmOk);
    case SetStatus(c, envid, status) => KeepSetStatus(s, c, envid, status);
    case Destroy(c, envid) => KeepDestroy(s, c, envid);
    case Recv(c, dstva) => KeepRecv(s, c, dstva);
    case TrySend(c, envid, value, srcva, perm, mem) => KeepTrySend(s, c, envid, value, srcva, perm, mem);
    case Return(c) =>
      if s.cpus[c].cur.Some? && s.envs[s.cpus[c].cur.value].status == RUNNING {
        KeepEnvRun(s, c, s.cpus[c].cur.value);
      } else {
        KeepSchedYield(s, c);
      }
    case Yield(c) => KeepSchedYield(s, c);
  }
}
