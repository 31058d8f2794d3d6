/** The env table as the kernel updates it: kern/env.c, kern/sched.c and the environment and
    IPC calls of kern/syscall.c, each proved to take the step of the state machine. */
module EnvTable {
  import opened Mmu
  import opened EnvIds
  import opened Environments

  // One past the first k slots searched from `start`: none of them was RUNNABLE.
  lemma {:induction false} SearchFrom(envs: seq<Env>, start: nat, k: nat)
    requires |envs| == NENV && k <= NENV
    requires forall j: nat :: j < k ==> envs[Nth(start, j)].status != RUNNABLE
    ensures FirstRunnable(envs, start, 0) == FirstRunnable(envs, start, k)
  {
    if k > 0 { SearchFrom(envs, start, k - 1); }
  }

  class Machine {
    var envs: seq<Env>
    var cpus: seq<Cpu>
    var lock: Option<nat>
    var free: seq<nat>
    var shared: map<nat, Slot>

    ghost function State(): State
      reads this
    {
      Environments.State(envs, cpus, lock, free, shared)
    }

    // env_init on a zeroed table: every slot free, slot 0 first in line.
    constructor (ncpu: nat, tables: map<nat, Slot>)
      requires ncpu > 0
      ensures State().lock == Some(0) && cpus == seq(ncpu, i => Cpu(if i == 0 then Yielding else Spin, None))
      ensures |envs| == NENV && forall e :: 0 <= e < NENV ==> envs[e].id == 0 && envs[e].status == FREE && !envs[e].recving
      ensures free == seq(NENV, i => i) && shared == tables
    {
      var blank := Env(0, 0, FREE, 0, map[], map[], false, 0, 0, 0, NO_FLAGS);
      cpus, lock, shared := seq(ncpu, i => Cpu(if i == 0 then Yielding else Spin, None)), Some(0), tables;
      envs := seq(NENV, i => blank);
      free := [];
      new;
      for i := 0 to NENV
        invariant |envs| == NENV && forall e :: 0 <= e < NENV ==> envs[e] == blank
        invariant free == seq(i, k => k)
        invariant cpus == seq(ncpu, i => Cpu(if i == 0 then Yielding else Spin, None)) && lock == Some(0) && shared == tables
      {
        envs := envs[i := envs[i].(id := 0, status := FREE)];
        free := free + [i];
      }
    }

    // spin_lock by CPU c: the exchange succeeds when the lock was free.
    method TryAcquire(c: nat) returns (got: bool)
      requires c < |cpus|
      modifies this
      ensures got == (old(lock) == None)
      ensures State() == if got then Goto(old(State()), c, Entered).(lock := Some(c)) else old(State())
    {
      got := lock == None;
      if got {
        lock := Some(c);
        cpus := cpus[c := cpus[c].(pc := Entered)];
      }
    }

    method EnvidToEnv(cur: nat, envid: int, checkperm: bool) returns (e: Option<nat>)
      requires Sized(State()) && cur < NENV
      ensures e == Envid2Env(State(), cur, envid, checkperm)
      ensures e.Some? ==> e.value < NENV && (e.value == cur || envs[e.value].id == envid)
      ensures checkperm && e.Some? ==> e.value == cur || envs[e.value].parent == envs[cur].id
    {
      if envid == 0 { return Some(cur); }
      var slot := ENVX(envid);
      if envs[slot].status == FREE || envs[slot].id != envid { return None; }
      if checkperm && slot != cur && envs[slot].parent != envs[cur].id { return None; }
      return Some(slot);
    }

    // env_alloc; vmOk says whether env_setup_vm finds a page for the directory.
    method EnvAlloc(parent: int, vmOk: bool) returns (e: Option<nat>)
      requires Sized(State())
      modifies this`envs, this`free
      ensures e == if old(free) != [] && vmOk then Some(old(free)[0]) else None
      ensures e.None? ==> envs == old(envs) && free == old(free)
      ensures e.Some? ==> e.value < NENV && free == old(free)[1..]
      ensures e.Some? ==> envs == old(envs)[e.value := NewEnv(old(envs)[e.value], e.value, parent).(status := RUNNABLE)]
    {
      if free == [] || !vmOk { return None; }
      var i := free[0];
      var generation := ClearIndex(Int32(envs[i].id + GENERATION));
      if generation <= 0 { generation := GENERATION; }
      envs := envs[i := envs[i].(id := generation + i)];
      envs := envs[i := envs[i].(parent := parent, status := RUNNABLE, runs := 0)];
      envs := envs[i := envs[i].(recving := false)];
      free := free[1..];
      return Some(i);
    }

    // env_free, as far as the table goes.
    method Release(e: nat)
      requires e < |envs|
      modifies this`envs, this`free
      ensures State() == EnvFree(old(State()), e)
    {
      envs := envs[e := envs[e].(space := map[], dir := map[])];
      envs := envs[e := envs[e].(status := FREE)];
      free := [e] + free;
    }

    method EnvDestroy(c: nat, e: nat)
      requires c < |cpus| && e < |envs|
      modifies this
      ensures State() == DoDestroy(old(State()), c, Some(e))
    {
      if envs[e].status == RUNNING && cpus[c].cur != Some(e) {
        envs := envs[e := envs[e].(status := DYING)];
        cpus := cpus[c := cpus[c].(pc := Returning)];
        return;
      }
      Release(e);
      if cpus[c].cur == Some(e) {
        cpus := cpus[c := Cpu(Yielding, None)];
      } else {
        cpus := cpus[c := cpus[c].(pc := Returning)];
      }
    }

    method SysExofork(c: nat, cur: nat, vmOk: bool) returns (r: Option<int>)
      requires Sized(State()) && c < |cpus| && cur < NENV
      modifies this
      ensures State() == DoExofork(old(State()), c, cur, vmOk)
      ensures r == if old(free) != [] && vmOk then Some(NextId(old(envs)[old(free)[0]].id, old(free)[0])) else None
    {
      var e := EnvAlloc(envs[cur].id, vmOk);
      r := None;
      if e.Some? {
        envs := envs[e.value := envs[e.value].(status := NOT_RUNNABLE)];
        r := Some(envs[e.value].id);
      }
      cpus := cpus[c := cpus[c].(pc := Returning)];
    }

    method SysEnvSetStatus(c: nat, cur: nat, envid: int, status: Status) returns (r: int)
      requires Sized(State()) && c < |cpus| && cur < NENV
      modifies this
      ensures State() == DoSetStatus(old(State()), c, Envid2Env(old(State()), cur, envid, true), status)
      ensures r == if status !in {RUNNABLE, NOT_RUNNABLE} then -E_INVAL
                   else if Envid2Env(old(State()), cur, envid, true).None? then -E_BAD_ENV else 0
    {
      var e := EnvidToEnv(cur, envid, true);
      r := 0;
      if status != RUNNABLE && status != NOT_RUNNABLE {
        r := -E_INVAL;
      } else if e.None? {
        r := -E_BAD_ENV;
      } else {
        envs := envs[e.value := envs[e.value].(status := status)];
      }
      cpus := cpus[c := cpus[c].(pc := Returning)];
    }

    // page_insert into environment e, for the page found by the sender's page_lookup.
    method PageInsert(e: nat, va: nat, slot: Slot)
      requires e < |envs|
      modifies this`envs, this`shared
      ensures State() == Insert(old(State()), e, va, slot)
    {
      if va < UTOP {
        envs := envs[e := envs[e].(space := envs[e].space[PGNUM(va) := slot])];
      } else if UVPT <= va < UVPT + PTSIZE {
        envs := envs[e := envs[e].(dir := envs[e].dir[PTX(va) := slot])];
      } else {
        shared := shared[PGNUM(va) := slot];
      }
    }

    // The part of sys_ipc_try_send that moves the page.
    method SendPage(cur: nat, e: nat, srcva: nat, perm: Flags, mem: Memory) returns (r: int)
      requires Sized(State()) && cur < NENV && e < NENV
      requires envs[e].recving && srcva < UTOP
      modifies this`envs, this`shared
      ensures r == 0 || State() == old(State())
      ensures r == if srcva % PGSIZE != 0 || !SyscallPerm(perm) || Lookup(old(envs)[cur].space, srcva, mem).None? then -E_INVAL
                   else if !Lookup(old(envs)[cur].space, srcva, mem).value.w && perm.w then -E_INVAL
                   else if !mem.room then -E_NO_MEM else 0
      ensures r == 0 ==>
        var s1 := Insert(old(State()), e, old(envs)[e].dstva, Slot(Lookup(old(envs)[cur].space, srcva, mem).value.page, perm.w));
        State() == SetEnv(s1, e, s1.envs[e].(perm := perm))
    {
      if srcva % PGSIZE != 0 { return -E_INVAL; }
      if !SyscallPerm(perm) { return -E_INVAL; }
      var found := Lookup(envs[cur].space, srcva, mem);
      if found.None? { return -E_INVAL; }
      if !found.value.w && perm.w { return -E_INVAL; }
      if !mem.room { return -E_NO_MEM; }
      PageInsert(e, envs[e].dstva, Slot(found.value.page, perm.w));
      envs := envs[e := envs[e].(perm := perm)];
      return 0;
    }

    method SysIpcTrySend(cur: nat, envid: int, value: nat, srcva: nat, perm: Flags, mem: Memory) returns (r: int)
      requires Sized(State()) && cur < NENV
      modifies this`envs, this`shared
      ensures r == TrySendResult(old(State()), cur, envid, srcva, perm, mem)
      ensures r != 0 ==> State() == old(State())
      ensures State() == DoTrySend(old(State()), cur, envid, value, srcva, perm, mem)
    {
      ghost var s := State();
      var target := EnvidToEnv(cur, envid, false);
      if target.None? { return -E_BAD_ENV; }
      var e := target.value;
      if !envs[e].recving { return -E_IPC_NOT_RECV; }
      var from := envs[cur].id;
      if srcva < UTOP {
        r := SendPage(cur, e, srcva, perm, mem);
        if r != 0 { return; }
      } else {
        envs := envs[e := envs[e].(perm := NO_FLAGS)];
      }
      envs := envs[e := envs[e].(recving := false)];
      envs := envs[e := envs[e].(from := from)];
      envs := envs[e := envs[e].(value := value)];
      envs := envs[e := envs[e].(status := RUNNABLE)];
      return 0;
    }

    method SysIpcRecv(c: nat, cur: nat, dstva: nat) returns (r: int)
      requires Sized(State()) && c < |cpus| && cur < NENV
      modifies this
      ensures State() == DoRecv(old(State()), c, cur, dstva)
      ensures r == 0 <==> dstva >= UTOP || dstva % PGSIZE == 0
    {
      if dstva < UTOP && dstva % PGSIZE != 0 {
        cpus := cpus[c := cpus[c].(pc := Returning)];
        return -E_INVAL;
      }
      envs := envs[cur := envs[cur].(recving := true)];
      envs := envs[cur := envs[cur].(dstva := dstva)];
      envs := envs[cur := envs[cur].(status := NOT_RUNNABLE)];
      cpus := cpus[c := cpus[c].(pc := Yielding)];
      return 0;
    }

    method Run(c: nat, e: nat)
      requires Sized(State()) && c < |cpus| && e < NENV
      modifies this
      ensures State() == EnvRun(old(State()), c, e)
    {
      if cpus[c].cur.Some? && envs[cpus[c].cur.value].status == RUNNING {
        envs := envs[cpus[c].cur.value := envs[cpus[c].cur.value].(status := RUNNABLE)];
      }
      envs := envs[e := envs[e].(status := RUNNING)];
      envs := envs[e := envs[e].(runs := envs[e].runs + 1)];
      cpus := cpus[c := Cpu(User, Some(e))];
      lock := None;
    }

    method SchedHalt(c: nat)
      requires Sized(State()) && c < |cpus|
      modifies this
      ensures State() == if AnyoneLeft(old(envs)) then SetCpu(old(State()), c, Halted, None).(lock := None)
                         else Goto(old(State()), c, Monitor)
    {
      var i := 0;
      while i < NENV && envs[i].status != RUNNABLE && envs[i].status != RUNNING && envs[i].status != DYING
        invariant i <= NENV && forall e :: 0 <= e < i ==> envs[e].status !in {RUNNABLE, RUNNING, DYING}
        invariant State() == old(State())
      {
        i := i + 1;
      }
      if i == NENV {
        cpus := cpus[c := cpus[c].(pc := Monitor)];
      } else {
        cpus := cpus[c := Cpu(Halted, None)];
        lock := None;
      }
    }

    // The loop of sched_yield, up to the environment it runs.
    method Search(c: nat) returns (found: Option<nat>)
      requires Sized(State()) && c < |cpus|
      ensures found == FirstRunnable(envs, Start(State(), c), 0)
      ensures found.Some? ==> found.value < NENV
    {
      var start := 0;
      if cpus[c].cur.Some? { start := cpus[c].cur.value; }
      var i := 0;
      while i < NENV
        invariant i <= NENV
        invariant forall j: nat :: j < i ==> envs[Nth(start, j)].status != RUNNABLE
      {
        var idle := Nth(start, i);
        if envs[idle].status == RUNNABLE {
          SearchFrom(envs, start, i);
          return Some(idle);
        }
        i := i + 1;
      }
      SearchFrom(envs, start, NENV);
      return None;
    }

    method Yield(c: nat)
      requires Sized(State()) && c < |cpus|
      modifies this
      ensures State() == SchedYield(old(State()), c)
    {
      var idle := Search(c);
      if idle.Some? {
        Run(c, idle.value);
      } else if cpus[c].cur.Some? && envs[cpus[c].cur.value].status == RUNNING {
        Run(c, cpus[c].cur.value);
      } else {
        SchedHalt(c);
      }
    }

    // The end of trap, once trap_dispatch has returned.
    method TrapReturn(c: nat)
      requires Sized(State()) && c < |cpus| && cpus[c].pc == Returning
      modifies this
      ensures State() == Next(old(State()), Return(c))
    {
      if cpus[c].cur.Some? && envs[cpus[c].cur.value].status == RUNNING {
        Run(c, cpus[c].cur.value);
      } else {
        Yield(c);
      }
    }
  }
}
