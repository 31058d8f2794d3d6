/** What the environment machine guarantees over whole runs: one CPU per environment, ids
    that go stale, messages delivered exactly once, and a bound on waiting for a turn. */
module EnvRuns {
  import opened Mmu
  import opened EnvIds
  import opened Environments

  datatype Message = Message(value: nat, from: int, perm: Flags)

  // Since a slot's occupant was allocated: the messages sent to it, and how many times it
  // began to receive.
  datatype Ledger = Ledger(sent: seq<Message>, recvs: nat)

  // The machine with, for each slot, how many environments it has held and the ledger.
  datatype History = History(s: State, allocs: seq<nat>, ledgers: seq<Ledger>)

  predicate Receives(s: State, a: Action, e: nat) {
    a.Recv? && a.c < |s.cpus| && s.cpus[a.c].cur == Some(e) && (a.dstva >= UTOP || a.dstva % PGSIZE == 0)
  }

  predicate Allocates(s: State, a: Action, e: nat) {
    a.Exofork? && s.free != [] && s.free[0] == e && a.vmOk
  }

  predicate Sends(s: State, a: Action, e: nat)
    requires |s.envs| == NENV
  {
    a.TrySend? && a.c < |s.cpus| && s.cpus[a.c].cur.Some? && s.cpus[a.c].cur.value < NENV
    && TrySendResult(s, s.cpus[a.c].cur.value, a.envid, a.srcva, a.perm, a.mem) == 0
    && Envid2Env(s, s.cpus[a.c].cur.value, a.envid, false) == Some(e)
  }

  function Sent(s: State, a: Action, e: nat): Message
    requires |s.envs| == NENV && Sends(s, a, e)
  {
    Message(a.value, s.envs[s.cpus[a.c].cur.value].id, if a.srcva < UTOP then a.perm else NO_FLAGS)
  }

  function Entry(s: State, a: Action, e: nat, l: Ledger): Ledger
    requires |s.envs| == NENV
  {
    if Allocates(s, a, e) then Ledger([], 0)
    else if Receives(s, a, e) then l.(recvs := l.recvs + 1)
    else if Sends(s, a, e) then l.(sent := l.sent + [Sent(s, a, e)])
    else l
  }

  ghost function Record(h: History, a: Action): History
    requires Enabled(h.s, a) && |h.allocs| == NENV && |h.ledgers| == NENV
  {
    History(Next(h.s, a),
            seq(NENV, (e: nat) requires e < NENV => h.allocs[e] + if Allocates(h.s, a, e) then 1 else 0),
            seq(NENV, (e: nat) requires e < NENV => Entry(h.s, a, e, h.ledgers[e])))
  }

  // An environment has received what was sent to it, and the last of it is in its fields.
  predicate Settled(env: Env, l: Ledger) {
    && |l.sent| + (if env.recving then 1 else 0) == l.recvs
    && (l.sent != [] ==> l.sent[|l.sent| - 1] == Message(env.value, env.from, env.perm))
  }

  ghost predicate Good(h: History) {
    && Inv(h.s) && |h.allocs| == NENV && |h.ledgers| == NENV
    && forall e: nat :: e < NENV ==> GoodSlot(h, e)
  }

  predicate GoodSlot(h: History, e: nat)
    requires |h.s.envs| == NENV && |h.allocs| == NENV && |h.ledgers| == NENV && e < NENV
  {
    && h.s.envs[e].id == IdAfter(h.allocs[e], e)
    && (h.s.envs[e].status != FREE ==> h.allocs[e] > 0 && Settled(h.s.envs[e], h.ledgers[e]))
  }

  // ---- What a step does to one environment ----

  predicate SameIpc(env: Env, env': Env) {
    env'.id == env.id && env'.recving == env.recving && env'.value == env.value && env'.from == env.from
    && env'.perm == env.perm && (env'.status != FREE ==> env.status != FREE)
  }

  lemma RunKeepsIpc(s: State, c: nat, i: nat, e: nat)
    requires Sized(s) && c < |s.cpus| && i < NENV && e < NENV && s.envs[i].status != FREE
    ensures SameIpc(s.envs[e], EnvRun(s, c, i).envs[e])
    ensures EnvRun(s, c, i).cpus == s.cpus[c := Cpu(User, Some(i))]
  {}

  // What sched_yield chooses: the first RUNNABLE environment, else the one it ran before.
  lemma SchedChoice(s: State, c: nat) returns (i: Option<nat>)
    requires Inv(s) && c < |s.cpus| && s.cpus[c].pc in {Returning, Yielding}
    ensures i.Some? ==> i.value < NENV && s.envs[i.value].status != FREE && SchedYield(s, c) == EnvRun(s, c, i.value)
    ensures i.None? ==> SchedYield(s, c).envs == s.envs && |SchedYield(s, c).cpus| == |s.cpus|
    ensures var next := FirstRunnable(s.envs, Start(s, c), 0); next.Some? ==> i == next
  {
    FirstRunnableSpec(s.envs, Start(s, c), 0);
    var next := FirstRunnable(s.envs, Start(s, c), 0);
    if next.Some? {
      i := next;
    } else if s.cpus[c].cur.Some? && s.envs[s.cpus[c].cur.value].status == RUNNING {
      i := s.cpus[c].cur;
    } else {
      i := None;
    }
  }

  lemma SchedKeepsIpc(s: State, c: nat, e: nat)
    requires Inv(s) && c < |s.cpus| && s.cpus[c].pc in {Returning, Yielding} && e < NENV
    ensures SameIpc(s.envs[e], SchedYield(s, c).envs[e])
  {
    var i := SchedChoice(s, c);
    if i.Some? { RunKeepsIpc(s, c, i.value, e); }
  }

  lemma OthersKeepIpc(s: State, a: Action, e: nat)
    requires Inv(s) && Enabled(s, a) && e < NENV
    requires !Allocates(s, a, e) && !Receives(s, a, e) && !Sends(s, a, e)
    ensures SameIpc(s.envs[e], Next(s, a).envs[e])
  {
    assert CurOk(s, a.c);
    match a
    case Return(c) =>
      if s.cpus[c].cur.Some? && s.envs[s.cpus[c].cur.value].status == RUNNING {
        RunKeepsIpc(s, c, s.cpus[c].cur.value, e);
      } else {
        SchedKeepsIpc(s, c, e);
      }
    case Yield(c) => SchedKeepsIpc(s, c, e);
    case TrySend(c, envid, value, srcva, perm, mem) => SendTouchesTarget(s, a, e);
    case SetStatus(c, envid, status) =>
    case Destroy(c, envid) =>
    case Exofork(c, vmOk) =>
    case Recv(c, dstva) =>
    case _ =>
  }

  lemma SendTouchesTarget(s: State, a: Action, e: nat)
    requires Sized(s) && Enabled(s, a) && e < NENV && a.TrySend? && !Sends(s, a, e)
    ensures Next(s, a).envs[e] == s.envs[e]
  {}

  lemma SendSettles(s: State, a: Action, e: nat)
    requires Inv(s) && Enabled(s, a) && e < NENV && Sends(s, a, e)
    ensures s.envs[e].recving && s.envs[e].status == NOT_RUNNABLE
    ensures var env := Next(s, a).envs[e];
      !env.recving && env.id == s.envs[e].id && Sent(s, a, e) == Message(env.value, env.from, env.perm)
  {
    assert CurOk(s, a.c);
  }

  lemma ReceiveOpens(s: State, a: Action, e: nat)
    requires Inv(s) && Enabled(s, a) && e < NENV && Receives(s, a, e)
    ensures !s.envs[e].recving && s.envs[e].status == RUNNING
    ensures Next(s, a).envs[e] == s.envs[e].(recving := true, dstva := a.dstva, status := NOT_RUNNABLE)
  {
    assert CurOk(s, a.c);
  }

  lemma SlotGood(h: History, a: Action, e: nat)
    requires Good(h) && Enabled(h.s, a) && e < NENV
    ensures GoodSlot(Record(h, a), e)
  {
    assert GoodSlot(h, e);
    if Allocates(h.s, a, e) {
      assert Next(h.s, a).envs[e] == NewEnv(h.s.envs[e], e, h.s.envs[h.s.cpus[a.c].cur.value].id);
    } else if Receives(h.s, a, e) {
      ReceiveOpens(h.s, a, e);
    } else if Sends(h.s, a, e) {
      SendSettles(h.s, a, e);
    } else {
      OthersKeepIpc(h.s, a, e);
    }
  }

  lemma StepGood(h: History, a: Action)
    requires Good(h) && Enabled(h.s, a) && Allowed(h.s, a)
    ensures Good(Record(h, a))
  {
    KeepsInv(h.s, a);
    forall e: nat | e < NENV ensures GoodSlot(Record(h, a), e) { SlotGood(h, a, e); }
  }

  // ---- Runs ----

  // A run that respects the side conditions of Allowed.
  ghost predicate Runs(h: History, actions: seq<Action>)
    decreases |actions|
  {
    actions == [] ||
    (&& Enabled(h.s, actions[0]) && Allowed(h.s, actions[0]) && |h.allocs| == NENV && |h.ledgers| == NENV
     && Runs(Record(h, actions[0]), actions[1..]))
  }

  ghost function After(h: History, actions: seq<Action>): History
    requires Runs(h, actions)
    decreases |actions|
  {
    if actions == [] then h else After(Record(h, actions[0]), actions[1..])
  }

  // The boot CPU is about to schedule for the first time; the others wait for the lock.
  // Slots in `made` hold what env_create made, the rest are free, in order.
  ghost predicate Booted(h: History, made: nat) {
    && Sized(h.s) && made <= NENV && |h.allocs| == NENV && |h.ledgers| == NENV
    && 0 < |h.s.cpus| && h.s.lock == Some(0)
    && (forall c :: 0 <= c < |h.s.cpus| ==> h.s.cpus[c] == Cpu(if c == 0 then Yielding else Spin, None))
    && |h.s.free| == NENV - made && (forall k :: 0 <= k < NENV - made ==> h.s.free[k] == made + k)
    && (forall e: nat :: e < NENV ==>
          && h.s.envs[e].status == (if e < made then RUNNABLE else FREE) && !h.s.envs[e].recving
          && h.allocs[e] == (if e < made then 1 else 0) && h.s.envs[e].id == IdAfter(h.allocs[e], e)
          && h.ledgers[e] == Ledger([], 0))
  }

  lemma BootedGood(h: History, made: nat)
    requires Booted(h, made)
    ensures Good(h)
  {
    forall c | 0 <= c < |h.s.cpus| ensures CurOk(h.s, c) { assert h.s.cpus[c].cur == None; }
    forall e | 0 <= e < NENV ensures h.s.envs[e].status == FREE <==> e in h.s.free {
      if e >= made { assert h.s.free[e - made] == e; }
    }
    assert forall e: nat :: e < NENV ==> GoodSlot(h, e);
  }

  lemma {:induction false} RunGood(h: History, actions: seq<Action>)
    requires Good(h) && Runs(h, actions)
    ensures Good(After(h, actions))
    decreases |actions|
  {
    if actions != [] {
      StepGood(h, actions[0]);
      RunGood(Record(h, actions[0]), actions[1..]);
    }
  }

  // ---- One CPU per environment ----

  // The environments that are RUNNING or DYING are the current ones, each on one CPU.
  ghost predicate OneCpuEach(s: State) {
    && (forall e :: 0 <= e < |s.envs| ==> (s.envs[e].status in {RUNNING, DYING} <==> OnSomeCpu(s.cpus, e)))
    && (forall c, d :: 0 <= c < |s.cpus| && 0 <= d < |s.cpus| && s.cpus[c].cur.Some? && s.cpus[c].cur == s.cpus[d].cur ==> c == d)
  }

  // Whenever the lock is free, whatever system calls the CPUs have made.
  lemma OneCpuPerEnv(h: History, made: nat, actions: seq<Action>)
    requires Booted(h, made) && Runs(h, actions)
    ensures var s := After(h, actions).s;
      s.lock == None ==> OneCpuEach(s) && forall c :: 0 <= c < |s.cpus| ==> !InKernel(s.cpus[c].pc)
    ensures var s := After(h, actions).s;
      s.lock.Some? ==> forall c :: 0 <= c < |s.cpus| ==> (InKernel(s.cpus[c].pc) <==> c == s.lock.value)
  {
    BootedGood(h, made);
    RunGood(h, actions);
    var s := After(h, actions).s;
    if s.lock == None {
      forall e | 0 <= e < |s.envs| && OnSomeCpu(s.cpus, e) ensures s.envs[e].status in {RUNNING, DYING} {
        var c :| 0 <= c < |s.cpus| && s.cpus[c].cur.Some? && s.cpus[c].cur.value == e;
        assert CurOk(s, c);
      }
    }
  }

  lemma {:induction false} SameChoice(envs: seq<Env>, envs': seq<Env>, start: nat, i: nat)
    requires |envs| == |envs'| == NENV && forall e :: 0 <= e < NENV ==> (envs'[e].status == RUNNABLE <==> envs[e].status == RUNNABLE)
    ensures FirstRunnable(envs', start, i) == FirstRunnable(envs, start, i)
    decreases NENV - i
  {
    if i < NENV && envs[Nth(start, i)].status != RUNNABLE { SameChoice(envs, envs', start, i + 1); }
  }

  // After a system call on CPU c: back to its environment, a timer interrupt, and a choice.
  function TurnOver(c: nat): seq<Action> { [Return(c), Trap(c), Acquire(c), Timer(c), Yield(c)] }

  ghost predicate Happens(s: State, actions: seq<Action>, s': State)
    decreases |actions|
  {
    if actions == [] then s' == s else Enabled(s, actions[0]) && Happens(Next(s, actions[0]), actions[1..], s')
  }

  // Why sys_env_set_status must not make an environment runnable while another CPU runs it:
  // if it is the next one in order, it then runs on both.
  lemma TwoCpusOneEnv(s: State, c: nat, d: nat, e: nat, envid: int) returns (s': State)
    requires Inv(s) && Enabled(s, SetStatus(c, envid, RUNNABLE)) && d < |s.cpus| && d != c && s.cpus[d].cur == Some(e)
    requires Envid2Env(s, s.cpus[c].cur.value, envid, true) == Some(e)
    requires FirstRunnable(Next(s, SetStatus(c, envid, RUNNABLE)).envs, s.cpus[c].cur.value, 0) == Some(e)
    ensures Happens(Next(s, SetStatus(c, envid, RUNNABLE)), TurnOver(c), s')
    ensures c < |s'.cpus| && d < |s'.cpus| && s'.lock == None && s'.cpus[c].cur == s'.cpus[d].cur == Some(e)
  {
    var cur := s.cpus[c].cur.value;
    assert CurOk(s, c) && s.envs[cur].status == RUNNING && cur != e;
    var s1 := Next(s, SetStatus(c, envid, RUNNABLE));
    assert s1 == Goto(SetEnv(s, e, s.envs[e].(status := RUNNABLE)), c, Returning);
    s' := ChosenNext(s1, c, d, cur, e);
  }

  lemma ChosenNext(s1: State, c: nat, d: nat, cur: nat, e: nat) returns (s': State)
    requires Sized(s1) && c < |s1.cpus| && d < |s1.cpus| && d != c && cur < NENV && s1.cpus[d].cur == Some(e)
    requires s1.cpus[c] == Cpu(Returning, Some(cur)) && s1.envs[cur].status == RUNNING && FirstRunnable(s1.envs, cur, 0) == Some(e)
    ensures Happens(s1, TurnOver(c), s')
    ensures c < |s'.cpus| && d < |s'.cpus| && s'.lock == None && s'.cpus[c].cur == s'.cpus[d].cur == Some(e)
  {
    var s2 := Next(s1, Return(c));
    Returned(s1, c, cur);
    var s5 := TimerRuns(s2, c, cur);
    SameChoice(s1.envs, s5.envs, cur, 0);
    s' := Next(s5, Yield(c));
    TimerThenYield(s2, c, s5, s');
    HappensOne(s1, [Trap(c), Acquire(c), Timer(c), Yield(c)], Return(c), s');
    assert [Return(c)] + [Trap(c), Acquire(c), Timer(c), Yield(c)] == TurnOver(c);
  }

  lemma TimerThenYield(s2: State, c: nat, s5: State, s': State)
    requires Enabled(s2, Trap(c)) && Enabled(Next(s2, Trap(c)), Acquire(c))
    requires var s4 := Next(Next(s2, Trap(c)), Acquire(c)); Enabled(s4, Timer(c)) && s5 == Next(s4, Timer(c))
    requires Enabled(s5, Yield(c)) && s' == Next(s5, Yield(c))
    ensures Happens(s2, [Trap(c), Acquire(c), Timer(c), Yield(c)], s')
  {
    HappensOne(s5, [], Yield(c), s');
    HappensOne(Next(Next(s2, Trap(c)), Acquire(c)), [Yield(c)], Timer(c), s');
    HappensOne(Next(s2, Trap(c)), [Timer(c), Yield(c)], Acquire(c), s');
    HappensOne(s2, [Acquire(c), Timer(c), Yield(c)], Trap(c), s');
    assert [Trap(c)] + [Acquire(c), Timer(c), Yield(c)] == [Trap(c), Acquire(c), Timer(c), Yield(c)];
    assert [Acquire(c)] + [Timer(c), Yield(c)] == [Acquire(c), Timer(c), Yield(c)];
    assert [Timer(c)] + [Yield(c)] == [Timer(c), Yield(c)] && [Yield(c)] + [] == [Yield(c)];
  }

  lemma Returned(s1: State, c: nat, cur: nat)
    requires Sized(s1) && c < |s1.cpus| && cur < NENV && s1.cpus[c] == Cpu(Returning, Some(cur)) && s1.envs[cur].status == RUNNING
    ensures Enabled(s1, Return(c))
    ensures var s2 := Next(s1, Return(c));
      && Sized(s2) && s2.cpus == s1.cpus[c := Cpu(User, Some(cur))] && s2.lock == None && s2.envs[cur].status == RUNNING
      && forall e :: 0 <= e < NENV ==> (s2.envs[e].status == RUNNABLE <==> s1.envs[e].status == RUNNABLE)
  {}

  lemma TimerRuns(s2: State, c: nat, cur: nat) returns (s5: State)
    requires Sized(s2) && c < |s2.cpus| && cur < NENV && s2.cpus[c] == Cpu(User, Some(cur)) && s2.lock == None && s2.envs[cur].status == RUNNING
    ensures Enabled(s2, Trap(c)) && Enabled(Next(s2, Trap(c)), Acquire(c)) && Enabled(Next(Next(s2, Trap(c)), Acquire(c)), Timer(c))
    ensures s5 == Next(Next(Next(s2, Trap(c)), Acquire(c)), Timer(c))
    ensures s5 == s2.(cpus := s2.cpus[c := Cpu(Yielding, Some(cur))], lock := Some(c))
  {
    var s3 := Next(s2, Trap(c));
    assert s3 == s2.(cpus := s2.cpus[c := Cpu(Spin, Some(cur))]);
    var s4 := Next(s3, Acquire(c));
    assert s4 == s2.(cpus := s2.cpus[c := Cpu(Entered, Some(cur))], lock := Some(c));
    s5 := Next(s4, Timer(c));
  }

  lemma HappensOne(s: State, actions: seq<Action>, a: Action, s': State)
    requires Enabled(s, a) && Happens(Next(s, a), actions, s')
    ensures Happens(s, [a] + actions, s')
  {
    assert ([a] + actions)[1..] == actions;
  }

  // ---- Stale ids ----

  // The id a slot's j-th occupant was given finds the slot's present occupant exactly if
  // there is one and the allocations since then are a multiple of 2^19 - 1.
  lemma StaleIdRejected(h: History, cur: nat, e: nat, j: nat)
    requires Good(h) && cur < NENV && e < NENV && 0 < j <= h.allocs[e]
    ensures Envid2Env(h.s, cur, IdAfter(j, e), false) ==
      if h.s.envs[e].status != FREE && (h.allocs[e] - j) % CYCLE == 0 then Some(e) else None
  {
    assert GoodSlot(h, e);
    IdShape(j, e);
    IdsRepeatExactly(j, h.allocs[e], e);
  }

  // ---- IPC ----

  // In every reachable state each live environment has had exactly one message for each
  // receive it began, except the one it is blocked in, and its fields hold the last one.
  lemma ExactlyOnce(h: History, made: nat, actions: seq<Action>, e: nat)
    requires Booted(h, made) && Runs(h, actions) && e < NENV
    ensures var h' := After(h, actions);
      |h'.ledgers| == NENV == |h'.s.envs| && (h'.s.envs[e].status != FREE ==> Settled(h'.s.envs[e], h'.ledgers[e]))
  {
    BootedGood(h, made);
    RunGood(h, actions);
    assert GoodSlot(After(h, actions), e);
  }

  // No step of the run is a receive by e or gives e's slot to someone else.
  ghost predicate Quiet(h: History, actions: seq<Action>, e: nat)
    requires Runs(h, actions)
    decreases |actions|
  {
    actions == [] ||
    (!Receives(h.s, actions[0], e) && !Allocates(h.s, actions[0], e) && Quiet(Record(h, actions[0]), actions[1..], e))
  }

  // What was delivered stays until the receiver calls again.
  lemma {:induction false} NeverOverwritten(h: History, actions: seq<Action>, e: nat)
    requires Good(h) && Runs(h, actions) && Quiet(h, actions, e) && e < NENV
    requires h.s.envs[e].recving ==> h.s.envs[e].status == FREE
    ensures var h' := After(h, actions);
      |h'.s.envs| == |h'.ledgers| == NENV && SameIpc(h.s.envs[e], h'.s.envs[e]) && h'.ledgers[e] == h.ledgers[e]
    decreases |actions|
  {
    if actions != [] {
      StepGood(h, actions[0]);
      OthersKeepIpc(h.s, actions[0], e);
      NeverOverwritten(Record(h, actions[0]), actions[1..], e);
    }
  }

  // A send that fails leaves every environment and every mapping as it was.
  lemma FailedSend(s: State, a: Action)
    requires Enabled(s, a) && a.TrySend? && forall e: nat :: !Sends(s, a, e)
    ensures Next(s, a).envs == s.envs && Next(s, a).shared == s.shared
  {
    var cur := s.cpus[a.c].cur.value;
    if TrySendResult(s, cur, a.envid, a.srcva, a.perm, a.mem) == 0 {
      assert Sends(s, a, Envid2Env(s, cur, a.envid, false).value);
    }
  }

  // The entry a send of a page asks for.
  function SentSlot(s: State, a: Action): Slot
    requires Sized(s) && a.TrySend? && a.c < |s.cpus| && s.cpus[a.c].cur.Some?
    requires Lookup(s.envs[s.cpus[a.c].cur.value].space, a.srcva, a.mem).Some?
  {
    Slot(Lookup(s.envs[s.cpus[a.c].cur.value].space, a.srcva, a.mem).value.page, a.perm.w)
  }

  predicate InUvpt(va: nat) { UVPT <= va < UVPT + PTSIZE }

  // A send that succeeds touches only the receiver, and maps exactly the page asked for: at
  // the receiver's address below UTOP; or, whatever the receiver meant by an address at or
  // above UTOP, there, in its page directory or in the tables common to all.
  lemma SuccessfulSend(s: State, a: Action, e: nat)
    requires Inv(s) && Enabled(s, a) && e < NENV && Sends(s, a, e)
    ensures var s' := Next(s, a);
      && (forall e1 :: 0 <= e1 < NENV && e1 != e ==> s'.envs[e1] == s.envs[e1])
      && s'.envs[e].status == RUNNABLE && s'.free == s.free
    ensures var s' := Next(s, a);
      a.srcva >= UTOP ==> s'.envs[e].space == s.envs[e].space && s'.envs[e].dir == s.envs[e].dir && s'.shared == s.shared
    ensures a.srcva < UTOP ==>
      var cur := s.envs[s.cpus[a.c].cur.value];
      Lookup(cur.space, a.srcva, a.mem).Some? && (a.perm.w ==> Lookup(cur.space, a.srcva, a.mem).value.w)
    ensures a.srcva < UTOP ==>
      var s', va := Next(s, a), s.envs[e].dstva;
      && s'.envs[e].space == (if va < UTOP then s.envs[e].space[PGNUM(va) := SentSlot(s, a)] else s.envs[e].space)
      && s'.envs[e].dir == (if va >= UTOP && InUvpt(va) then s.envs[e].dir[PTX(va) := SentSlot(s, a)] else s.envs[e].dir)
      && s'.shared == (if va >= UTOP && !InUvpt(va) then s.shared[PGNUM(va) := SentSlot(s, a)] else s.shared)
  {}

  // The entry is already there, outside the receiver's user part.
  predicate There(s: State, e: nat, slot: Slot)
    requires e < |s.envs|
  {
    var va := s.envs[e].dstva;
    if InUvpt(va) then PTX(va) in s.envs[e].dir && s.envs[e].dir[PTX(va)] == slot
    else PGNUM(va) in s.shared && s.shared[PGNUM(va)] == slot
  }

  // So a send changes page tables that are not the receiver's own user tables exactly if it
  // sends a page, the receiver's address is at or above UTOP, and the entry is not there yet.
  lemma ReachesOutsideExactly(s: State, a: Action, e: nat)
    requires Inv(s) && Enabled(s, a) && e < NENV && Sends(s, a, e)
    ensures a.srcva < UTOP ==> Lookup(s.envs[s.cpus[a.c].cur.value].space, a.srcva, a.mem).Some?
    ensures var s' := Next(s, a);
      (s'.envs[e].dir != s.envs[e].dir || s'.shared != s.shared) <==>
        a.srcva < UTOP && s.envs[e].dstva >= UTOP && !There(s, e, SentSlot(s, a))
  {
    SuccessfulSend(s, a, e);
    if a.srcva < UTOP && s.envs[e].dstva >= UTOP {
      var slot, va := SentSlot(s, a), s.envs[e].dstva;
      if InUvpt(va) {
        UpdateChanges(s.envs[e].dir, PTX(va), slot);
      } else {
        UpdateChanges(s.shared, PGNUM(va), slot);
      }
    }
  }

  lemma UpdateChanges(m: map<nat, Slot>, k: nat, slot: Slot)
    ensures m[k := slot] == m <==> k in m && m[k] == slot
  {
    if k in m && m[k] == slot { assert m[k := slot] == m; }
    if m[k := slot] == m { assert k in m[k := slot]; }
  }

  // ---- Waiting for a turn ----

  // How far t is from slot `from`, going round.
  function Distance(from: nat, t: nat): nat
    requires from < NENV && t < NENV
  {
    if from <= t then t - from else NENV + t - from
  }

  lemma Around(from: nat, k: nat, t: nat)
    requires from < NENV && t < NENV && k <= Distance(from, t)
    ensures Nth(from, Distance(from, t)) == t && Nth(from, 0) == from
    ensures Distance(Nth(from, k), t) == Distance(from, t) - k
  {}

  // A waiting environment gets strictly nearer at each choice that passes it over.
  lemma Nearer(envs: seq<Env>, cur: nat, t: nat)
    requires |envs| == NENV && cur < NENV && t < NENV
    requires envs[t].status == RUNNABLE && envs[cur].status != RUNNABLE
    ensures var next := FirstRunnable(envs, cur, 0);
      next.Some? && next.value < NENV && envs[next.value].status == RUNNABLE
      && (next.value == t || Distance(next.value, t) < Distance(cur, t))
  {
    FirstRunnableSpec(envs, cur, 0);
    Around(cur, 0, t);
    var next := FirstRunnable(envs, cur, 0);
    assert next.Some? by { assert envs[Nth(cur, Distance(cur, t))].status == RUNNABLE; }
    var k: nat :| k < NENV && next.value == Nth(cur, k) && envs[Nth(cur, k)].status == RUNNABLE
      && forall j: nat :: 0 <= j < k ==> envs[Nth(cur, j)].status != RUNNABLE;
    assert k <= Distance(cur, t);
    Around(cur, k, t);
  }

  // CPU c is about to choose what to run.
  predicate Chooses(s: State, a: Action, c: nat) {
    a.c == c && c < |s.cpus| &&
    (a.Yield? || (a.Return? && (s.cpus[c].cur.Some? && s.cpus[c].cur.value < |s.envs| ==> s.envs[s.cpus[c].cur.value].status != RUNNING)))
  }

  // Through the run, whenever c chooses, it has a curenv that is not RUNNABLE, t is
  // RUNNABLE, and c chooses another environment.
  ghost predicate PassedOver(h: History, actions: seq<Action>, c: nat, t: nat)
    requires Runs(h, actions) && t < NENV
    decreases |actions|
  {
    actions == [] ||
    (&& (Chooses(h.s, actions[0], c) ==>
          && h.s.cpus[c].cur.Some? && h.s.envs[h.s.cpus[c].cur.value].status != RUNNABLE
          && h.s.envs[t].status == RUNNABLE && Next(h.s, actions[0]).cpus[c].cur != Some(t))
     && PassedOver(Record(h, actions[0]), actions[1..], c, t))
  }

  ghost function Choices(h: History, actions: seq<Action>, c: nat): nat
    requires Runs(h, actions)
    decreases |actions|
  {
    if actions == [] then 0
    else (if Chooses(h.s, actions[0], c) then 1 else 0) + Choices(Record(h, actions[0]), actions[1..], c)
  }

  // CPU c's curenv changes only when it chooses, or to nothing.
  lemma CurChanges(s: State, a: Action, c: nat)
    requires Inv(s) && Enabled(s, a) && c < |s.cpus|
    ensures |Next(s, a).cpus| == |s.cpus|
    ensures !Chooses(s, a, c) ==> Next(s, a).cpus[c].cur in {None, s.cpus[c].cur}
    ensures Chooses(s, a, c) && FirstRunnable(s.envs, Start(s, c), 0).Some? ==>
      Next(s, a).cpus[c].cur == FirstRunnable(s.envs, Start(s, c), 0)
  {
    if a.Return? || a.Yield? {
      SchedChanges(s, a.c, c);
    } else {
      CallChanges(s, a, c);
    }
  }

  lemma CallChanges(s: State, a: Action, c: nat)
    requires Sized(s) && Enabled(s, a) && c < |s.cpus| && !a.Return? && !a.Yield?
    ensures Next(s, a).cpus[c].cur in {None, s.cpus[c].cur}
  {}

  lemma SchedChanges(s: State, d: nat, c: nat)
    requires Inv(s) && c < |s.cpus| && d < |s.cpus| && s.cpus[d].pc in {Returning, Yielding}
    ensures |SchedYield(s, d).cpus| == |s.cpus|
    ensures c != d ==> SchedYield(s, d).cpus[c] == s.cpus[c]
    ensures c == d && FirstRunnable(s.envs, Start(s, c), 0).Some? ==>
      SchedYield(s, c).cpus[c].cur == FirstRunnable(s.envs, Start(s, c), 0)
  {
    var i := SchedChoice(s, d);
    if i.Some? { RunKeepsIpc(s, d, i.value, i.value); }
  }

  // So within NENV - 1 choices of any CPU, if the environment it ran before is still its
  // curenv and not RUNNABLE each time, a RUNNABLE environment is chosen (there or elsewhere).
  lemma {:induction false} BoundedWait(h: History, actions: seq<Action>, c: nat, t: nat)
    requires Good(h) && Runs(h, actions) && c < |h.s.cpus| && t < NENV && PassedOver(h, actions, c, t)
    ensures h.s.cpus[c].cur == None ==> Choices(h, actions, c) == 0
    ensures h.s.cpus[c].cur.Some? ==>
      var d := Distance(h.s.cpus[c].cur.value, t); Choices(h, actions, c) <= if d == 0 then 0 else d - 1
    ensures Choices(h, actions, c) < NENV - 1
    decreases |actions|
  {
    if actions != [] {
      StepGood(h, actions[0]);
      CurChanges(h.s, actions[0], c);
      if Chooses(h.s, actions[0], c) {
        Nearer(h.s.envs, h.s.cpus[c].cur.value, t);
      }
      BoundedWait(Record(h, actions[0]), actions[1..], c, t);
    }
  }

  // The two conditions are needed: a CPU without a curenv starts over at slot 0, and one
  // whose curenv is RUNNABLE chooses it again.
  lemma StartsOver(s: State, c: nat)
    requires Sized(s) && c < |s.cpus|
    ensures s.cpus[c].cur == None && s.envs[0].status == RUNNABLE ==> FirstRunnable(s.envs, Start(s, c), 0) == Some(0)
    ensures s.cpus[c].cur.Some? ==>
      (FirstRunnable(s.envs, Start(s, c), 0) == s.cpus[c].cur <==> s.envs[s.cpus[c].cur.value].status == RUNNABLE)
  {
    FirstRunnableSpec(s.envs, Start(s, c), 0);
    Around(Start(s, c), 0, Start(s, c));
  }
}
