/** How a pipe's end notices that the other end is gone: by comparing page reference counts,
    which dup and close keep in order by the order of their mapping calls. */
module PipeRefs {
  const MAXFD: nat := 32
  const PGSIZE: nat := 4096
  const FDTABLE: nat := 0xD000_0000
  const FILEDATA: nat := FDTABLE + MAXFD * PGSIZE

  function IndexToFd(i: nat): nat { FDTABLE + i * PGSIZE }

  function IndexToData(i: nat): nat { FILEDATA + i * PGSIZE }

  // What an environment has mapped at a descriptor's two addresses, seen from one pipe; an
  // OtherPipe is an end of another one, an OtherFd a file or the console.
  datatype Fd = NoFd | ReadEnd | WriteEnd | OtherPipe | OtherFd
  datatype Data = NoData | PipePage | OtherData
  datatype Slot = Slot(fd: Fd, data: Data)

  // Which system call comes next.
  datatype Pc =
    | Idle
    | CloseFd(k: nat) | CloseData(k: nat) | CloseAgain(k: nat)
    | DupClose(from: nat, to: nat) | DupCloseFd(from: nat, to: nat) | DupCloseData(from: nat, to: nat) | DupCloseAgain(from: nat, to: nat)
    | DupData(from: nat, to: nat) | DupFd(from: nat, to: nat)
    | UndoFd(to: nat) | UndoData(to: nat)

  datatype Env = Env(slots: seq<Slot>, pc: Pc)

  // What an environment does next; `ok` says whether a mapping call gets its memory.
  datatype Act = BeginDup(from: nat, to: nat) | BeginClose(k: nat) | Go(ok: bool)

  // The slot an operation in progress is working on.
  function Target(pc: Pc): int {
    match pc
    case Idle => -1
    case CloseFd(k) => k case CloseData(k) => k case CloseAgain(k) => k
    case DupClose(_, to) => to case DupCloseFd(_, to) => to case DupCloseData(_, to) => to case DupCloseAgain(_, to) => to
    case DupData(_, to) => to case DupFd(_, to) => to
    case UndoFd(to) => to case UndoData(to) => to
  }

  predicate Sized(env: Env) {
    && |env.slots| == MAXFD && Target(env.pc) < MAXFD
    && match env.pc
       case DupClose(from, _) => from < MAXFD case DupCloseFd(from, _) => from < MAXFD
       case DupCloseData(from, _) => from < MAXFD case DupCloseAgain(from, _) => from < MAXFD
       case DupData(from, _) => from < MAXFD case DupFd(from, _) => from < MAXFD
       case _ => true
  }

  // An operation begins when none is in progress and its fd_lookup succeeds. dup itself does
  // not check the new number; here it is within the table.
  predicate Enabled(env: Env, a: Act) {
    && Sized(env)
    && match a
       case BeginDup(from, to) => env.pc == Idle && from < MAXFD && to < MAXFD && env.slots[from].fd != NoFd
       case BeginClose(k) => env.pc == Idle && k < MAXFD && env.slots[k].fd != NoFd
       case Go(_) => env.pc != Idle
  }

  // Its close is devpipe_close, which unmaps the data page too.
  predicate IsPipe(fd: Fd) { fd in {ReadEnd, WriteEnd, OtherPipe} }

  function Put(env: Env, k: nat, slot: Slot, pc: Pc): Env
    requires k < |env.slots|
  {
    Env(env.slots[k := slot], pc)
  }

  function Next(env: Env, a: Act): Env
    requires Enabled(env, a)
  {
    match a
    case BeginDup(from, to) => env.(pc := DupClose(from, to))
    case BeginClose(k) => env.(pc := CloseFd(k))
    case Go(ok) => (
      match env.pc
      case CloseFd(k) =>
        Put(env, k, env.slots[k].(fd := NoFd),
            if IsPipe(env.slots[k].fd) then CloseData(k) else CloseAgain(k))
      case CloseData(k) => Put(env, k, env.slots[k].(data := NoData), CloseAgain(k))
      case CloseAgain(k) => Put(env, k, env.slots[k].(fd := NoFd), Idle)
      case DupClose(from, to) =>
        env.(pc := if env.slots[to].fd == NoFd then DupData(from, to) else DupCloseFd(from, to))
      case DupCloseFd(from, to) =>
        Put(env, to, env.slots[to].(fd := NoFd),
            if IsPipe(env.slots[to].fd) then DupCloseData(from, to) else DupCloseAgain(from, to))
      case DupCloseData(from, to) => Put(env, to, env.slots[to].(data := NoData), DupCloseAgain(from, to))
      case DupCloseAgain(from, to) => Put(env, to, env.slots[to].(fd := NoFd), DupData(from, to))
      case DupData(from, to) =>
        if env.slots[from].data == NoData then env.(pc := DupFd(from, to))
        else if !ok then env.(pc := UndoFd(to))
        else Put(env, to, env.slots[to].(data := env.slots[from].data), DupFd(from, to))
      case DupFd(from, to) =>
        if !ok || env.slots[from].fd == NoFd then env.(pc := UndoFd(to))
        else Put(env, to, env.slots[to].(fd := env.slots[from].fd), Idle)
      case UndoFd(to) => Put(env, to, env.slots[to].(fd := NoFd), UndoData(to))
      case UndoData(to) => Put(env, to, env.slots[to].(data := NoData), Idle)
      case Idle => env
    )
  }

  // ---- Invariant of one environment ----

  predicate Paired(slot: Slot) { slot.fd in {ReadEnd, WriteEnd} ==> slot.data == PipePage }

  predicate Tidy(slot: Slot) { slot.data == PipePage ==> slot.fd in {ReadEnd, WriteEnd} }

  // Wherever an end is mapped so is the pipe; and where the pipe is mapped so is an end,
  // except in the middle of an operation on that slot.
  ghost predicate Ok(env: Env) {
    && Sized(env)
    && (forall k :: 0 <= k < MAXFD ==> Paired(env.slots[k]))
    && (forall k :: 0 <= k < MAXFD && k != Target(env.pc) ==> Tidy(env.slots[k]))
    && match env.pc
       case CloseAgain(k) => env.slots[k].data != PipePage && env.slots[k].fd == NoFd
       case DupCloseAgain(_, to) => env.slots[to].data != PipePage && env.slots[to].fd == NoFd
       case DupCloseFd(_, to) => Tidy(env.slots[to])
       case CloseFd(k) => Tidy(env.slots[k])
       case CloseData(k) => env.slots[k].fd == NoFd
       case DupCloseData(_, to) => env.slots[to].fd == NoFd
       case DupClose(_, to) => Tidy(env.slots[to])
       case DupData(from, to) => env.slots[to].fd == NoFd && env.slots[to].data != PipePage
       case DupFd(from, to) =>
         && env.slots[to].fd == NoFd && (env.slots[to].data == PipePage ==> env.slots[from].data == PipePage)
         && (env.slots[from].data == PipePage ==> env.slots[to].data == PipePage)
       case UndoFd(to) => env.slots[to].fd == NoFd
       case UndoData(to) => env.slots[to].fd == NoFd
       case _ => true
  }

  lemma StepOk(env: Env, a: Act)
    requires Ok(env) && Enabled(env, a)
    ensures Ok(Next(env, a))
  {}

  // ---- Reference counts ----

  datatype Page = PageOfReader | PageOfWriter | PageOfPipe

  function Holds(slot: Slot, page: Page): nat {
    match page
    case PageOfReader => if slot.fd == ReadEnd then 1 else 0
    case PageOfWriter => if slot.fd == WriteEnd then 1 else 0
    case PageOfPipe => if slot.data == PipePage then 1 else 0
  }

  function SlotRefs(slots: seq<Slot>, page: Page): nat {
    if slots == [] then 0 else Holds(slots[0], page) + SlotRefs(slots[1..], page)
  }

  // pageref: how many mappings of the page there are in all environments.
  function Refs(envs: seq<Env>, page: Page): nat {
    if envs == [] then 0 else SlotRefs(envs[0].slots, page) + Refs(envs[1..], page)
  }

  ghost predicate AllOk(envs: seq<Env>) { forall e :: 0 <= e < |envs| ==> Ok(envs[e]) }

  lemma {:induction false} SlotBound(slots: seq<Slot>)
    requires forall k :: 0 <= k < |slots| ==> Paired(slots[k])
    ensures SlotRefs(slots, PageOfReader) + SlotRefs(slots, PageOfWriter) <= SlotRefs(slots, PageOfPipe)
  {
    if slots != [] { SlotBound(slots[1..]); }
  }

  // At every step of any number of closes and dups, the two ends together have no more
  // references than the pipe.
  lemma {:induction false} RefsBound(envs: seq<Env>)
    requires AllOk(envs)
    ensures Refs(envs, PageOfReader) + Refs(envs, PageOfWriter) <= Refs(envs, PageOfPipe)
  {
    if envs != [] {
      SlotBound(envs[0].slots);
      RefsBound(envs[1..]);
    }
  }

  lemma {:induction false} SlotEqual(slots: seq<Slot>)
    requires forall k :: 0 <= k < |slots| ==> Paired(slots[k]) && Tidy(slots[k])
    ensures SlotRefs(slots, PageOfReader) + SlotRefs(slots, PageOfWriter) == SlotRefs(slots, PageOfPipe)
  {
    if slots != [] { SlotEqual(slots[1..]); }
  }

  // Between operations it is exactly as many.
  lemma {:induction false} RefsEqual(envs: seq<Env>)
    requires AllOk(envs) && forall e :: 0 <= e < |envs| ==> envs[e].pc == Idle
    ensures Refs(envs, PageOfReader) + Refs(envs, PageOfWriter) == Refs(envs, PageOfPipe)
  {
    if envs != [] {
      SlotEqual(envs[0].slots);
      RefsEqual(envs[1..]);
    }
  }

  function Own(page: Fd): Page { if page == ReadEnd then PageOfReader else PageOfWriter }

  function OtherEnd(page: Fd): Page { if page == ReadEnd then PageOfWriter else PageOfReader }

  // The comparison never reports an end closed that is not; and between operations it
  // reports exactly the closed ones.
  lemma ComparisonIsSound(envs: seq<Env>, end: Fd)
    requires AllOk(envs) && end in {ReadEnd, WriteEnd}
    ensures Refs(envs, Own(end)) == Refs(envs, PageOfPipe) ==> Refs(envs, OtherEnd(end)) == 0
    ensures (forall e :: 0 <= e < |envs| ==> envs[e].pc == Idle) ==>
      (Refs(envs, Own(end)) == Refs(envs, PageOfPipe) <==> Refs(envs, OtherEnd(end)) == 0)
  {
    RefsBound(envs);
    if forall e :: 0 <= e < |envs| ==> envs[e].pc == Idle { RefsEqual(envs); }
  }

  // ---- A closed end stays closed ----

  lemma {:induction false} NoSlotHolds(slots: seq<Slot>, page: Page)
    ensures SlotRefs(slots, page) == 0 <==> forall k :: 0 <= k < |slots| ==> Holds(slots[k], page) == 0
  {
    if slots != [] {
      NoSlotHolds(slots[1..], page);
      assert forall k :: 0 <= k < |slots| - 1 ==> slots[1..][k] == slots[k + 1];
      if SlotRefs(slots[1..], page) == 0 && Holds(slots[0], page) == 0 {
        forall k | 0 <= k < |slots| ensures Holds(slots[k], page) == 0 {
          if k > 0 { assert slots[1..][k - 1] == slots[k]; }
        }
      }
    }
  }

  lemma {:induction false} NoneHolds(envs: seq<Env>, page: Page)
    ensures Refs(envs, page) == 0 <==> forall e :: 0 <= e < |envs| ==> SlotRefs(envs[e].slots, page) == 0
  {
    if envs != [] {
      NoneHolds(envs[1..], page);
      assert forall e :: 0 <= e < |envs| - 1 ==> envs[1..][e] == envs[e + 1];
      if Refs(envs[1..], page) == 0 && SlotRefs(envs[0].slots, page) == 0 {
        forall e | 0 <= e < |envs| ensures SlotRefs(envs[e].slots, page) == 0 {
          if e > 0 { assert envs[1..][e - 1] == envs[e]; }
        }
      }
    }
  }

  lemma StaysClosed(envs: seq<Env>, e: nat, a: Act, end: Fd)
    requires e < |envs| && Enabled(envs[e], a) && end in {ReadEnd, WriteEnd} && Refs(envs, Own(end)) == 0
    ensures Refs(envs[e := Next(envs[e], a)], Own(end)) == 0
  {
    var envs' := envs[e := Next(envs[e], a)];
    NoneHolds(envs, Own(end));
    NoneHolds(envs', Own(end));
    NoSlotHolds(envs[e].slots, Own(end));
    NoSlotHolds(envs'[e].slots, Own(end));
  }

  // ---- _pipeisclosed on one CPU ----

  // Where an environment is in _pipeisclosed for an end: it reads env_runs, the count of its
  // end, the count of the pipe, env_runs again, and answers or starts over.
  datatype Asking =
    | No
    | Ask(end: Fd)
    | ReadRuns(end: Fd, n: nat)
    | ReadEndRefs(end: Fd, n: nat, endRefs: nat)
    | ReadPipeRefs(end: Fd, n: nat, endRefs: nat, pipeRefs: nat)
    | Answered(end: Fd, closed: bool)

  // cur is the environment that runs; runs counts how often each was resumed.
  datatype System = System(envs: seq<Env>, asking: seq<Asking>, runs: seq<nat>, cur: nat)

  datatype Event = Switch(to: nat) | Move(act: Act) | StartAsking(k: nat) | KeepAsking

  predicate Possible(s: System, v: Event) {
    && |s.asking| == |s.runs| == |s.envs| && s.cur < |s.envs|
    && match v
       case Switch(to) => to < |s.envs|
       case Move(act) => Enabled(s.envs[s.cur], act) && (s.asking[s.cur].No? || s.asking[s.cur].Answered?)
       case StartAsking(k) =>
         && s.envs[s.cur].pc == Idle && k < |s.envs[s.cur].slots| && s.envs[s.cur].slots[k].fd in {ReadEnd, WriteEnd}
         && (s.asking[s.cur].No? || s.asking[s.cur].Answered?)
       case KeepAsking => !s.asking[s.cur].No? && !s.asking[s.cur].Answered?
  }

  function AskNext(s: System): Asking
    requires Possible(s, KeepAsking)
  {
    match s.asking[s.cur]
    case Ask(end) => ReadRuns(end, s.runs[s.cur])
    case ReadRuns(end, n) => ReadEndRefs(end, n, Refs(s.envs, Own(end)))
    case ReadEndRefs(end, n, r) => ReadPipeRefs(end, n, r, Refs(s.envs, PageOfPipe))
    case ReadPipeRefs(end, n, r, p) => if n == s.runs[s.cur] then Answered(end, r == p) else Ask(end)
    case No => No
    case Answered(end, closed) => Answered(end, closed)
  }

  function Happen(s: System, v: Event): System
    requires Possible(s, v)
  {
    match v
    case Switch(to) => s.(cur := to, runs := s.runs[to := s.runs[to] + 1])
    case Move(act) => s.(envs := s.envs[s.cur := Next(s.envs[s.cur], act)], asking := s.asking[s.cur := No])
    case StartAsking(k) => s.(asking := s.asking[s.cur := Ask(s.envs[s.cur].slots[k].fd)])
    case KeepAsking => s.(asking := s.asking[s.cur := AskNext(s)])
  }

  // Nothing has happened since env_runs was read, or it has changed, or will have by the
  // time the environment runs again.
  ghost predicate Current(s: System, e: nat)
    requires |s.asking| == |s.runs| == |s.envs| && e < |s.envs|
  {
    match s.asking[e]
    case No => true
    case Ask(end) => end in {ReadEnd, WriteEnd}
    case ReadRuns(end, n) => end in {ReadEnd, WriteEnd} && n <= s.runs[e]
    case ReadEndRefs(end, n, r) =>
      end in {ReadEnd, WriteEnd} && n <= s.runs[e] && (n == s.runs[e] && s.cur == e ==> r == Refs(s.envs, Own(end)))
    case ReadPipeRefs(end, n, r, p) =>
      && end in {ReadEnd, WriteEnd} && n <= s.runs[e]
      && (n == s.runs[e] && s.cur == e ==> r == Refs(s.envs, Own(end)) && p == Refs(s.envs, PageOfPipe))
    case Answered(end, closed) => end in {ReadEnd, WriteEnd} && (closed ==> Refs(s.envs, OtherEnd(end)) == 0)
  }

  ghost predicate Sound(s: System) {
    && |s.asking| == |s.runs| == |s.envs| && s.cur < |s.envs| && AllOk(s.envs)
    && forall e: nat :: e < |s.envs| ==> Current(s, e)
  }

  // Whatever the one CPU does next, an answer "closed" is and stays true.
  lemma HappenSound(s: System, v: Event)
    requires Sound(s) && Possible(s, v)
    ensures Sound(Happen(s, v))
  {
    var s' := Happen(s, v);
    if v.Move? { StepOk(s.envs[s.cur], v.act); }
    forall e: nat | e < |s.envs| ensures Current(s', e) {
      assert Current(s, e);
      if v.Move? && s.asking[e].Answered? && s.asking[e].closed {
        var end := if s.asking[e].end == ReadEnd then WriteEnd else ReadEnd;
        StaysClosed(s.envs, s.cur, v.act, end);
      }
      if v.KeepAsking? && e == s.cur && s.asking[e].ReadPipeRefs? {
        ComparisonIsSound(s.envs, s.asking[e].end);
      }
    }
  }

  ghost predicate Occurs(s: System, events: seq<Event>)
    decreases |events|
  {
    events == [] || (Possible(s, events[0]) && Occurs(Happen(s, events[0]), events[1..]))
  }

  ghost function Later(s: System, events: seq<Event>): System
    requires Occurs(s, events)
    decreases |events|
  {
    if events == [] then s else Later(Happen(s, events[0]), events[1..])
  }

  lemma {:induction false} ClosedIsClosed(s: System, events: seq<Event>, e: nat)
    requires Sound(s) && Occurs(s, events) && e < |s.envs|
    ensures var s' := Later(s, events);
      |s'.envs| == |s'.asking| == |s.envs| && Sound(s')
      && (s'.asking[e].Answered? && s'.asking[e].closed ==> Refs(s'.envs, OtherEnd(s'.asking[e].end)) == 0)
    decreases |events|
  {
    if events != [] {
      HappenSound(s, events[0]);
      ClosedIsClosed(Happen(s, events[0]), events[1..], e);
    } else {
      assert Current(s, e);
    }
  }

  // ---- Why it has to be so ----

  lemma {:induction false} SlotRefsPut(slots: seq<Slot>, k: nat, slot: Slot, page: Page)
    requires k < |slots|
    ensures SlotRefs(slots[k := slot], page) == SlotRefs(slots, page) - Holds(slots[k], page) + Holds(slot, page)
  {
    if k > 0 {
      SlotRefsPut(slots[1..], k - 1, slot, page);
      assert slots[k := slot][1..] == slots[1..][k - 1 := slot];
    } else {
      assert slots[k := slot][1..] == slots[1..];
    }
  }

  lemma {:induction false} RefsPut(envs: seq<Env>, e: nat, k: nat, slot: Slot, pc: Pc, page: Page)
    requires e < |envs| && k < |envs[e].slots|
    ensures Refs(envs[e := Put(envs[e], k, slot, pc)], page) == Refs(envs, page) - Holds(envs[e].slots[k], page) + Holds(slot, page)
  {
    var env' := Put(envs[e], k, slot, pc);
    if e > 0 {
      RefsPut(envs[1..], e - 1, k, slot, pc, page);
      assert envs[e := env'][1..] == envs[1..][e - 1 := env'];
    } else {
      SlotRefsPut(envs[0].slots, k, slot, page);
      assert envs[e := env'][1..] == envs[1..];
    }
  }

  // If the two counts are read with a close by another reader in between, they agree although
  // a writer is left: reading env_runs before and after is what rules this out.
  lemma ReadsApart(envs: seq<Env>, e: nat, k: nat)
    requires AllOk(envs) && (forall i :: 0 <= i < |envs| ==> envs[i].pc == Idle)
    requires e < |envs| && k < MAXFD && envs[e].slots[k].fd == ReadEnd && Refs(envs, PageOfWriter) == 1
    ensures var closed := Next(Next(Next(Next(envs[e], BeginClose(k)), Go(true)), Go(true)), Go(true));
      var envs' := envs[e := closed];
      Refs(envs, PageOfReader) == Refs(envs', PageOfPipe) && Refs(envs', PageOfWriter) == 1
  {
    var closed := Next(Next(Next(Next(envs[e], BeginClose(k)), Go(true)), Go(true)), Go(true));
    assert closed == Put(envs[e], k, Slot(NoFd, NoData), Idle);
    RefsEqual(envs);
    RefsPut(envs, e, k, Slot(NoFd, NoData), Idle, PageOfPipe);
    RefsPut(envs, e, k, Slot(NoFd, NoData), Idle, PageOfWriter);
  }

  // ---- Page by page: what dup and fork do outside the slots ----

  // An address space from the descriptor table on: index p is page FDTABLE + p * PGSIZE.
  datatype Content = Unmapped | Mapped(page: Page) | MappedOther

  function FdContent(slot: Slot): Content {
    match slot.fd case NoFd => Unmapped case ReadEnd => Mapped(PageOfReader) case WriteEnd => Mapped(PageOfWriter) case _ => MappedOther
  }

  function DataContent(slot: Slot): Content {
    match slot.data case NoData => Unmapped case PipePage => Mapped(PageOfPipe) case OtherData => MappedOther
  }

  function Fds(slots: seq<Slot>): seq<Content> { seq(|slots|, i requires 0 <= i < |slots| => FdContent(slots[i])) }

  function Datas(slots: seq<Slot>): seq<Content> { seq(|slots|, i requires 0 <= i < |slots| => DataContent(slots[i])) }

  // The table, the data pages, and `rest` unmapped pages.
  function Pages(slots: seq<Slot>, rest: nat): seq<Content> { Fds(slots) + Datas(slots) + seq(rest, _ => Unmapped) }

  lemma PagesAt(slots: seq<Slot>, rest: nat, i: nat)
    requires |slots| == MAXFD && i < MAXFD
    ensures |Pages(slots, rest)| == 2 * MAXFD + rest
    ensures Pages(slots, rest)[i] == FdContent(slots[i]) && Pages(slots, rest)[MAXFD + i] == DataContent(slots[i])
    ensures IndexToFd(i) == FDTABLE + i * PGSIZE && IndexToData(i) == FDTABLE + (MAXFD + i) * PGSIZE
  {}

  function One(c: Content, page: Page): nat { if c == Mapped(page) then 1 else 0 }

  function Count(pages: seq<Content>, page: Page): nat {
    if pages == [] then 0 else One(pages[0], page) + Count(pages[1..], page)
  }

  lemma {:induction false} CountJoin(a: seq<Content>, b: seq<Content>, page: Page)
    ensures Count(a + b, page) == Count(a, page) + Count(b, page)
  {
    if a == [] {
      assert a + b == b;
    } else {
      assert (a + b)[1..] == a[1..] + b;
      CountJoin(a[1..], b, page);
    }
  }

  lemma {:induction false} CountPut(pages: seq<Content>, i: nat, c: Content, page: Page)
    requires i < |pages|
    ensures Count(pages[i := c], page) == Count(pages, page) - One(pages[i], page) + One(c, page)
  {
    if i == 0 {
      assert pages[0 := c][1..] == pages[1..];
    } else {
      assert pages[i := c][1..] == pages[1..][i - 1 := c];
      CountPut(pages[1..], i - 1, c, page);
    }
  }

  lemma {:induction false} CountUnmapped(n: nat, page: Page)
    ensures Count(seq(n, _ => Unmapped), page) == 0
    decreases n
  {
    if n > 0 {
      assert seq(n, _ => Unmapped)[1..] == seq(n - 1, _ => Unmapped);
      CountUnmapped(n - 1, page);
    }
  }

  lemma {:induction false} CountSlots(slots: seq<Slot>, page: Page)
    ensures Count(Fds(slots), page) + Count(Datas(slots), page) == SlotRefs(slots, page)
  {
    if slots != [] {
      assert Fds(slots)[1..] == Fds(slots[1..]) && Datas(slots)[1..] == Datas(slots[1..]);
      CountSlots(slots[1..], page);
    }
  }

  // The two mapping calls of dup, once the target is closed, for any target: the table begins
  // at page `base`, and its addresses are computed from a signed number.
  function DupAt(pages: seq<Content>, base: nat, from: nat, to: int): (r: seq<Content>)
    requires from < MAXFD && base + 2 * MAXFD <= |pages| && 0 <= base + to && base + MAXFD + to < |pages|
    ensures |r| == |pages|
  {
    var pages1 := if pages[base + MAXFD + from] != Unmapped then pages[base + MAXFD + to := pages[base + MAXFD + from]] else pages;
    pages1[base + to := pages1[base + from]]
  }

  // For a target in the table, that is what the two steps of dup do.
  lemma DupInTable(slots: seq<Slot>, from: nat, to: nat, rest: nat)
    requires |slots| == MAXFD && from < MAXFD && to < MAXFD && from != to && slots[from].fd != NoFd
    ensures |Pages(slots, rest)| == 2 * MAXFD + rest
    ensures var env := Next(Env(slots, DupData(from, to)), Go(true));
      env.pc == DupFd(from, to) && DupAt(Pages(slots, rest), 0, from, to) == Pages(Next(env, Go(true)).slots, rest)
  {
    var env := Next(Env(slots, DupData(from, to)), Go(true));
    var slots' := Next(env, Go(true)).slots;
    var pages, pages' := DupAt(Pages(slots, rest), 0, from, to), Pages(slots', rest);
    assert |pages| == |pages'| == 2 * MAXFD + rest;
    forall p: nat | p < |pages| ensures pages[p] == pages'[p] {
      if p < 2 * MAXFD {
        PagesAt(slots, rest, p % MAXFD);
        PagesAt(slots', rest, p % MAXFD);
      }
    }
  }

  // All references to a page, when environment e has these pages.
  function RefsWith(envs: seq<Env>, e: nat, pages: seq<Content>, page: Page): int
    requires e < |envs|
  {
    Refs(envs, page) - SlotRefs(envs[e].slots, page) + Count(pages, page)
  }

  predicate BoundWith(envs: seq<Env>, e: nat, pages: seq<Content>)
    requires e < |envs|
  {
    RefsWith(envs, e, pages, PageOfReader) + RefsWith(envs, e, pages, PageOfWriter) <= RefsWith(envs, e, pages, PageOfPipe)
  }

  ghost predicate Settled(envs: seq<Env>) { AllOk(envs) && forall i :: 0 <= i < |envs| ==> envs[i].pc == Idle }

  predicate IsEnd(fd: Fd) { fd in {ReadEnd, WriteEnd} }

  lemma SlotAgrees(envs: seq<Env>, e: nat, k: nat)
    requires Settled(envs) && e < |envs| && k < MAXFD
    ensures |envs[e].slots| == MAXFD && (IsEnd(envs[e].slots[k].fd) <==> envs[e].slots[k].data == PipePage)
  {
    assert Ok(envs[e]);
  }

  // None of the pipe's pages is among these.
  predicate Foreign(pages: seq<Content>) { forall c :: c in pages ==> !c.Mapped? }

  // What is below the table, the table and the data pages, what is above.
  function Space(under: seq<Content>, slots: seq<Slot>, over: seq<Content>): seq<Content> { under + (Fds(slots) + Datas(slots)) + over }

  lemma SpaceAt(under: seq<Content>, slots: seq<Slot>, over: seq<Content>)
    requires |slots| == MAXFD
    ensures var pages := Space(under, slots, over);
      && |pages| == |under| + 2 * MAXFD + |over|
      && (forall i :: 0 <= i < |under| ==> pages[i] == under[i])
      && (forall i :: 0 <= i < MAXFD ==> pages[|under| + i] == FdContent(slots[i]) && pages[|under| + MAXFD + i] == DataContent(slots[i]))
      && (forall i :: |under| + 2 * MAXFD <= i < |pages| ==> pages[i] == over[i - |under| - 2 * MAXFD])
  {}

  lemma {:induction false} CountForeign(pages: seq<Content>, page: Page)
    requires Foreign(pages)
    ensures Count(pages, page) == 0
  {
    if pages != [] { CountForeign(pages[1..], page); }
  }

  lemma CountSpace(under: seq<Content>, slots: seq<Slot>, over: seq<Content>, page: Page)
    requires Foreign(under) && Foreign(over)
    ensures Count(Space(under, slots, over), page) == SlotRefs(slots, page)
  {
    CountJoin(under + (Fds(slots) + Datas(slots)), over, page);
    CountJoin(under, Fds(slots) + Datas(slots), page);
    CountJoin(Fds(slots), Datas(slots), page);
    CountForeign(under, page);
    CountForeign(over, page);
    CountSlots(slots, page);
  }

  // The addresses of number newfd are mapped-or-not pages of this address space.
  predicate Within(under: seq<Content>, newfd: int, over: seq<Content>) { 0 <= |under| + newfd && MAXFD + newfd < 2 * MAXFD + |over| }

  // dup of an end to a number outside the table, negative ones included, keeps the bound
  // exactly if the page it maps the descriptor at is not the pipe's data page of a descriptor
  // in the table. If it is, the last open end on the other side looks closed.
  lemma DupPastTheTable(envs: seq<Env>, e: nat, from: nat, newfd: int, under: seq<Content>, over: seq<Content>)
    requires Settled(envs) && e < |envs| && from < MAXFD && |envs[e].slots| == MAXFD && IsEnd(envs[e].slots[from].fd)
    requires !(0 <= newfd < MAXFD) && Foreign(under) && Foreign(over) && Within(under, newfd, over)
    ensures |Space(under, envs[e].slots, over)| == |under| + 2 * MAXFD + |over|
    ensures BoundWith(envs, e, DupAt(Space(under, envs[e].slots, over), |under|, from, newfd)) <==>
      !(MAXFD <= newfd < 2 * MAXFD && IsEnd(envs[e].slots[newfd - MAXFD].fd))
    ensures var pages := DupAt(Space(under, envs[e].slots, over), |under|, from, newfd); var end := envs[e].slots[from].fd;
      MAXFD <= newfd < 2 * MAXFD && IsEnd(envs[e].slots[newfd - MAXFD].fd) && Refs(envs, OtherEnd(end)) == 1 ==>
        RefsWith(envs, e, pages, Own(end)) == RefsWith(envs, e, pages, PageOfPipe) && RefsWith(envs, e, pages, OtherEnd(end)) == 1
  {
    var slots := envs[e].slots;
    SpaceAt(under, slots, over);
    SlotAgrees(envs, e, from);
    if MAXFD <= newfd < 2 * MAXFD { SlotAgrees(envs, e, newfd - MAXFD); }
    RefsEqual(envs);
    forall page: Page | true
      ensures Count(DupAt(Space(under, slots, over), |under|, from, newfd), page) == DupCount(slots, from, newfd, page)
    {
      DupCounts(under, slots, over, from, newfd, page);
    }
  }

  // With a number just below the table, the data page takes the place of a descriptor.
  lemma DupBelowTheTable(under: seq<Content>, slots: seq<Slot>, over: seq<Content>, from: nat, newfd: int)
    requires |slots| == MAXFD && from < MAXFD && slots[from].data == PipePage && 0 - MAXFD <= newfd < 0 && Within(under, newfd, over)
    ensures |Space(under, slots, over)| == |under| + 2 * MAXFD + |over|
    ensures DupAt(Space(under, slots, over), |under|, from, newfd)[|under| + (MAXFD + newfd)] == Mapped(PageOfPipe)
  {
    SpaceAt(under, slots, over);
  }

  // References to a page after dup to a number outside the table.
  function DupCount(slots: seq<Slot>, from: nat, newfd: int, page: Page): int
    requires |slots| == MAXFD && from < MAXFD
  {
    var fd := if newfd == from - MAXFD then Mapped(PageOfPipe) else FdContent(slots[from]);
    SlotRefs(slots, page) + One(fd, page) + One(Mapped(PageOfPipe), page)
      - (if MAXFD <= newfd < 2 * MAXFD then One(DataContent(slots[newfd - MAXFD]), page) else 0)
      - (if 0 - MAXFD <= newfd < 0 then One(FdContent(slots[MAXFD + newfd]), page) else 0)
  }

  // What is at a page of the address space, counted from the table's first.
  lemma SpaceHas(under: seq<Content>, slots: seq<Slot>, over: seq<Content>, i: int)
    requires |slots| == MAXFD && Foreign(under) && Foreign(over) && 0 <= |under| + i && i < 2 * MAXFD + |over|
    ensures |Space(under, slots, over)| == |under| + 2 * MAXFD + |over|
    ensures var c := Space(under, slots, over)[|under| + i];
      if 0 <= i < MAXFD then c == FdContent(slots[i]) else if MAXFD <= i < 2 * MAXFD then c == DataContent(slots[i - MAXFD]) else !c.Mapped?
  {
    SpaceAt(under, slots, over);
    if i < 0 { assert under[|under| + i] in under; }
    if 2 * MAXFD <= i { assert over[i - 2 * MAXFD] in over; }
  }

  lemma CountTwice(pages: seq<Content>, i: nat, c: Content, j: nat, c1: Content, page: Page)
    requires i < |pages| && j < |pages| && i != j
    ensures Count(pages[i := c][j := c1], page) ==
      Count(pages, page) - One(pages[i], page) + One(c, page) - One(pages[j], page) + One(c1, page)
  {
    CountPut(pages, i, c, page);
    CountPut(pages[i := c], j, c1, page);
  }

  lemma DupCounts(under: seq<Content>, slots: seq<Slot>, over: seq<Content>, from: nat, newfd: int, page: Page)
    requires |slots| == MAXFD && from < MAXFD && IsEnd(slots[from].fd) && slots[from].data == PipePage && !(0 <= newfd < MAXFD)
    requires Foreign(under) && Foreign(over) && Within(under, newfd, over)
    ensures |Space(under, slots, over)| == |under| + 2 * MAXFD + |over|
    ensures Count(DupAt(Space(under, slots, over), |under|, from, newfd), page) == DupCount(slots, from, newfd, page)
  {
    CountSpace(under, slots, over, page);
    SpaceHas(under, slots, over, from);
    SpaceHas(under, slots, over, MAXFD + from);
    SpaceHas(under, slots, over, newfd);
    SpaceHas(under, slots, over, MAXFD + newfd);
    var fd := if newfd == from - MAXFD then Mapped(PageOfPipe) else FdContent(slots[from]);
    CountTwice(Space(under, slots, over), |under| + MAXFD + newfd, Mapped(PageOfPipe), |under| + newfd, fd, page);
  }

  // What fork's loop has mapped in the child when it has reached page v; these pages are all
  // PTE_SHARE, so each turn maps the parent's page as it is.
  function ForkAt(pages: seq<Content>, v: nat): (r: seq<Content>)
    requires v <= |pages|
    ensures |r| == |pages|
  {
    if v == 0 then seq(|pages|, _ => Unmapped) else ForkAt(pages, v - 1)[v - 1 := pages[v - 1]]
  }

  lemma {:induction false} ForkAtIs(pages: seq<Content>, v: nat)
    requires v <= |pages|
    ensures ForkAt(pages, v) == pages[..v] + seq(|pages| - v, _ => Unmapped)
    decreases v
  {
    if v > 0 { ForkAtIs(pages, v - 1); }
  }

  // How many of these slots hold an end of the pipe.
  function EndsIn(slots: seq<Slot>): nat {
    if slots == [] then 0 else (if IsEnd(slots[0].fd) then 1 else 0) + EndsIn(slots[1..])
  }

  lemma {:induction false} CountFds(slots: seq<Slot>)
    ensures Count(Fds(slots), PageOfReader) + Count(Fds(slots), PageOfWriter) == EndsIn(slots) && Count(Fds(slots), PageOfPipe) == 0
  {
    if slots != [] {
      assert Fds(slots)[1..] == Fds(slots[1..]);
      CountFds(slots[1..]);
    }
  }

  lemma {:induction false} CountDatas(slots: seq<Slot>)
    requires forall k :: 0 <= k < |slots| ==> (IsEnd(slots[k].fd) <==> slots[k].data == PipePage)
    ensures Count(Datas(slots), PageOfReader) == Count(Datas(slots), PageOfWriter) == 0 && Count(Datas(slots), PageOfPipe) == EndsIn(slots)
  {
    if slots != [] {
      assert Datas(slots)[1..] == Datas(slots[1..]);
      CountDatas(slots[1..]);
    }
  }

  lemma {:induction false} EndsJoin(a: seq<Slot>, b: seq<Slot>)
    ensures EndsIn(a + b) == EndsIn(a) + EndsIn(b)
  {
    if a == [] {
      assert a + b == b;
    } else {
      assert (a + b)[1..] == a[1..] + b;
      EndsJoin(a[1..], b);
    }
  }

  lemma {:induction false} NoEnds(slots: seq<Slot>)
    ensures EndsIn(slots) == 0 <==> forall k :: 0 <= k < |slots| ==> !IsEnd(slots[k].fd)
  {
    if slots != [] {
      NoEnds(slots[1..]);
      assert forall k :: 0 <= k < |slots| - 1 ==> slots[1..][k] == slots[k + 1];
      if !IsEnd(slots[0].fd) && EndsIn(slots[1..]) == 0 {
        forall k | 0 <= k < |slots| ensures !IsEnd(slots[k].fd) { if k > 0 { assert slots[1..][k - 1] == slots[k]; } }
      }
    }
  }

  // What the child holds when the loop is at page v: the descriptors before v, and the data
  // pages before v.
  lemma ForkCounts(slots: seq<Slot>, v: nat)
    requires |slots| == MAXFD && v <= 2 * MAXFD
    requires forall k :: 0 <= k < MAXFD ==> (IsEnd(slots[k].fd) <==> slots[k].data == PipePage)
    ensures |Pages(slots, 0)| == 2 * MAXFD
    ensures var child := ForkAt(Pages(slots, 0), v);
      && Count(child, PageOfReader) + Count(child, PageOfWriter) == EndsIn(slots[..if v < MAXFD then v else MAXFD])
      && Count(child, PageOfPipe) == EndsIn(slots[..if v < MAXFD then 0 else v - MAXFD])
  {
    var pages := Pages(slots, 0);
    ForkAtIs(pages, v);
    var f, d := if v < MAXFD then v else MAXFD, if v < MAXFD then 0 else v - MAXFD;
    assert pages[..v] == Fds(slots[..f]) + Datas(slots[..d]);
    forall page: Page | true ensures Count(ForkAt(pages, v), page) == Count(Fds(slots[..f]), page) + Count(Datas(slots[..d]), page) {
      CountJoin(pages[..v], seq(|pages| - v, _ => Unmapped), page);
      CountUnmapped(|pages| - v, page);
      CountJoin(Fds(slots[..f]), Datas(slots[..d]), page);
    }
    CountFds(slots[..f]);
    CountDatas(slots[..d]);
  }

  // References with a child that the loop has brought to page v.
  function RefsAtFork(envs: seq<Env>, parent: nat, v: nat, page: Page): nat
    requires parent < |envs| && v <= |Pages(envs[parent].slots, 0)|
  {
    Refs(envs, page) + Count(ForkAt(Pages(envs[parent].slots, 0), v), page)
  }

  predicate BoundAtFork(envs: seq<Env>, parent: nat, v: nat)
    requires parent < |envs| && v <= |Pages(envs[parent].slots, 0)|
  {
    RefsAtFork(envs, parent, v, PageOfReader) + RefsAtFork(envs, parent, v, PageOfWriter) <= RefsAtFork(envs, parent, v, PageOfPipe)
  }

  // In fork the bound fails exactly while the loop is past the descriptor page of some end
  // and not yet past its data page.
  lemma ForkBreaksBoundExactly(envs: seq<Env>, parent: nat, v: nat)
    requires Settled(envs) && parent < |envs| && v <= 2 * MAXFD
    ensures |envs[parent].slots| == MAXFD && |Pages(envs[parent].slots, 0)| == 2 * MAXFD
    ensures BoundAtFork(envs, parent, v) <==>
      !exists k :: 0 <= k < MAXFD && IsEnd(envs[parent].slots[k].fd) && k < v <= MAXFD + k
  {
    var slots := envs[parent].slots;
    assert Ok(envs[parent]);
    forall k: nat | k < MAXFD ensures IsEnd(slots[k].fd) <==> slots[k].data == PipePage { SlotAgrees(envs, parent, k); }
    RefsEqual(envs);
    ForkCounts(slots, v);
    var f, d := if v < MAXFD then v else MAXFD, if v < MAXFD then 0 else v - MAXFD;
    assert slots[..f] == slots[..d] + slots[d..f];
    EndsJoin(slots[..d], slots[d..f]);
    NoEnds(slots[d..f]);
    EndsBetween(slots, d, f, v);
  }

  lemma EndsBetween(slots: seq<Slot>, d: nat, f: nat, v: nat)
    requires |slots| == MAXFD && d <= f <= MAXFD && v <= 2 * MAXFD
    requires f == (if v < MAXFD then v else MAXFD) && d == if v < MAXFD then 0 else v - MAXFD
    ensures (forall i :: 0 <= i < f - d ==> !IsEnd(slots[d..f][i].fd)) <==>
      !exists k :: 0 <= k < MAXFD && IsEnd(slots[k].fd) && k < v <= MAXFD + k
  {
    if exists k :: 0 <= k < MAXFD && IsEnd(slots[k].fd) && k < v <= MAXFD + k {
      var k :| 0 <= k < MAXFD && IsEnd(slots[k].fd) && k < v <= MAXFD + k;
      assert slots[d..f][k - d] == slots[k];
    }
    if i :| 0 <= i < f - d && IsEnd(slots[d..f][i].fd) {
      assert slots[d..f][i] == slots[d + i];
    }
  }

  // So a reader that compares the counts just after the loop has passed the page of the first
  // end, a reader's, finds the pipe closed although a writer is left.
  lemma {:induction false} ForkMapsEndFirst(envs: seq<Env>, parent: nat, k: nat)
    requires Settled(envs) && parent < |envs| && k < MAXFD && |envs[parent].slots| == MAXFD
    requires envs[parent].slots[k].fd == ReadEnd && (forall i :: 0 <= i < k ==> !IsEnd(envs[parent].slots[i].fd))
    requires Refs(envs, PageOfWriter) == 1
    ensures |Pages(envs[parent].slots, 0)| == 2 * MAXFD
    ensures RefsAtFork(envs, parent, k + 1, PageOfReader) == RefsAtFork(envs, parent, k + 1, PageOfPipe)
    ensures RefsAtFork(envs, parent, k + 1, PageOfWriter) == 1
  {
    var slots := envs[parent].slots;
    var pages := Pages(slots, 0);
    RefsEqual(envs);
    ForkAtIs(pages, k + 1);
    forall page: Page | true ensures Count(ForkAt(pages, k + 1), page) == Count(Fds(slots[..k]), page) + One(FdContent(slots[k]), page) {
      PagesAt(slots, 0, k);
      assert pages[..k + 1] == Fds(slots[..k]) + [FdContent(slots[k])];
      CountJoin(pages[..k + 1], seq(|pages| - k - 1, _ => Unmapped), page);
      CountUnmapped(|pages| - k - 1, page);
      CountJoin(Fds(slots[..k]), [FdContent(slots[k])], page);
      assert [FdContent(slots[k])][1..] == [];
    }
    CountFds(slots[..k]);
    NoEnds(slots[..k]);
  }

  // ---- dup and close as code ----

  // One environment's descriptor table. `trace` is every state another environment may see:
  // one after each system call.
  class FdTable {
    var slots: seq<Slot>
    var pc: Pc
    ghost var trace: seq<Env>

    ghost function State(): Env
      reads this
    {
      Env(slots, pc)
    }

    ghost predicate Valid()
      reads this
    {
      Ok(State()) && forall i :: 0 <= i < |trace| ==> Ok(trace[i])
    }

    // A mapping call, or the decision to make none, and what comes after it.
    method Step(k: nat, slot: Slot, next: Pc, ghost a: Act)
      requires Valid() && Enabled(State(), a) && k < MAXFD
      requires Next(State(), a) == Put(State(), k, slot, next)
      modifies this
      ensures Valid() && State() == Next(old(State()), a) && trace == old(trace) + [State()]
    {
      StepOk(State(), a);
      slots := slots[k := slot];
      pc := next;
      trace := trace + [State()];
    }

    // close, for a descriptor that is open.
    method Close(k: nat)
      requires Valid() && pc == Idle && k < MAXFD && slots[k].fd != NoFd
      modifies this
      ensures Valid() && pc == Idle && slots[k].fd == NoFd && old(trace) <= trace
      ensures forall j :: 0 <= j < MAXFD && j != k ==> slots[j] == old(slots)[j]
      ensures slots[k].data == if old(slots)[k].fd == OtherFd then old(slots)[k].data else NoData
    {
      Step(k, slots[k], CloseFd(k), BeginClose(k));
      var pipe := IsPipe(slots[k].fd);
      if pipe {
        Step(k, slots[k].(fd := NoFd), CloseData(k), Go(true));
        Step(k, slots[k].(data := NoData), CloseAgain(k), Go(true));
      } else {
        Step(k, slots[k].(fd := NoFd), CloseAgain(k), Go(true));
      }
      Step(k, slots[k].(fd := NoFd), Idle, Go(true));
    }

    // dup's close(newfdnum).
    method CloseTarget(from: nat, to: nat)
      requires Valid() && pc == DupClose(from, to)
      modifies this
      ensures Valid() && pc == DupData(from, to) && old(trace) <= trace
      ensures forall j :: 0 <= j < MAXFD && j != to ==> slots[j] == old(slots)[j]
    {
      if slots[to].fd == NoFd {
        Step(to, slots[to], DupData(from, to), Go(true));
        return;
      }
      Step(to, slots[to], DupCloseFd(from, to), Go(true));
      if IsPipe(slots[to].fd) {
        Step(to, slots[to].(fd := NoFd), DupCloseData(from, to), Go(true));
        Step(to, slots[to].(data := NoData), DupCloseAgain(from, to), Go(true));
      } else {
        Step(to, slots[to].(fd := NoFd), DupCloseAgain(from, to), Go(true));
      }
      Step(to, slots[to].(fd := NoFd), DupData(from, to), Go(true));
    }

    // The data page, if there is one.
    method MapData(from: nat, to: nat, memory: bool) returns (ok: bool)
      requires Valid() && pc == DupData(from, to)
      modifies this
      ensures Valid() && old(trace) <= trace
      ensures ok == (memory || old(slots)[from].data == NoData)
      ensures pc == if ok then DupFd(from, to) else UndoFd(to)
      ensures slots == if ok && slots[from].data != NoData then old(slots)[to := old(slots)[to].(data := old(slots)[from].data)] else old(slots)
    {
      if slots[from].data == NoData {
        Step(to, slots[to], DupFd(from, to), Go(true));
        return true;
      }
      if memory {
        Step(to, slots[to].(data := slots[from].data), DupFd(from, to), Go(true));
        return true;
      }
      Step(to, slots[to], UndoFd(to), Go(false));
      return false;
    }

    // The error path.
    method Undo(to: nat)
      requires Valid() && pc == UndoFd(to)
      modifies this
      ensures Valid() && pc == Idle && old(trace) <= trace && slots == old(slots)[to := Slot(NoFd, NoData)]
    {
      Step(to, slots[to].(fd := NoFd), UndoData(to), Go(true));
      Step(to, slots[to].(data := NoData), Idle, Go(true));
    }

    // The descriptor page.
    method MapFd(from: nat, to: nat, memory: bool) returns (ok: bool)
      requires Valid() && pc == DupFd(from, to)
      modifies this
      ensures Valid() && old(trace) <= trace
      ensures ok == (memory && old(slots)[from].fd != NoFd)
      ensures pc == if ok then Idle else UndoFd(to)
      ensures slots == if ok then old(slots)[to := old(slots)[to].(fd := old(slots)[from].fd)] else old(slots)
    {
      if memory && slots[from].fd != NoFd {
        Step(to, slots[to].(fd := slots[from].fd), Idle, Go(true));
        return true;
      }
      Step(to, slots[to], UndoFd(to), Go(memory));
      return false;
    }

    // dup of an open descriptor: close the target, map the data page, then the descriptor.
    method Dup(from: nat, to: nat, dataMemory: bool, fdMemory: bool) returns (ok: bool)
      requires Valid() && pc == Idle && from < MAXFD && to < MAXFD && slots[from].fd != NoFd
      modifies this
      ensures Valid() && pc == Idle && old(trace) <= trace
      ensures forall j :: 0 <= j < MAXFD && j != to ==> slots[j] == old(slots)[j]
      ensures ok ==> from != to && slots[to].fd == old(slots)[from].fd && (slots[from].data != NoData ==> slots[to].data == slots[from].data)
      ensures !ok ==> slots[to] == Slot(NoFd, NoData)
      ensures from != to && dataMemory && fdMemory ==> ok
    {
      Step(to, slots[to], DupClose(from, to), BeginDup(from, to));
      CloseTarget(from, to);
      ok := MapData(from, to, dataMemory);
      if ok { ok := MapFd(from, to, fdMemory); }
      if !ok { Undo(to); }
    }
  }
}
