/** Page faults in user mode: the kernel pushes a frame on the exception stack and starts the
    upcall, whose last eleven instructions pop it. Faults may nest to any depth. */
module Upcall {
  import opened Mmu
  import opened Words

  const XTOP: U32 := 0xeec0_0000     // UXSTACKTOP
  const XBASE: U32 := XTOP - PGSIZE  // the exception stack is one page; the page below is unmapped

  datatype Regs = Regs(edi: U32, esi: U32, ebp: U32, ebx: U32, edx: U32, ecx: U32, eax: U32)

  datatype Cpu = Cpu(mem: Memory, regs: Regs, eip: U32, eflags: U32, esp: U32)

  // What comes with a fault: the address, the error code, and the useless saved esp.
  datatype Cause = Cause(va: U32, err: U32, oesp: U32)

  predicate OnException(esp: int) { XBASE <= esp < XTOP }

  // The interrupt flag and the I/O privilege level, which user code cannot change.
  function Privileged(eflags: U32): nat { eflags / 0x200 % 2 * 0x200 + eflags / 0x1000 % 4 * 0x1000 }

  // popfl with `popped` on top of the stack.
  function PopFlags(eflags: U32, popped: U32): U32 {
    if Privileged(eflags) == Privileged(popped) then popped
    else (popped - Privileged(popped) + Privileged(eflags)) % W
  }

  // ---- The push: page_fault_handler ----

  function FrameBase(esp: U32): int { if OnException(esp) then esp - 4 - 52 else XTOP - 52 }

  function FrameWords(s: Cpu, f: Cause): seq<U32> {
    [f.va, f.err, s.regs.edi, s.regs.esi, s.regs.ebp, f.oesp, s.regs.ebx, s.regs.edx, s.regs.ecx, s.regs.eax,
     s.eip, s.eflags, s.esp]
  }

  function Stores(mem: Memory, u: U32, ws: seq<U32>): Memory
    requires u + 4 * |ws| <= W
  {
    if ws == [] then mem
    else Store(Stores(mem, u, ws[..|ws| - 1]), u + 4 * (|ws| - 1), ws[|ws| - 1])
  }

  lemma {:induction false} StoresLoad(mem: Memory, u: U32, ws: seq<U32>, i: nat)
    requires u + 4 * |ws| <= W && i < |ws|
    ensures Load(Stores(mem, u, ws), u + 4 * i) == ws[i]
  {
    var n := |ws| - 1;
    var before := Stores(mem, u, ws[..n]);
    if i == n {
      LoadStored(before, u + 4 * n, ws[n]);
    } else {
      StoresLoad(mem, u, ws[..n], i);
      LoadApart(before, u + 4 * n, ws[n], u + 4 * i);
    }
  }

  lemma {:induction false} StoresElsewhere(mem: Memory, u: U32, ws: seq<U32>, x: U32)
    requires u + 4 * |ws| <= W && !(u <= x < u + 4 * |ws|)
    ensures Stores(mem, u, ws)(x) == mem(x)
  {
    if ws != [] {
      var n := |ws| - 1;
      StoresElsewhere(mem, u, ws[..n], x);
      assert !InWord(x, u + 4 * n);
    }
  }

  datatype Outcome = Started(s: Cpu) | Destroyed | Panicked

  function Pushed(s: Cpu, f: Cause, entry: U32): Cpu
    requires FrameBase(s.esp) >= XBASE
  {
    var u: U32 := FrameBase(s.esp);
    var mem := if OnException(s.esp) then Store(s.mem, s.esp - 4, 0) else s.mem;
    Cpu(Stores(mem, u, FrameWords(s, f)), s.regs, entry, s.eflags, u)
  }

  // Without an upcall, or if the frame does not fit in a writable exception stack, the
  // environment is destroyed; if not even the scratch word fits, the kernel itself faults.
  function PageFault(s: Cpu, f: Cause, entry: U32, writable: bool): Outcome {
    if entry == 0 then Destroyed
    else if OnException(s.esp) && (s.esp - 4 < XBASE || !writable) then Panicked
    else if FrameBase(s.esp) < XBASE || !writable then Destroyed
    else Started(Pushed(s, f, entry))
  }

  // ---- The pop: the end of _pgfault_upcall ----

  // Instruction i of the eleven; `flags` is what arithmetic leaves in eflags.
  function Instr(s: Cpu, i: nat, flags: U32): Cpu {
    var s := s.(eip := Add(s.eip, 1));
    match i
    case 0 => s.(regs := s.regs.(ecx := Load(s.mem, Add(s.esp, 0x30))))
    case 1 => s.(regs := s.regs.(ecx := Add(s.regs.ecx, -4)), eflags := PopFlags(s.eflags, flags))
    case 2 => s.(mem := Store(s.mem, Add(s.esp, 0x30), s.regs.ecx))
    case 3 => s.(regs := s.regs.(edx := Load(s.mem, Add(s.esp, 0x28))))
    case 4 => s.(mem := Store(s.mem, s.regs.ecx, s.regs.edx))
    case 5 => s.(esp := Add(s.esp, 8), eflags := PopFlags(s.eflags, flags))
    case 6 => s.(regs := PopAll(s.mem, s.esp), esp := Add(s.esp, 32))
    case 7 => s.(esp := Add(s.esp, 4), eflags := PopFlags(s.eflags, flags))
    case 8 => s.(eflags := PopFlags(s.eflags, Load(s.mem, s.esp)), esp := Add(s.esp, 4))
    case 9 => s.(esp := Load(s.mem, s.esp))
    case _ => s.(eip := Load(s.mem, s.esp), esp := Add(s.esp, 4))
  }

  function PopAll(mem: Memory, a: U32): Regs {
    Regs(Load(mem, a), Load(mem, Add(a, 4)), Load(mem, Add(a, 8)), Load(mem, Add(a, 16)),
         Load(mem, Add(a, 20)), Load(mem, Add(a, 24)), Load(mem, Add(a, 28)))
  }

  // ---- Runs with faults nested to any depth ----

  // Any user instructions take the machine to the next state of a Run; at a Fault the
  // kernel pushes a frame, the handler runs, and the frame is popped.
  datatype Script = Done | Run(next: Cpu, rest: Script) | Fault(cause: Cause, upcall: Handling, rest: Script)

  // The handler, up to the pop; then, before each instruction of the pop, the faults that
  // instruction takes (and the flags it leaves).
  datatype Handling = Handling(entry: U32, handler: Script, pauses: Pauses)

  datatype Pauses = Nil | More(faults: Script, flags: U32, rest: Pauses)

  ghost function Exec(s: Cpu, script: Script): Cpu
    decreases script
  {
    match script
    case Done => s
    case Run(next, rest) => Exec(next, rest)
    case Fault(f, up, rest) => if FrameBase(s.esp) < XBASE then s else Exec(Episode(s, f, up), rest)
  }

  ghost function Episode(s: Cpu, f: Cause, up: Handling): Cpu
    requires FrameBase(s.esp) >= XBASE
    decreases up
  {
    Pop(Exec(Pushed(s, f, up.entry), up.handler), 0, up.pauses)
  }

  ghost function Pop(s: Cpu, i: nat, pauses: Pauses): Cpu
    decreases pauses
  {
    match pauses
    case Nil => s
    case More(faults, flags, rest) => Pop(Instr(Exec(s, faults), i, flags), i + 1, rest)
  }

  // ---- What is asked of handlers ----

  // Unchanged: the exception stack from `floor` up, and the addresses `keep` says.
  ghost predicate SameOn(mem: Memory, mem': Memory, floor: U32, keep: U32 -> bool) {
    forall x: U32 {:trigger mem'(x)} :: floor <= x < XTOP || keep(x) ==> mem'(x) == mem(x)
  }

  // `keep` is memory outside the exception stack.
  ghost predicate Guarded(floor: U32, keep: U32 -> bool) {
    XBASE <= floor <= XTOP && forall x: U32 :: OnException(x) ==> !keep(x)
  }

  // A fault at esp has room for its frame below `floor`, and its scratch word is not in use.
  ghost predicate Fits(esp: U32, floor: U32, keep: U32 -> bool) {
    if OnException(esp) then XBASE <= esp - 56 && esp <= floor
    else floor == XTOP && !(XTOP <= esp < XTOP + 4) && forall x: U32 :: InWord(x, Add(esp, -4)) ==> !keep(x)
  }

  function Floor(esp: U32): U32 { if OnException(esp) then esp else XTOP }

  // What must survive faults before instruction i of a pop that goes back to esp.
  function KeepAt(i: nat, esp: U32, keep: U32 -> bool): U32 -> bool {
    if i >= 5 && !OnException(esp) then (x: U32) => keep(x) || InWord(x, Add(esp, -4)) else keep
  }

  predicate OnlyFaults(script: Script) {
    script.Done? || (script.Fault? && OnlyFaults(script.rest))
  }

  function Length(pauses: Pauses): nat { if pauses.Nil? then 0 else 1 + Length(pauses.rest) }

  // User code leaves the guarded memory alone, and so does each handler, which also keeps
  // its own frame and everything above it and returns with esp at its frame.
  ghost predicate Legal(s: Cpu, script: Script, floor: U32, keep: U32 -> bool)
    decreases script
  {
    match script
    case Done => true
    case Run(next, rest) =>
      SameOn(s.mem, next.mem, floor, keep) && Privileged(next.eflags) == Privileged(s.eflags) && Legal(next, rest, floor, keep)
    case Fault(f, up, rest) =>
      Fits(s.esp, floor, keep) && LegalEpisode(s, f, up, keep) && Legal(Episode(s, f, up), rest, floor, keep)
  }

  ghost predicate LegalEpisode(s: Cpu, f: Cause, up: Handling, keep: U32 -> bool)
    requires FrameBase(s.esp) >= XBASE
    decreases up
  {
    var p := Pushed(s, f, up.entry);
    var h := Exec(p, up.handler);
    && Legal(p, up.handler, p.esp, keep) && h.esp == p.esp
    && Length(up.pauses) == 11 && LegalPauses(h, 0, up.pauses, s.esp, keep)
  }

  ghost predicate LegalPauses(s: Cpu, i: nat, pauses: Pauses, esp: U32, keep: U32 -> bool)
    decreases pauses
  {
    match pauses
    case Nil => true
    case More(faults, flags, rest) =>
      && OnlyFaults(faults) && Legal(s, faults, Floor(s.esp), KeepAt(i, esp, keep))
      && LegalPauses(Instr(Exec(s, faults), i, flags), i + 1, rest, esp, keep)
  }

  // ---- The stages of a pop ----

  predicate SameCpu(s: Cpu, t: Cpu) {
    s.regs == t.regs && s.eip == t.eip && s.eflags == t.eflags && s.esp == t.esp
  }

  function EspAt(i: nat, u: U32, esp: U32): U32
    requires u + 52 <= W
  {
    if i <= 5 then u else if i == 6 then u + 8 else if i == 7 then u + 40 else if i == 8 then u + 44
    else if i == 9 then u + 48 else if i == 10 then Add(esp, -4) else esp
  }

  // Before instruction i of the pop of the frame pushed in state t, which led to state p.
  ghost predicate Stage(i: nat, s: Cpu, t: Cpu, p: Cpu)
    requires p.esp + 52 <= W
  {
    && s.esp == EspAt(i, p.esp, t.esp)
    && (i <= 9 ==> forall x: U32 {:trigger s.mem(x)} :: s.esp <= x < p.esp + 48 ==> s.mem(x) == p.mem(x))
    && (i <= 9 ==> Load(s.mem, p.esp + 48) == if i <= 2 then t.esp else Add(t.esp, -4))
    && (5 <= i <= 10 ==> Load(s.mem, Add(t.esp, -4)) == t.eip)
    && (i == 1 ==> s.regs.ecx == t.esp)
    && (2 <= i <= 4 ==> s.regs.ecx == Add(t.esp, -4))
    && (i == 4 ==> s.regs.edx == t.eip)
    && (i >= 7 ==> s.regs == t.regs)
    && (i >= 9 ==> s.eflags == t.eflags)
    && (i >= 11 ==> s.eip == t.eip)
  }

  // The frame lies on the exception stack, apart from the scratch word below esp.
  predicate Clear(esp: U32) { FrameBase(esp) >= XBASE && !(XTOP <= esp < XTOP + 4) }

  lemma ScratchApart(esp: U32, x: U32)
    requires Clear(esp)
    ensures FrameBase(esp) + 52 <= XTOP
    ensures FrameBase(esp) <= x < FrameBase(esp) + 52 ==> !InWord(x, Add(esp, -4))
    ensures !OnException(esp) && OnException(x) ==> !InWord(x, Add(esp, -4))
    ensures OnException(esp) && InWord(x, Add(esp, -4)) ==> FrameBase(esp) + 52 <= x < esp
  {}

  lemma PushedWord(t: Cpu, f: Cause, entry: U32, s: Cpu, k: nat)
    requires Clear(t.esp) && k < 12
    requires var p := Pushed(t, f, entry); forall x: U32 :: p.esp + 4 * k <= x < p.esp + 4 * k + 4 ==> s.mem(x) == p.mem(x)
    ensures Load(s.mem, FrameBase(t.esp) + 4 * k) == FrameWords(t, f)[k]
  {
    var p := Pushed(t, f, entry);
    ScratchApart(t.esp, 0);
    var mem := if OnException(t.esp) then Store(t.mem, t.esp - 4, 0) else t.mem;
    StoresLoad(mem, p.esp, FrameWords(t, f), k);
    LoadSame(s.mem, p.mem, p.esp + 4 * k);
  }

  // The two instructions that write memory.
  lemma InstrAdjusts(s: Cpu, t: Cpu, p: Cpu, flags: U32)
    requires Clear(t.esp) && p.esp == FrameBase(t.esp) && Stage(2, s, t, p)
    ensures Stage(3, Instr(s, 2, flags), t, p)
  {
    ScratchApart(t.esp, 0);
    LoadStored(s.mem, p.esp + 48, Add(t.esp, -4));
  }

  lemma InstrReturnAddress(s: Cpu, t: Cpu, p: Cpu, flags: U32)
    requires Clear(t.esp) && p.esp == FrameBase(t.esp) && Stage(4, s, t, p)
    ensures Stage(5, Instr(s, 4, flags), t, p)
  {
    var a := Add(t.esp, -4);
    forall x: U32 | p.esp <= x < p.esp + 52 ensures !InWord(x, a) { ScratchApart(t.esp, x); }
    LoadStored(s.mem, a, t.eip);
    LoadSame(Store(s.mem, a, t.eip), s.mem, p.esp + 48);
  }

  lemma PushedLow(t: Cpu, f: Cause, entry: U32, s: Cpu)
    requires Clear(t.esp) && Stage(6, s, t, Pushed(t, f, entry))
    ensures FrameBase(t.esp) + 52 <= XTOP
    ensures var u := FrameBase(t.esp);
      Load(s.mem, u + 8) == t.regs.edi && Load(s.mem, u + 12) == t.regs.esi && Load(s.mem, u + 16) == t.regs.ebp
  {
    ScratchApart(t.esp, 0);
    PushedWord(t, f, entry, s, 2);
    PushedWord(t, f, entry, s, 3);
    PushedWord(t, f, entry, s, 4);
  }

  lemma PushedHigh(t: Cpu, f: Cause, entry: U32, s: Cpu)
    requires Clear(t.esp) && Stage(6, s, t, Pushed(t, f, entry))
    ensures FrameBase(t.esp) + 52 <= XTOP
    ensures var u := FrameBase(t.esp);
      && Load(s.mem, u + 24) == t.regs.ebx && Load(s.mem, u + 28) == t.regs.edx
      && Load(s.mem, u + 32) == t.regs.ecx && Load(s.mem, u + 36) == t.regs.eax
  {
    ScratchApart(t.esp, 0);
    PushedWord(t, f, entry, s, 6);
    PushedWord(t, f, entry, s, 7);
    PushedWord(t, f, entry, s, 8);
    PushedWord(t, f, entry, s, 9);
  }

  lemma PopAllIs(mem: Memory, a: U32, regs: Regs)
    requires a + 32 <= XTOP
    requires Load(mem, a) == regs.edi && Load(mem, a + 4) == regs.esi && Load(mem, a + 8) == regs.ebp
    requires Load(mem, a + 16) == regs.ebx && Load(mem, a + 20) == regs.edx
    requires Load(mem, a + 24) == regs.ecx && Load(mem, a + 28) == regs.eax
    ensures PopAll(mem, a) == regs
  {}

  lemma PushedRegs(t: Cpu, f: Cause, entry: U32, s: Cpu)
    requires Clear(t.esp) && Stage(6, s, t, Pushed(t, f, entry))
    ensures PopAll(s.mem, s.esp) == t.regs
  {
    PushedLow(t, f, entry, s);
    PushedHigh(t, f, entry, s);
    PopAllIs(s.mem, s.esp, t.regs);
  }

  // popal
  lemma InstrRegs(s: Cpu, t: Cpu, f: Cause, entry: U32, flags: U32)
    requires Clear(t.esp) && Stage(6, s, t, Pushed(t, f, entry))
    ensures Stage(7, Instr(s, 6, flags), t, Pushed(t, f, entry))
  {
    ScratchApart(t.esp, 0);
    PushedRegs(t, f, entry, s);
  }

  // Each instruction takes the pop to its next stage.
  lemma InstrStage(i: nat, s: Cpu, t: Cpu, f: Cause, entry: U32, flags: U32)
    requires i <= 10 && Clear(t.esp) && Stage(i, s, t, Pushed(t, f, entry))
    requires i == 8 ==> PopFlags(s.eflags, t.eflags) == t.eflags
    ensures Stage(i + 1, Instr(s, i, flags), t, Pushed(t, f, entry))
  {
    var p := Pushed(t, f, entry);
    ScratchApart(t.esp, 0);
    if i == 2 {
      InstrAdjusts(s, t, p, flags);
    } else if i == 3 {
      PushedWord(t, f, entry, s, 10);
    } else if i == 4 {
      InstrReturnAddress(s, t, p, flags);
    } else if i == 6 {
      InstrRegs(s, t, f, entry, flags);
    } else if i == 8 {
      PushedWord(t, f, entry, s, 11);
    }
  }

  // Faults taken before an instruction leave the stage as it is.
  lemma PauseStage(i: nat, s: Cpu, s': Cpu, t: Cpu, p: Cpu, keep: U32 -> bool)
    requires i <= 10 && Clear(t.esp) && p.esp == FrameBase(t.esp) && Stage(i, s, t, p) && SameCpu(s, s')
    requires SameOn(s.mem, s'.mem, Floor(s.esp), KeepAt(i, t.esp, keep))
    ensures Stage(i, s', t, p)
  {
    ScratchApart(t.esp, 0);
    if i <= 9 { LoadSame(s'.mem, s.mem, p.esp + 48); }
    if 5 <= i { LoadSame(s'.mem, s.mem, Add(t.esp, -4)); }
  }

  // ---- Privileged flags ----

  lemma Bits(lo: nat, b: nat, c: nat, d: nat, hi: nat)
    requires lo < 0x200 && b < 2 && c < 4 && d < 4 && hi < 0x4_0000
    ensures var x := lo + 0x200 * b + 0x400 * c + 0x1000 * d + 0x4000 * hi;
      x < W && Privileged(x) == 0x200 * b + 0x1000 * d
  {
    var x := lo + 0x200 * b + 0x400 * c + 0x1000 * d + 0x4000 * hi;
    var q, r := c + 4 * d + 16 * hi, lo + 0x200 * b + 0x400 * c;
    Bit9(x, lo, b + 2 * q);
    Odd(b, q);
    Bit12(x, r, d + 4 * hi);
    Fourth(d, hi);
  }

  lemma Bit9(x: nat, lo: nat, q: nat)
    requires lo < 0x200 && x == lo + 0x200 * q
    ensures x / 0x200 == q
  {}

  lemma Bit12(x: nat, lo: nat, q: nat)
    requires lo < 0x1000 && x == lo + 0x1000 * q
    ensures x / 0x1000 == q
  {}

  lemma Odd(b: nat, q: nat)
    requires b < 2
    ensures (b + 2 * q) % 2 == b
  {}

  lemma Fourth(d: nat, q: nat)
    requires d < 4
    ensures (d + 4 * q) % 4 == d
  {}

  lemma Split(p: U32) returns (lo: nat, b: nat, c: nat, d: nat, hi: nat)
    ensures lo < 0x200 && b < 2 && c < 4 && d < 4 && hi < 0x4_0000
    ensures p == lo + 0x200 * b + 0x400 * c + 0x1000 * d + 0x4000 * hi
  {
    var q := p / 0x200;
    lo := p % 0x200;
    b := q % 2;
    c := q / 2 % 4;
    d := q / 2 / 4 % 4;
    hi := q / 2 / 4 / 4;
  }

  lemma PopFlagsKeeps(eflags: U32, popped: U32)
    ensures Privileged(PopFlags(eflags, popped)) == Privileged(eflags)
  {
    var lo, b, c, d, hi := Split(popped);
    var _, b', _, d', _ := PrivilegedBits(eflags);
    Bits(lo, b, c, d, hi);
    Bits(lo, b', c, d', hi);
    Spliced(popped, Privileged(popped), Privileged(eflags), lo + 0x200 * b' + 0x400 * c + 0x1000 * d' + 0x4000 * hi);
  }

  lemma PrivilegedBits(x: U32) returns (lo: nat, b: nat, c: nat, d: nat, hi: nat)
    ensures b < 2 && d < 4 && Privileged(x) == 0x200 * b + 0x1000 * d
  {
    lo, b, c, d, hi := Split(x);
    Bits(lo, b, c, d, hi);
  }

  lemma Spliced(popped: U32, old1: nat, new1: nat, x: U32)
    requires x == popped - old1 + new1
    ensures (popped - old1 + new1) % W == x
  {}

  lemma InstrKeepsPrivileged(s: Cpu, i: nat, flags: U32)
    ensures Privileged(Instr(s, i, flags).eflags) == Privileged(s.eflags)
  {
    PopFlagsKeeps(s.eflags, flags);
    PopFlagsKeeps(s.eflags, Load(s.mem, s.esp));
  }

  // ---- Faults are transparent ----

  // An instruction of the pop writes nothing but the frame and the scratch word.
  lemma InstrWrites(i: nat, s: Cpu, t: Cpu, p: Cpu, flags: U32, floor: U32, keep: U32 -> bool)
    requires i <= 10 && Clear(t.esp) && p.esp == FrameBase(t.esp) && Stage(i, s, t, p)
    requires Guarded(floor, keep) && Fits(t.esp, floor, keep)
    ensures SameOn(s.mem, Instr(s, i, flags).mem, floor, keep)
  {
    ScratchApart(t.esp, 0);
    forall x: U32 | floor <= x < XTOP || keep(x) ensures Instr(s, i, flags).mem(x) == s.mem(x) {
      ScratchApart(t.esp, x);
    }
  }

  lemma PushWrites(t: Cpu, f: Cause, entry: U32, floor: U32, keep: U32 -> bool)
    requires Guarded(floor, keep) && Fits(t.esp, floor, keep)
    ensures SameOn(t.mem, Pushed(t, f, entry).mem, floor, keep)
    ensures Stage(0, Pushed(t, f, entry), t, Pushed(t, f, entry))
  {
    var p := Pushed(t, f, entry);
    ScratchApart(t.esp, 0);
    var mem := if OnException(t.esp) then Store(t.mem, t.esp - 4, 0) else t.mem;
    forall x: U32 | floor <= x < XTOP || keep(x) ensures p.mem(x) == t.mem(x) {
      StoresElsewhere(mem, p.esp, FrameWords(t, f), x);
    }
    StoresLoad(mem, p.esp, FrameWords(t, f), 12);
  }

  lemma SameOnTrans(a: Memory, b: Memory, c: Memory, floor: U32, keep: U32 -> bool, floor': U32, keep': U32 -> bool)
    requires SameOn(a, b, floor, keep) && SameOn(b, c, floor', keep') && floor' <= floor && forall x: U32 :: keep(x) ==> keep'(x)
    ensures SameOn(a, c, floor, keep)
  {}

  // Whatever runs, the guarded memory stays; and faults alone change no register.
  lemma {:induction false} ScriptKeeps(s: Cpu, script: Script, floor: U32, keep: U32 -> bool)
    requires Guarded(floor, keep) && Legal(s, script, floor, keep)
    ensures var s' := Exec(s, script);
      && SameOn(s.mem, s'.mem, floor, keep) && Privileged(s'.eflags) == Privileged(s.eflags)
      && (OnlyFaults(script) ==> SameCpu(s, s'))
    decreases script, 0
  {
    match script
    case Done =>
    case Run(next, rest) =>
      ScriptKeeps(next, rest, floor, keep);
      SameOnTrans(s.mem, next.mem, Exec(next, rest).mem, floor, keep, floor, keep);
    case Fault(f, up, rest) =>
      EpisodeTransparent(s, f, up, floor, keep);
      var s1 := Episode(s, f, up);
      ScriptKeeps(s1, rest, floor, keep);
      SameOnTrans(s.mem, s1.mem, Exec(s1, rest).mem, floor, keep, floor, keep);
  }

  // A fault, its handler with all the faults that takes, and the pop with all the faults
  // that takes, restore the registers, eip, eflags and esp of the fault.
  lemma {:induction false} EpisodeTransparent(t: Cpu, f: Cause, up: Handling, floor: U32, keep: U32 -> bool)
    requires Guarded(floor, keep) && Fits(t.esp, floor, keep) && LegalEpisode(t, f, up, keep)
    ensures SameCpu(Episode(t, f, up), t) && SameOn(t.mem, Episode(t, f, up).mem, floor, keep)
    decreases up, 2
  {
    var p := Pushed(t, f, up.entry);
    var h := Exec(p, up.handler);
    ScratchApart(t.esp, 0);
    ScriptKeeps(p, up.handler, p.esp, keep);
    PopStarts(h, t, f, up.entry, floor, keep);
    PopTransparent(h, t, f, up, floor, keep);
  }

  // A handler that keeps its frame returns to the start of the pop.
  lemma PopStarts(h: Cpu, t: Cpu, f: Cause, entry: U32, floor: U32, keep: U32 -> bool)
    requires Guarded(floor, keep) && Fits(t.esp, floor, keep)
    requires var p := Pushed(t, f, entry);
      h.esp == p.esp && SameOn(p.mem, h.mem, p.esp, keep) && Privileged(h.eflags) == Privileged(p.eflags)
    ensures Going(0, h, t, f, entry, floor, keep)
  {
    var p := Pushed(t, f, entry);
    PushWrites(t, f, entry, floor, keep);
    ScratchApart(t.esp, 0);
    LoadSame(h.mem, p.mem, p.esp + 48);
    SameOnTrans(t.mem, p.mem, h.mem, floor, keep, p.esp, keep);
  }

  // The pop has come to instruction i and done no harm so far ...
  ghost predicate Going(i: nat, s: Cpu, t: Cpu, f: Cause, entry: U32, floor: U32, keep: U32 -> bool)
    requires FrameBase(t.esp) >= XBASE
  {
    Stage(i, s, t, Pushed(t, f, entry)) && SameOn(t.mem, s.mem, floor, keep) && Privileged(s.eflags) == Privileged(t.eflags)
  }

  // ... and in the end has restored everything.
  ghost predicate Restored(s: Cpu, t: Cpu, floor: U32, keep: U32 -> bool) {
    SameCpu(s, t) && SameOn(t.mem, s.mem, floor, keep)
  }

  // A property that every paused instruction inside `up` hands on, to the pauses left.
  ghost predicate HandsOn(up: Handling, inv: (nat, Cpu, Pauses) -> bool) {
    forall i: nat, s: Cpu, faults: Script, flags: U32, rest: Pauses {:trigger inv(i, s, More(faults, flags, rest))} ::
      More(faults, flags, rest) < up && inv(i, s, More(faults, flags, rest)) ==> inv(i + 1, Instr(Exec(s, faults), i, flags), rest)
  }

  lemma {:induction false} PopKeeps(i: nat, s: Cpu, pauses: Pauses, up: Handling, inv: (nat, Cpu, Pauses) -> bool)
    requires HandsOn(up, inv) && pauses < up && inv(i, s, pauses)
    ensures inv(i + Length(pauses), Pop(s, i, pauses), Nil)
    decreases pauses
  {
    match pauses
    case Nil =>
    case More(faults, flags, rest) =>
      PopKeeps(i + 1, Instr(Exec(s, faults), i, flags), rest, up, inv);
  }

  // The pop has come to instruction i, with just these pauses left, and all is well.
  ghost predicate Paused(i: nat, s: Cpu, pauses: Pauses, t: Cpu, f: Cause, entry: U32, floor: U32, keep: U32 -> bool)
    requires FrameBase(t.esp) >= XBASE
  {
    i + Length(pauses) == 11 && Going(i, s, t, f, entry, floor, keep) && LegalPauses(s, i, pauses, t.esp, keep)
  }

  lemma PopTransparent(s: Cpu, t: Cpu, f: Cause, up: Handling, floor: U32, keep: U32 -> bool)
    requires Guarded(floor, keep) && Fits(t.esp, floor, keep) && Paused(0, s, up.pauses, t, f, up.entry, floor, keep)
    ensures Restored(Pop(s, 0, up.pauses), t, floor, keep)
    decreases up, 1
  {
    PausesHandOn(t, f, up, floor, keep);
    PopKeeps(0, s, up.pauses, up, PausedIn(t, f, up.entry, floor, keep));
    GoneThrough(11, Pop(s, 0, up.pauses), t, f, up.entry, floor, keep);
  }

  ghost function PausedIn(t: Cpu, f: Cause, entry: U32, floor: U32, keep: U32 -> bool): (nat, Cpu, Pauses) -> bool
    requires FrameBase(t.esp) >= XBASE
  {
    (i: nat, s: Cpu, pauses: Pauses) => Paused(i, s, pauses, t, f, entry, floor, keep)
  }

  lemma PausesHandOn(t: Cpu, f: Cause, up: Handling, floor: U32, keep: U32 -> bool)
    requires Guarded(floor, keep) && Fits(t.esp, floor, keep)
    ensures HandsOn(up, PausedIn(t, f, up.entry, floor, keep))
    decreases up, 0
  {
    var inv := PausedIn(t, f, up.entry, floor, keep);
    forall i: nat, s: Cpu, faults: Script, flags: U32, rest: Pauses {:trigger inv(i, s, More(faults, flags, rest))} |
      More(faults, flags, rest) < up && inv(i, s, More(faults, flags, rest))
      ensures inv(i + 1, Instr(Exec(s, faults), i, flags), rest)
    {
      PauseKeeps(i, s, faults, flags, rest, t, f, up.entry, floor, keep);
    }
  }

  lemma PauseKeeps(i: nat, s: Cpu, faults: Script, flags: U32, rest: Pauses, t: Cpu, f: Cause, entry: U32, floor: U32, keep: U32 -> bool)
    requires Guarded(floor, keep) && Fits(t.esp, floor, keep) && Paused(i, s, More(faults, flags, rest), t, f, entry, floor, keep)
    ensures Paused(i + 1, Instr(Exec(s, faults), i, flags), rest, t, f, entry, floor, keep)
    decreases faults, 2
  {
    PauseLegal(i, s, faults, flags, rest, t.esp, keep);
    FaultsBefore(i, s, t, f, entry, faults, Exec(s, faults), floor, keep);
    OneInstr(i, Exec(s, faults), t, f, entry, flags, Instr(Exec(s, faults), i, flags), floor, keep);
  }

  lemma GoneThrough(i: nat, s: Cpu, t: Cpu, f: Cause, entry: U32, floor: U32, keep: U32 -> bool)
    requires FrameBase(t.esp) >= XBASE && Paused(i, s, Nil, t, f, entry, floor, keep)
    ensures Restored(s, t, floor, keep)
  {}

  lemma PauseLegal(i: nat, s: Cpu, faults: Script, flags: U32, rest: Pauses, esp: U32, keep: U32 -> bool)
    requires LegalPauses(s, i, More(faults, flags, rest), esp, keep)
    ensures OnlyFaults(faults) && Legal(s, faults, Floor(s.esp), KeepAt(i, esp, keep))
    ensures LegalPauses(Instr(Exec(s, faults), i, flags), i + 1, rest, esp, keep)
  {}

  lemma OneInstr(i: nat, s: Cpu, t: Cpu, f: Cause, entry: U32, flags: U32, s': Cpu, floor: U32, keep: U32 -> bool)
    requires i <= 10 && Guarded(floor, keep) && Fits(t.esp, floor, keep)
    requires Going(i, s, t, f, entry, floor, keep) && s' == Instr(s, i, flags)
    ensures Going(i + 1, s', t, f, entry, floor, keep)
  {
    InstrKeepsPrivileged(s, i, flags);
    PopsBack(s.eflags, t.eflags);
    ScratchApart(t.esp, 0);
    InstrStage(i, s, t, f, entry, flags);
    InstrWrites(i, s, t, Pushed(t, f, entry), flags, floor, keep);
    SameOnTrans(t.mem, s.mem, s'.mem, floor, keep, floor, keep);
  }

  lemma PopsBack(eflags: U32, popped: U32)
    requires Privileged(eflags) == Privileged(popped)
    ensures PopFlags(eflags, popped) == popped
  {}

  lemma {:induction false} FaultsBefore(i: nat, s: Cpu, t: Cpu, f: Cause, entry: U32, faults: Script, s1: Cpu, floor: U32, keep: U32 -> bool)
    requires i <= 10 && Guarded(floor, keep) && Fits(t.esp, floor, keep) && Going(i, s, t, f, entry, floor, keep)
    requires OnlyFaults(faults) && Legal(s, faults, Floor(s.esp), KeepAt(i, t.esp, keep)) && s1 == Exec(s, faults)
    ensures Going(i, s1, t, f, entry, floor, keep)
    decreases faults, 1
  {
    var keep' := KeepAt(i, t.esp, keep);
    ScratchApart(t.esp, 0);
    GuardedAt(i, s.esp, t.esp, floor, keep);
    ScriptKeeps(s, faults, Floor(s.esp), keep');
    PauseStage(i, s, s1, t, Pushed(t, f, entry), keep);
    SameOnTrans(t.mem, s.mem, s1.mem, floor, keep, Floor(s.esp), keep');
  }

  lemma GuardedAt(i: nat, at: U32, esp: U32, floor: U32, keep: U32 -> bool)
    requires i <= 10 && Guarded(floor, keep) && Fits(esp, floor, keep) && FrameBase(esp) >= XBASE
    requires at == EspAt(i, FrameBase(esp), esp)
    ensures Guarded(Floor(at), KeepAt(i, esp, keep)) && Floor(at) <= floor
  {
    forall x: U32 | OnException(x) ensures !KeepAt(i, esp, keep)(x) {
      ScratchApart(esp, x);
    }
  }

  // ---- Where it does not hold ----

  // Instructions that take no fault.
  function Plain(flags: seq<U32>): Pauses { if flags == [] then Nil else More(Done, flags[0], Plain(flags[1..])) }

  // With esp at the very top of the exception stack the fault counts as the first one, and
  // the return address overwrites the saved esp: the upcall returns with esp just above the
  // faulting instruction instead.
  lemma TopOfStackBreaks(t: Cpu, f: Cause, entry: U32, fl: U32)
    requires t.esp == XTOP
    ensures var p := Pushed(t, f, entry);
      Episode(t, f, Handling(entry, Done, Plain(seq(11, _ => fl)))).esp == Add(t.eip, 4)
  {
    var p := Pushed(t, f, entry);
    PlainSteps(p, 0, 11, fl);
    FirstFive(t, f, entry, fl);
    var s5 := Instr(Instr(Instr(Instr(Instr(p, 0, fl), 1, fl), 2, fl), 3, fl), 4, fl);
    assert Steps(p, 0, 11, fl) == Steps(Instr(Instr(p, 0, fl), 1, fl), 2, 9, fl);
    assert Steps(Instr(Instr(p, 0, fl), 1, fl), 2, 9, fl) == Steps(s5, 5, 6, fl);
    LastSix(s5, t.eip, fl);
  }

  lemma FirstFive(t: Cpu, f: Cause, entry: U32, fl: U32)
    requires t.esp == XTOP
    ensures var s5 := Instr(Instr(Instr(Instr(Instr(Pushed(t, f, entry), 0, fl), 1, fl), 2, fl), 3, fl), 4, fl);
      s5.esp == XTOP - 52 && Load(s5.mem, XTOP - 4) == t.eip
  {
    PushedFrame(t, f, entry);
    var s2 := Instr(Instr(Pushed(t, f, entry), 0, fl), 1, fl);
    assert s2.regs.ecx == XTOP - 4 && s2.esp == XTOP - 52;
    LoadApart(s2.mem, XTOP - 4, XTOP - 4, XTOP - 12);
    var s4 := Instr(Instr(s2, 2, fl), 3, fl);
    assert s4.regs.edx == t.eip && s4.regs.ecx == XTOP - 4;
    LoadStored(s4.mem, XTOP - 4, t.eip);
  }

  lemma LastSix(s: Cpu, v: U32, fl: U32)
    requires s.esp == XTOP - 52 && Load(s.mem, XTOP - 4) == v
    ensures Steps(s, 5, 6, fl).esp == Add(v, 4)
  {
    var s9 := Instr(Instr(Instr(Instr(s, 5, fl), 6, fl), 7, fl), 8, fl);
    assert s9.esp == XTOP - 4 && s9.mem == s.mem;
    assert Steps(s, 5, 6, fl) == Steps(Instr(Instr(s, 5, fl), 6, fl), 7, 4, fl);
    assert Steps(Instr(Instr(s, 5, fl), 6, fl), 7, 4, fl) == Steps(s9, 9, 2, fl);
    assert Steps(s9, 9, 2, fl) == Instr(Instr(s9, 9, fl), 10, fl);
  }

  lemma PushedFrame(t: Cpu, f: Cause, entry: U32)
    requires t.esp == XTOP
    ensures var p := Pushed(t, f, entry);
      p.esp == XTOP - 52 && Load(p.mem, p.esp + 40) == t.eip && Load(p.mem, p.esp + 48) == t.esp
  {
    StoresLoad(t.mem, XTOP - 52, FrameWords(t, f), 10);
    StoresLoad(t.mem, XTOP - 52, FrameWords(t, f), 12);
  }

  // From instruction i on, n more.
  ghost function Steps(s: Cpu, i: nat, n: nat, fl: U32): Cpu
    decreases n
  {
    if n == 0 then s else Steps(Instr(s, i, fl), i + 1, n - 1, fl)
  }

  lemma {:induction false} PlainSteps(s: Cpu, i: nat, n: nat, fl: U32)
    ensures Pop(s, i, Plain(seq(n, _ => fl))) == Steps(s, i, n, fl)
    decreases n
  {
    if n > 0 {
      assert seq(n, _ => fl)[1..] == seq(n - 1, _ => fl);
      PlainSteps(Instr(s, i, fl), i + 1, n - 1, fl);
    }
  }

  // A fault that fits is legal whatever it is: with a handler that does nothing, too.
  lemma {:induction false} PlainIsLegal(s: Cpu, i: nat, n: nat, fl: U32, esp: U32, keep: U32 -> bool)
    requires i + n == 11
    ensures LegalPauses(s, i, Plain(seq(n, _ => fl)), esp, keep) && Length(Plain(seq(n, _ => fl))) == n
    decreases n
  {
    if n > 0 {
      assert seq(n, _ => fl)[1..] == seq(n - 1, _ => fl);
      PlainIsLegal(Instr(s, i, fl), i + 1, n - 1, fl, esp, keep);
    }
  }

  lemma PlainEpisodes(t: Cpu, f: Cause, entry: U32, fl: U32, floor: U32, keep: U32 -> bool)
    requires Guarded(floor, keep) && Fits(t.esp, floor, keep)
    ensures var up := Handling(entry, Done, Plain(seq(11, _ => fl)));
      LegalEpisode(t, f, up, keep) && SameCpu(Episode(t, f, up), t)
  {
    var p := Pushed(t, f, entry);
    PlainIsLegal(p, 0, 11, fl, t.esp, keep);
    EpisodeTransparent(t, f, Handling(entry, Done, Plain(seq(11, _ => fl))), floor, keep);
  }

  // ---- The two ends as code ----

  // Of the words ws at u, those with an index in `done` have been stored over mem0.
  predicate Written(mem: Memory, mem0: Memory, u: U32, ws: seq<U32>, done: set<nat>) {
    forall x: U32 :: mem(x) ==
      if u <= x < u + 4 * |ws| && (x - u) / 4 in done then ByteOf(ws[(x - u) / 4], (x - u) % 4) else mem0(x)
  }

  lemma WriteOne(mem: Memory, mem0: Memory, u: U32, ws: seq<U32>, done: set<nat>, k: nat)
    requires u + 4 * |ws| <= W && k < |ws| && Written(mem, mem0, u, ws, done)
    ensures Written(Store(mem, u + 4 * k, ws[k]), mem0, u, ws, done + {k})
  {
    var m := Store(mem, u + 4 * k, ws[k]);
    forall x: U32 | true
      ensures m(x) == if u <= x < u + 4 * |ws| && (x - u) / 4 in done + {k} then ByteOf(ws[(x - u) / 4], (x - u) % 4) else mem0(x)
    {
      assert InWord(x, u + 4 * k) <==> u + 4 * k <= x < u + 4 * k + 4;
      if InWord(x, u + 4 * k) {
        assert (x - u) / 4 == k && Past(x, u + 4 * k) == (x - u) % 4;
      } else if u <= x {
        assert (x - u) / 4 != k;
      }
    }
  }

  function Upto(n: nat): (r: set<nat>)
    ensures forall k: nat :: k in r <==> k < n
  {
    if n == 0 then {} else Upto(n - 1) + {n - 1}
  }

  lemma AllDone()
    ensures {} + {0} + {12} + {11} + {10} + (Upto(10) - Upto(2)) + {1} == Upto(13)
  {}

  lemma {:induction false} StoresWritten(mem0: Memory, u: U32, ws: seq<U32>)
    requires u + 4 * |ws| <= W
    ensures Written(Stores(mem0, u, ws), mem0, u, ws, Upto(|ws|))
  {
    if ws != [] {
      var n := |ws| - 1;
      StoresWritten(mem0, u, ws[..n]);
      var before := Stores(mem0, u, ws[..n]);
      assert Written(before, mem0, u, ws, Upto(n));
      WriteOne(before, mem0, u, ws, Upto(n), n);
      assert (Upto(n)) + {n} == Upto(|ws|);
    }
  }

  datatype Fate = Running | Killed | KernelFault

  class Processor {
    var mem: Memory
    var regs: Regs
    var eip: U32
    var eflags: U32
    var esp: U32

    ghost function State(): Cpu
      reads this
    {
      Cpu(mem, regs, eip, eflags, esp)
    }

    method StoreWord(u: U32, k: nat, v: U32, ghost mem0: Memory, ghost ws: seq<U32>, ghost done: set<nat>)
      requires u + 4 * |ws| <= W && k < |ws| && ws[k] == v && Written(mem, mem0, u, ws, done)
      modifies this`mem
      ensures Written(mem, mem0, u, ws, done + {k})
    {
      WriteOne(mem, mem0, u, ws, done, k);
      mem := Store(mem, u + 4 * k, v);
    }

    // u->utf_regs = tf->tf_regs
    method FillRegs(u: U32, f: Cause, ghost mem0: Memory, ghost ws: seq<U32>, ghost done: set<nat>)
      requires u + 52 <= W && ws == FrameWords(State(), f) && Written(mem, mem0, u, ws, done)
      modifies this`mem
      ensures Written(mem, mem0, u, ws, done + (Upto(10) - Upto(2)))
    {
      var saved := [regs.edi, regs.esi, regs.ebp, f.oesp, regs.ebx, regs.edx, regs.ecx, regs.eax];
      assert done + (Upto(2) - Upto(2)) == done;
      for i := 0 to 8
        invariant Written(mem, mem0, u, ws, done + (Upto(i + 2) - Upto(2)))
      {
        StoreWord(u, i + 2, saved[i], mem0, ws, done + (Upto(i + 2) - Upto(2)));
        assert done + (Upto(i + 2) - Upto(2)) + {i + 2} == done + (Upto(i + 3) - Upto(2));
      }
    }

    // The assignments to *u, in the kernel's order.
    method FillFrame(u: U32, f: Cause)
      requires u + 52 <= W
      modifies this`mem
      ensures Written(mem, old(mem), u, FrameWords(old(State()), f), Upto(13))
    {
      ghost var ws, mem0 := FrameWords(State(), f), mem;
      StoreWord(u, 0, f.va, mem0, ws, {});
      StoreWord(u, 12, esp, mem0, ws, {} + {0});
      StoreWord(u, 11, eflags, mem0, ws, {} + {0} + {12});
      StoreWord(u, 10, eip, mem0, ws, {} + {0} + {12} + {11});
      ghost var done := {} + {0} + {12} + {11} + {10};
      FillRegs(u, f, mem0, ws, done);
      StoreWord(u, 1, f.err, mem0, ws, done + (Upto(10) - Upto(2)));
      AllDone();
    }

    // page_fault_handler for a fault in user mode.
    method Handle(f: Cause, entry: U32, writable: bool) returns (fate: Fate)
      modifies this
      ensures fate == match PageFault(old(State()), f, entry, writable) case Started(_) => Running case Destroyed => Killed case Panicked => KernelFault
      ensures fate.Running? ==>
        var p := PageFault(old(State()), f, entry, writable).s;
        SameCpu(State(), p) && forall x: U32 :: mem(x) == p.mem(x)
    {
      if entry == 0 { return Killed; }
      var u: int;
      if XBASE <= esp < XTOP {
        if esp - 4 < XBASE || !writable { return KernelFault; }
        mem := Store(mem, esp - 4, 0);
        u := esp - 4 - 52;
      } else {
        u := XTOP - 52;
      }
      if u < XBASE || !writable { return Killed; }
      StoresWritten(mem, u, FrameWords(State(), f));
      FillFrame(u, f);
      eip := entry;
      esp := u;
      return Running;
    }

    // movl 0x30(%esp), %ecx; subl $4, %ecx; movl %ecx, 0x30(%esp); movl 0x28(%esp), %edx;
    // movl %edx, (%ecx)
    method PushReturnAddress(fl: U32)
      modifies this
      ensures State() == Instr(Instr(Instr(Instr(Instr(old(State()), 0, fl), 1, fl), 2, fl), 3, fl), 4, fl)
    {
      eip := Add(eip, 1);
      regs := regs.(ecx := Load(mem, Add(esp, 0x30)));
      eip := Add(eip, 1);
      regs, eflags := regs.(ecx := Add(regs.ecx, -4)), PopFlags(eflags, fl);
      eip := Add(eip, 1);
      mem := Store(mem, Add(esp, 0x30), regs.ecx);
      eip := Add(eip, 1);
      regs := regs.(edx := Load(mem, Add(esp, 0x28)));
      eip := Add(eip, 1);
      mem := Store(mem, regs.ecx, regs.edx);
    }

    // addl $8, %esp; popal
    method PopRegisters(fl: U32)
      modifies this
      ensures State() == Instr(Instr(old(State()), 5, fl), 6, fl)
    {
      eip := Add(eip, 1);
      esp, eflags := Add(esp, 8), PopFlags(eflags, fl);
      eip := Add(eip, 1);
      regs, esp := PopAll(mem, esp), Add(esp, 32);
    }

    // addl $4, %esp; popfl
    method PopEflags(fl: U32)
      modifies this
      ensures State() == Instr(Instr(old(State()), 7, fl), 8, fl)
    {
      eip := Add(eip, 1);
      esp, eflags := Add(esp, 4), PopFlags(eflags, fl);
      eip := Add(eip, 1);
      eflags, esp := PopFlags(eflags, Load(mem, esp)), Add(esp, 4);
    }

    // pop %esp; ret
    method SwitchStack(fl: U32)
      modifies this
      ensures State() == Instr(Instr(old(State()), 9, fl), 10, fl)
    {
      eip := Add(eip, 1);
      esp := Load(mem, esp);
      eip := Add(eip, 1);
      eip, esp := Load(mem, esp), Add(esp, 4);
    }

    // _pgfault_upcall once the handler has returned; `fl` is what arithmetic does to eflags.
    method Return(fl: U32)
      modifies this
      ensures State() == Steps(old(State()), 0, 11, fl)
    {
      ghost var s := State();
      PushReturnAddress(fl);
      ghost var s5 := State();
      assert Steps(s, 0, 11, fl) == Steps(Instr(Instr(s, 0, fl), 1, fl), 2, 9, fl);
      assert Steps(Instr(Instr(s, 0, fl), 1, fl), 2, 9, fl) == Steps(s5, 5, 6, fl);
      PopRegisters(fl);
      ghost var s7 := State();
      assert Steps(s5, 5, 6, fl) == Steps(s7, 7, 4, fl);
      PopEflags(fl);
      ghost var s9 := State();
      assert Steps(s7, 7, 4, fl) == Steps(s9, 9, 2, fl);
      SwitchStack(fl);
      assert Steps(s9, 9, 2, fl) == State();
    }
  }
}
