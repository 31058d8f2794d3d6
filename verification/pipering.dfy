/** The pipe's 32-byte ring, shared by one reader and one writer whose checks, copies and
    position increments interleave in any way. */
module PipeRing {
  const PIPEBUFSIZ: nat := 32
  const TWO31: nat := 0x8000_0000

  type Byte = x: nat | x < 256

  // The value of a 32-bit position after an increment.
  function Inc32(pos: int): int { if pos == TWO31 - 1 then 0 - TWO31 else pos + 1 }

  // C's remainder, which takes the sign of its left operand.
  function CMod(a: int, b: nat): int
    requires b > 0
  {
    if a >= 0 then a % b else -((-a) % b)
  }

  // C compares p_wpos with p_rpos + sizeof as unsigned numbers.
  function Unsigned(a: int): int { a % 0x1_0000_0000 }

  predicate Full(rpos: int, wpos: int) { Unsigned(wpos) >= Unsigned(Unsigned(rpos) + PIPEBUFSIZ) }

  datatype Pc = Check | Copy | Increment

  // `sent` and `got` are the bytes whose write, or read, has been completed.
  datatype Pipe = Pipe(
    rpos: int, wpos: int, buf: seq<Byte>,
    reader: Pc, taken: Byte, got: seq<Byte>,
    writer: Pc, stored: Byte, sent: seq<Byte>)

  datatype Step = ReadStep | WriteStep(b: Byte)

  predicate Enabled(s: Pipe, a: Step) {
    && |s.buf| == PIPEBUFSIZ
    && (a.ReadStep? && s.reader == Copy ==> 0 <= CMod(s.rpos, PIPEBUFSIZ))
    && (a.WriteStep? && s.writer == Copy ==> 0 <= CMod(s.wpos, PIPEBUFSIZ))
  }

  function Next(s: Pipe, a: Step): Pipe
    requires Enabled(s, a)
  {
    match a
    case ReadStep => (
      match s.reader
      case Check => if s.rpos == s.wpos then s else s.(reader := Copy)
      case Copy => s.(taken := s.buf[CMod(s.rpos, PIPEBUFSIZ)], reader := Increment)
      case Increment => s.(rpos := Inc32(s.rpos), got := s.got + [s.taken], reader := Check)
    )
    case WriteStep(b) => (
      match s.writer
      case Check => if Full(s.rpos, s.wpos) then s else s.(writer := Copy)
      case Copy => s.(buf := s.buf[CMod(s.wpos, PIPEBUFSIZ) := b], stored := b, writer := Increment)
      case Increment => s.(wpos := Inc32(s.wpos), sent := s.sent + [s.stored], writer := Check)
    )
  }

  // Fewer than 2^31 bytes have been written.
  predicate InRange(s: Pipe) { |s.sent| < TWO31 }

  ghost predicate Inv(s: Pipe) {
    && |s.buf| == PIPEBUFSIZ
    && s.rpos == |s.got| && s.wpos == |s.sent| && 0 <= s.wpos - s.rpos <= PIPEBUFSIZ
    && s.got == s.sent[..s.rpos]
    && (forall j: nat {:trigger s.sent[j]} :: s.rpos <= j < s.wpos ==> s.buf[j % PIPEBUFSIZ] == s.sent[j])
    && (s.reader != Check ==> s.rpos < s.wpos)
    && (s.reader == Increment ==> s.taken == s.sent[s.rpos])
    && (s.writer != Check ==> s.wpos < s.rpos + PIPEBUFSIZ)
    && (s.writer == Increment ==> s.buf[s.wpos % PIPEBUFSIZ] == s.stored)
  }

  lemma SlotsApart(j: nat, k: nat)
    requires j < k < j + PIPEBUFSIZ
    ensures j % PIPEBUFSIZ != k % PIPEBUFSIZ
  {}

  // Each step keeps it, while the positions stay below 2^31.
  lemma StepKeeps(s: Pipe, a: Step)
    requires Inv(s) && InRange(s)
    ensures Enabled(s, a)
    ensures InRange(Next(s, a)) ==> Inv(Next(s, a))
    ensures s.got <= Next(s, a).got && s.sent <= Next(s, a).sent
  {
    var s' := Next(s, a);
    if InRange(s') {
      forall j: nat {:trigger s'.sent[j]} | s'.rpos <= j < s'.wpos ensures s'.buf[j % PIPEBUFSIZ] == s'.sent[j] {
        if a.WriteStep? && s.writer == Copy { SlotsApart(j, s.wpos); }
        if j < |s.sent| { assert s'.sent[j] == s.sent[j]; }
      }
      assert s.reader == Copy ==> s.buf[s.rpos % PIPEBUFSIZ] == s.sent[s.rpos];
      if a.WriteStep? && s.writer == Copy && s.reader == Increment { SlotsApart(s.rpos, s.wpos); }
    }
  }

  // ---- Whole runs ----

  predicate Fresh(s: Pipe) {
    |s.buf| == PIPEBUFSIZ && s.rpos == s.wpos == 0 && s.reader == s.writer == Check && s.got == s.sent == []
  }

  ghost predicate Runs(s: Pipe, steps: seq<Step>)
    decreases |steps|
  {
    steps == [] || (Enabled(s, steps[0]) && Runs(Next(s, steps[0]), steps[1..]))
  }

  ghost function After(s: Pipe, steps: seq<Step>): Pipe
    requires Runs(s, steps)
    decreases |steps|
  {
    if steps == [] then s else After(Next(s, steps[0]), steps[1..])
  }

  lemma OneStep(s: Pipe, a: Step)
    requires Enabled(s, a)
    ensures Runs(s, [a]) && After(s, [a]) == Next(s, a)
  {
    assert [a][1..] == [];
  }

  // No run stops for want of a valid buffer index before 2^31 bytes have been written, and
  // until then the invariant holds.
  lemma {:induction false} RunKeeps(s: Pipe, steps: seq<Step>)
    requires Inv(s) && InRange(s)
    ensures Runs(s, steps) ==> |s.sent| <= |After(s, steps).sent|
    ensures Runs(s, steps) && InRange(After(s, steps)) ==> Inv(After(s, steps))
    ensures !Runs(s, steps) ==> exists k: nat :: k < |steps| && Runs(s, steps[..k]) && !InRange(After(s, steps[..k]))
    decreases |steps|
  {
    if steps != [] {
      var s1 := Next(s, steps[0]);
      StepKeeps(s, steps[0]);
      if InRange(s1) {
        RunKeeps(s1, steps[1..]);
        if !Runs(s, steps) {
          var k: nat :| k < |steps[1..]| && Runs(s1, steps[1..][..k]) && !InRange(After(s1, steps[1..][..k]));
          assert steps[..k + 1][1..] == steps[1..][..k] && steps[..k + 1][0] == steps[0];
          assert Runs(s, steps[..k + 1]);
        }
      } else {
        SentGrows(s1, steps[1..]);
        if !Runs(s, steps) {
          OneStep(s, steps[0]);
          assert steps[..1] == [steps[0]];
        }
      }
    }
  }

  lemma {:induction false} SentGrows(s: Pipe, steps: seq<Step>)
    ensures Runs(s, steps) ==> |s.sent| <= |After(s, steps).sent|
    decreases |steps|
  {
    if Runs(s, steps) && steps != [] {
      SentGrows(Next(s, steps[0]), steps[1..]);
    }
  }

  // First in, first out: what has been read is a prefix of what has been written, at most
  // 32 bytes behind.
  lemma Fifo(s: Pipe, steps: seq<Step>)
    requires Fresh(s) && Runs(s, steps) && InRange(After(s, steps))
    ensures var s' := After(s, steps);
      s'.got <= s'.sent && |s'.sent| - |s'.got| <= PIPEBUFSIZ && s'.rpos == |s'.got| && s'.wpos == |s'.sent|
  {
    RunKeeps(s, steps);
  }

  // The reader's check lets it on exactly when there is an unread byte, the writer's exactly
  // when there is room.
  lemma ChecksAreExact(s: Pipe, b: Byte)
    requires Inv(s) && InRange(s)
    ensures s.reader == Check ==> (Next(s, ReadStep).reader == Copy <==> |s.got| < |s.sent|)
    ensures s.writer == Check ==> (Next(s, WriteStep(b)).writer == Copy <==> |s.sent| < |s.got| + PIPEBUFSIZ)
  {}

  // ---- Past 2^31 bytes ----

  // The value of a position after k increments, for k up to 2^32 - 1.
  function Pos(k: nat): int { if k < TWO31 then k else k - 0x1_0000_0000 }

  // A byte is written and then read.
  const ROUND: seq<Step> := [WriteStep(0), WriteStep(0), WriteStep(0), ReadStep, ReadStep, ReadStep]

  predicate Level(s: Pipe, k: nat) {
    |s.buf| == PIPEBUFSIZ && s.rpos == s.wpos == Pos(k) && s.reader == s.writer == Check
  }

  lemma OneRound(s: Pipe, k: nat)
    requires Level(s, k) && k <= TWO31
    ensures Runs(s, ROUND) && Level(After(s, ROUND), k + 1)
  {
    var s3 := Next(Next(Next(s, WriteStep(0)), WriteStep(0)), WriteStep(0));
    assert s3.wpos == Pos(k + 1) && s3.rpos == Pos(k) && s3.writer == Check;
    var s6 := Next(Next(Next(s3, ReadStep), ReadStep), ReadStep);
    Steps(s, WriteStep(0), WriteStep(0), WriteStep(0));
    Steps(s3, ReadStep, ReadStep, ReadStep);
    RunsJoin(s, [WriteStep(0), WriteStep(0), WriteStep(0)], [ReadStep, ReadStep, ReadStep]);
    assert ROUND == [WriteStep(0), WriteStep(0), WriteStep(0)] + [ReadStep, ReadStep, ReadStep];
  }

  lemma Steps(s: Pipe, a: Step, b: Step, c: Step)
    requires Enabled(s, a) && Enabled(Next(s, a), b) && Enabled(Next(Next(s, a), b), c)
    ensures Runs(s, [a, b, c]) && After(s, [a, b, c]) == Next(Next(Next(s, a), b), c)
  {
    assert [a, b, c][1..] == [b, c] && [b, c][1..] == [c] && [c][1..] == [];
    OneStep(Next(Next(s, a), b), c);
    assert Runs(Next(s, a), [b, c]) && After(Next(s, a), [b, c]) == Next(Next(Next(s, a), b), c);
  }

  lemma {:induction false} RunsJoin(s: Pipe, xs: seq<Step>, ys: seq<Step>)
    requires Runs(s, xs) && Runs(After(s, xs), ys)
    ensures Runs(s, xs + ys) && After(s, xs + ys) == After(After(s, xs), ys)
    decreases |xs|
  {
    if xs == [] {
      assert xs + ys == ys;
    } else {
      assert (xs + ys)[1..] == xs[1..] + ys;
      RunsJoin(Next(s, xs[0]), xs[1..], ys);
    }
  }

  lemma {:induction false} Rounds(s: Pipe, k: nat) returns (steps: seq<Step>)
    requires Level(s, 0) && k <= TWO31 + 1
    ensures Runs(s, steps) && Level(After(s, steps), k)
    decreases k
  {
    steps := [];
    if k > 0 {
      steps := Rounds(s, k - 1);
      OneRound(After(s, steps), k - 1);
      RunsJoin(s, steps, ROUND);
      steps := steps + ROUND;
    }
  }

  // The bound is needed: one byte at a time, 2^31 + 1 bytes bring both positions to
  // -2^31 + 1, and the writer to a negative index into the buffer.
  lemma WrapsToBadIndex(s: Pipe) returns (steps: seq<Step>)
    requires Fresh(s)
    ensures Runs(s, steps) && After(s, steps).wpos == 1 - TWO31
    ensures After(s, steps).writer == Copy && !Enabled(After(s, steps), WriteStep(0))
  {
    steps := Rounds(s, TWO31 + 1);
    var s' := After(s, steps);
    OneStep(s', WriteStep(0));
    RunsJoin(s, steps, [WriteStep(0)]);
    steps := steps + [WriteStep(0)];
  }
}
