/** Whole calls of devpipe_read and devpipe_write on one ring, access by access, with both ends
    free to act, and to close, between any two accesses of the other. Fewer than 2^31 bytes
    are written in all. */
module PipeCalls {
  import opened PipeRing

  // Where the reader's end is: in no call, in a call that has read i of n bytes, in one that
  // has found the ring empty and is about to ask whether the writers are gone, or done.
  datatype ReadCall = NoRead | Reading(n: nat, i: nat) | SawEmpty(n: nat) | ReadDone(n: nat, result: nat)

  // The same for the writer's; `wrote` is how many bytes it had written when it gave up.
  datatype WriteCall =
    | NoWrite | Writing(data: seq<Byte>, i: nat) | SawFull(data: seq<Byte>, i: nat)
    | WriteDone(data: seq<Byte>, wrote: nat, result: nat)

  // How many bytes had been written (or read) when the last test found the ring empty (or
  // full), and whether the other end was already closed then.
  datatype Test = Test(at: nat, gone: bool)

  datatype System = System(
    p: Pipe, reading: ReadCall, writing: WriteCall, readerOpen: bool, writerOpen: bool,
    readFrom: nat, writeFrom: nat,   // bytes read, or written, before the call in progress
    empty: Test, full: Test)

  // An answer of _pipeisclosed may be no although the other end is closed, but not yes
  // although it is open.
  datatype Event =
    | StartRead(n: nat) | ReadTurn | AnswerReader(closed: bool) | CloseReader
    | StartWrite(data: seq<Byte>) | WriteTurn | AnswerWriter(closed: bool) | CloseWriter

  predicate InRead(r: ReadCall) { r.Reading? || r.SawEmpty? }

  predicate InWrite(w: WriteCall) { w.Writing? || w.SawFull? }

  predicate Possible(s: System, e: Event) {
    match e
    case StartRead(_) => s.readerOpen && !InRead(s.reading)
    case ReadTurn => s.reading.Reading? && Enabled(s.p, ReadStep)
    case AnswerReader(closed) => s.reading.SawEmpty? && (closed ==> !s.writerOpen)
    case CloseReader => s.readerOpen && !InRead(s.reading)
    case StartWrite(data) => s.writerOpen && !InWrite(s.writing) && |s.p.sent| + |data| < TWO31
    case WriteTurn => s.writing.Writing? && s.writing.i <= |s.writing.data| &&
      (s.writing.i < |s.writing.data| ==> Enabled(s.p, WriteStep(s.writing.data[s.writing.i])))
    case AnswerWriter(closed) => s.writing.SawFull? && (closed ==> !s.readerOpen)
    case CloseWriter => s.writerOpen && !InWrite(s.writing)
  }

  // The reader's next access.
  function ReadNext(s: System): System
    requires Possible(s, ReadTurn)
  {
    var n, i := s.reading.n, s.reading.i;
    if s.p.reader == Check && i == n then s.(reading := ReadDone(n, n))
    else if s.p.reader == Check && s.p.rpos == s.p.wpos then
      if i > 0 then s.(reading := ReadDone(n, i))
      else s.(reading := SawEmpty(n), empty := Test(|s.p.sent|, !s.writerOpen))
    else s.(p := PipeRing.Next(s.p, ReadStep), reading := Reading(n, if s.p.reader == Increment then i + 1 else i))
  }

  function WriteNext(s: System): System
    requires Possible(s, WriteTurn)
  {
    var data, i := s.writing.data, s.writing.i;
    if i == |data| then s.(writing := WriteDone(data, i, i))
    else if s.p.writer == Check && Full(s.p.rpos, s.p.wpos) then
      s.(writing := SawFull(data, i), full := Test(|s.p.got|, !s.readerOpen))
    else s.(p := PipeRing.Next(s.p, WriteStep(data[i])), writing := Writing(data, if s.p.writer == Increment then i + 1 else i))
  }

  function Happen(s: System, e: Event): System
    requires Possible(s, e)
  {
    match e
    case StartRead(n) => s.(reading := Reading(n, 0), readFrom := |s.p.got|)
    case ReadTurn => ReadNext(s)
    case AnswerReader(closed) => s.(reading := if closed then ReadDone(s.reading.n, 0) else Reading(s.reading.n, 0))
    case CloseReader => s.(readerOpen := false, reading := NoRead)
    case StartWrite(data) => s.(writing := Writing(data, 0), writeFrom := |s.p.sent|)
    case WriteTurn => WriteNext(s)
    case AnswerWriter(closed) =>
      s.(writing := if closed then WriteDone(s.writing.data, s.writing.i, 0) else Writing(s.writing.data, s.writing.i))
    case CloseWriter => s.(writerOpen := false, writing := NoWrite)
  }

  // ---- What every access keeps ----

  // devpipe_read answered 0 to a request for bytes: the end of the file, it seems.
  predicate SaidEnd(r: ReadCall) { r.ReadDone? && r.n > 0 && r.result == 0 }

  predicate SaidBroken(w: WriteCall) { w.WriteDone? && w.result != |w.data| }

  ghost predicate ReadOk(s: System) {
    && (!s.reading.Reading? ==> s.p.reader == Check)
    && (InRead(s.reading) ==> s.readerOpen)
    && (s.reading.Reading? ==> s.reading.i <= s.reading.n && |s.p.got| == s.readFrom + s.reading.i)
    && (s.reading.Reading? && s.p.reader != Check ==> s.reading.i < s.reading.n)
    && (s.reading.SawEmpty? ==> s.reading.n > 0 && |s.p.got| == s.readFrom)
    && (s.reading.ReadDone? ==> s.reading.result <= s.reading.n && |s.p.got| == s.readFrom + s.reading.result)
    && (s.reading.SawEmpty? || SaidEnd(s.reading) ==> |s.p.got| == s.empty.at)
    && (s.empty.gone ==> !s.writerOpen && (s.reading.SawEmpty? || SaidEnd(s.reading) ==> |s.p.sent| == s.empty.at))
    && (SaidEnd(s.reading) ==> !s.writerOpen)
  }

  ghost predicate WriteOk(s: System) {
    && (!s.writing.Writing? ==> s.p.writer == Check)
    && (InWrite(s.writing) ==> s.writerOpen)
    && (InWrite(s.writing) ==>
          && s.writing.i <= |s.writing.data| && s.writeFrom + |s.writing.data| < TWO31
          && |s.p.sent| == s.writeFrom + s.writing.i && s.p.sent[s.writeFrom..] == s.writing.data[..s.writing.i])
    && (s.writing.Writing? && s.p.writer != Check ==> s.writing.i < |s.writing.data|)
    && (s.p.writer == Increment ==> s.p.stored == s.writing.data[s.writing.i])
    && (s.writing.SawFull? ==> s.writing.i < |s.writing.data|)
    && (s.writing.WriteDone? ==>
          && s.writing.wrote <= |s.writing.data| && |s.p.sent| == s.writeFrom + s.writing.wrote
          && s.p.sent[s.writeFrom..] == s.writing.data[..s.writing.wrote])
    && (s.writing.SawFull? || SaidBroken(s.writing) ==> |s.p.sent| == s.full.at + PIPEBUFSIZ)
    && (s.full.gone ==> !s.readerOpen && (s.writing.SawFull? || SaidBroken(s.writing) ==> |s.p.got| == s.full.at))
    && (SaidBroken(s.writing) ==> !s.readerOpen && s.writing.result == 0)
    && (s.writing.WriteDone? && !SaidBroken(s.writing) ==> s.writing.wrote == |s.writing.data|)
  }

  ghost predicate Good(s: System) { PipeRing.Inv(s.p) && InRange(s.p) && ReadOk(s) && WriteOk(s) }

  lemma ReadKeeps(s: System)
    requires Good(s) && s.reading.Reading?
    ensures Possible(s, ReadTurn) && Good(ReadNext(s))
  {
    StepKeeps(s.p, ReadStep);
    ReadKeepsCall(s, ReadNext(s));
  }

  lemma ReadKeepsCall(s: System, s': System)
    requires Good(s) && s.reading.Reading? && Possible(s, ReadTurn) && s' == ReadNext(s)
    ensures ReadOk(s') && WriteOk(s')
  {}

  lemma WriteKeeps(s: System)
    requires Good(s) && s.writing.Writing?
    ensures Possible(s, WriteTurn) && Good(WriteNext(s))
  {
    var i := s.writing.i;
    if i < |s.writing.data| {
      StepKeeps(s.p, WriteStep(s.writing.data[i]));
      if s.p.writer == Increment { OneMore(s.p.sent, s.writeFrom, s.writing.data, i); }
      WriteKeepsCall(s, WriteNext(s));
    }
  }

  lemma OneMore(sent: seq<Byte>, from: nat, data: seq<Byte>, i: nat)
    requires i < |data| && |sent| == from + i && sent[from..] == data[..i]
    ensures (sent + [data[i]])[from..] == data[..i + 1]
  {
    assert (sent + [data[i]])[from..] == sent[from..] + [data[i]];
  }

  lemma WriteKeepsCall(s: System, s': System)
    requires Good(s) && s.writing.Writing? && s.writing.i < |s.writing.data| && Possible(s, WriteTurn) && s' == WriteNext(s)
    requires s.p.writer == Increment ==> (s.p.sent + [s.writing.data[s.writing.i]])[s.writeFrom..] == s.writing.data[..s.writing.i + 1]
    ensures ReadOk(s') && WriteOk(s')
  {
    WriteLeavesRead(s, s');
  }

  lemma WriteLeavesRead(s: System, s': System)
    requires Good(s) && s.writing.Writing? && s.writing.i < |s.writing.data| && Possible(s, WriteTurn) && s' == WriteNext(s)
    ensures ReadOk(s')
  {}

  lemma EventKeeps(s: System, e: Event)
    requires Good(s) && Possible(s, e)
    ensures Good(Happen(s, e))
  {
    match e
    case ReadTurn => ReadKeeps(s);
    case WriteTurn => WriteKeeps(s);
    case _ => CallKeeps(s, e); SameRing(s, Happen(s, e));
  }

  lemma CallKeeps(s: System, e: Event)
    requires ReadOk(s) && WriteOk(s) && Possible(s, e) && |s.p.sent| < TWO31 && !e.ReadTurn? && !e.WriteTurn?
    ensures Happen(s, e).p == s.p && ReadOk(Happen(s, e)) && WriteOk(Happen(s, e))
  {}

  lemma SameRing(s: System, s': System)
    requires Good(s) && s'.p == s.p && ReadOk(s') && WriteOk(s')
    ensures Good(s')
  {}

  // ---- Whole runs ----

  ghost predicate Occurs(s: System, events: seq<Event>)
    decreases |events|
  {
    events == [] || (Possible(s, events[0]) && Occurs(Happen(s, events[0]), events[1..]))
  }

  ghost function Later(s: System, events: seq<Event>): System
    requires Occurs(s, events)
    decreases |events|
  {
    if events == [] then s else Later(Happen(s, events[0]), events[1..])
  }

  // Both ends of an empty pipe are open.
  predicate Opened(s: System) {
    && PipeRing.Fresh(s.p) && s.reading.NoRead? && s.writing.NoWrite? && s.readerOpen && s.writerOpen
    && !s.empty.gone && !s.full.gone
  }

  lemma {:induction false} RunKeeps(s: System, events: seq<Event>)
    requires Good(s) && Occurs(s, events)
    ensures Good(Later(s, events))
    decreases |events|
  {
    if events != [] {
      EventKeeps(s, events[0]);
      RunKeeps(Happen(s, events[0]), events[1..]);
    }
  }

  // When devpipe_read answers 0, the writer's end is closed; and that was the end of the file,
  // exactly if no byte was completed between its last look at the ring and the answer. So it
  // was if the writer's end was already closed at that look.
  lemma EndExactly(s: System, events: seq<Event>)
    requires Opened(s) && Occurs(s, events) && SaidEnd(Later(s, events).reading)
    ensures var s' := Later(s, events);
      && !s'.writerOpen && s'.empty.at <= |s'.p.sent| && s'.p.got == s'.p.sent[..s'.empty.at]
      && (s'.p.got == s'.p.sent <==> |s'.p.sent| == s'.empty.at)
      && (s'.empty.gone ==> s'.p.got == s'.p.sent)
  {
    RunKeeps(s, events);
  }

  // The other case does happen: the writer writes a byte and closes after the reader has
  // found the ring empty and before it asks.
  lemma LostBytes(s: System, b: Byte) returns (events: seq<Event>)
    requires Opened(s)
    ensures Occurs(s, events) && SaidEnd(Later(s, events).reading)
    ensures Later(s, events).p.got == [] && Later(s, events).p.sent == [b]
  {
    var s2 := Happen(Happen(s, StartRead(1)), ReadTurn);
    assert s2.reading == SawEmpty(1);
    var s3 := Happen(s2, StartWrite([b]));
    var s4 := Happen(s3, WriteTurn);
    assert s4.p.writer == Copy;
    var s5 := Happen(s4, WriteTurn);
    assert s5.p.writer == Increment && s5.p.stored == b;
    var s6 := Happen(s5, WriteTurn);
    assert s6.p.sent == [b] && s6.writing == Writing([b], 1);
    var s8 := Happen(Happen(s6, WriteTurn), CloseWriter);
    events := Then(s8, [], AnswerReader(true));
    events := Then(Happen(s6, WriteTurn), events, CloseWriter);
    events := Then(s6, events, WriteTurn);
    events := Then(s5, events, WriteTurn);
    events := Then(s4, events, WriteTurn);
    events := Then(s3, events, WriteTurn);
    events := Then(s2, events, StartWrite([b]));
    events := Then(Happen(s, StartRead(1)), events, ReadTurn);
    events := Then(s, events, StartRead(1));
  }

  lemma Then(s: System, events: seq<Event>, e: Event) returns (events': seq<Event>)
    requires Possible(s, e) && Occurs(Happen(s, e), events)
    ensures Occurs(s, events') && Later(s, events') == Later(Happen(s, e), events)
  {
    events' := [e] + events;
    assert events'[1..] == events;
  }

  // But a read that begins when the writer's end is closed does not answer 0 before all bytes
  // are read: a reader that gets 0 and calls again loses nothing.
  lemma {:induction false} SecondEnd(s: System, events: seq<Event>)
    requires Good(s) && Occurs(s, events) && !s.writerOpen
    requires s.reading.SawEmpty? || SaidEnd(s.reading) ==> s.empty.gone
    ensures SaidEnd(Later(s, events).reading) ==> Later(s, events).p.got == Later(s, events).p.sent
    decreases |events|
  {
    if events != [] {
      EventKeeps(s, events[0]);
      SecondEnd(Happen(s, events[0]), events[1..]);
    }
  }

  // When devpipe_write answers something else than the number of bytes, that is 0, the
  // reader's end is closed, and it has written a prefix of its bytes all the same; the ring
  // is still full exactly if the reader has taken no byte since the last look at it.
  lemma BrokenExactly(s: System, events: seq<Event>)
    requires Opened(s) && Occurs(s, events) && SaidBroken(Later(s, events).writing)
    ensures var s' := Later(s, events); var w := s'.writing;
      && !s'.readerOpen && w.result == 0 && w.wrote <= |w.data| && s'.writeFrom <= |s'.p.sent|
      && s'.p.sent[s'.writeFrom..] == w.data[..w.wrote]
      && (|s'.p.sent| == |s'.p.got| + PIPEBUFSIZ <==> |s'.p.got| == s'.full.at)
  {
    RunKeeps(s, events);
  }

  // ---- The two calls as code ----

  // What happens before an access: events of the other end, and whether _pipeisclosed, if it
  // is asked next, will notice that the other end is closed.
  datatype Meanwhile = Meanwhile(events: seq<Event>, notices: bool)

  predicate WritersEvent(e: Event) { e.StartWrite? || e.WriteTurn? || e.AnswerWriter? || e.CloseWriter? }

  predicate ReadersEvent(e: Event) { e.StartRead? || e.ReadTurn? || e.AnswerReader? || e.CloseReader? }

  // Bytes written, and those still to write in the call in progress.
  function Budget(s: System): int {
    |s.p.sent| + if InWrite(s.writing) then |s.writing.data| - s.writing.i else 0
  }

  function Asked(e: Event): nat { if e.StartWrite? then |e.data| else 0 }

  function Total(events: seq<Event>): nat { if events == [] then 0 else Asked(events[0]) + Total(events[1..]) }

  function TotalOf(others: seq<Meanwhile>): nat {
    if others == [] then 0 else Total(others[0].events) + TotalOf(others[1..])
  }

  // An end's events leave alone where the other one is.
  lemma OtherEnd(s: System, e: Event)
    requires Good(s) && Possible(s, e)
    ensures WritersEvent(e) ==>
      var s' := Happen(s, e);
      s'.reading == s.reading && s'.p.got == s.p.got && s'.p.taken == s.p.taken && s'.p.reader == s.p.reader && s'.readerOpen == s.readerOpen && s'.readFrom == s.readFrom
    ensures ReadersEvent(e) ==>
      var s' := Happen(s, e);
      s'.writing == s.writing && s'.p.sent == s.p.sent && s'.p.writer == s.p.writer && s'.writerOpen == s.writerOpen && s'.writeFrom == s.writeFrom
    ensures Budget(Happen(s, e)) <= Budget(s) + Asked(e)
  {}

  lemma {:induction false} RunMore(s: System, trace: seq<Event>, e: Event)
    requires Occurs(s, trace) && Possible(Later(s, trace), e)
    ensures Occurs(s, trace + [e]) && Later(s, trace + [e]) == Happen(Later(s, trace), e)
    decreases |trace|
  {
    if trace == [] {
      assert [e][1..] == [];
    } else {
      assert (trace + [e])[1..] == trace[1..] + [e];
      RunMore(Happen(s, trace[0]), trace[1..], e);
    }
  }

  class Ring {
    var rpos: int
    var wpos: int
    const buf: array<Byte>
    var reader: Pc
    var taken: Byte
    ghost var got: seq<Byte>
    var writer: Pc
    var stored: Byte
    ghost var sent: seq<Byte>
    var reading: ReadCall
    var writing: WriteCall
    var readerOpen: bool
    var writerOpen: bool
    ghost var readFrom: nat
    ghost var writeFrom: nat
    ghost var empty: Test
    ghost var full: Test

    ghost function State(): System
      reads this, buf
    {
      System(Pipe(rpos, wpos, buf[..], reader, taken, got, writer, stored, sent), reading, writing, readerOpen, writerOpen,
             readFrom, writeFrom, empty, full)
    }

    constructor ()
      ensures fresh(buf) && Opened(State())
    {
      buf := new Byte[PIPEBUFSIZ](_ => 0);
      rpos, wpos, reader, writer, taken, stored, got, sent := 0, 0, Check, Check, 0, 0, [], [];
      reading, writing, readerOpen, writerOpen := NoRead, NoWrite, true, true;
      readFrom, writeFrom, empty, full := 0, 0, Test(0, false), Test(0, false);
    }

    // The next access of a devpipe_read in progress.
    method Read()
      requires Possible(State(), ReadTurn)
      modifies this
      ensures State() == Happen(old(State()), ReadTurn)
    {
      var n, i := reading.n, reading.i;
      match reader
      case Check =>
        if i == n {
          reading := ReadDone(n, n);
        } else if rpos != wpos {
          reader := Copy;
        } else if i > 0 {
          reading := ReadDone(n, i);
        } else {
          reading := SawEmpty(n);
          empty := Test(|sent|, !writerOpen);
        }
      case Copy =>
        taken := buf[CMod(rpos, PIPEBUFSIZ)];
        reader := Increment;
      case Increment =>
        rpos := Inc32(rpos);
        got := got + [taken];
        reader := Check;
        reading := Reading(n, i + 1);
    }

    // The next access of a devpipe_write in progress.
    method Write()
      requires Possible(State(), WriteTurn)
      modifies this, buf
      ensures State() == Happen(old(State()), WriteTurn)
    {
      var data, i := writing.data, writing.i;
      if i == |data| {
        writing := WriteDone(data, i, i);
        return;
      }
      match writer
      case Check =>
        if !Full(rpos, wpos) {
          writer := Copy;
        } else {
          writing := SawFull(data, i);
          full := Test(|got|, !readerOpen);
        }
      case Copy =>
        buf[CMod(wpos, PIPEBUFSIZ)] := data[i];
        stored := data[i];
        writer := Increment;
      case Increment =>
        wpos := Inc32(wpos);
        sent := sent + [stored];
        writer := Check;
        writing := Writing(data, i + 1);
    }

    // An event of one of the ends.
    method Happens(e: Event)
      requires Possible(State(), e)
      modifies this, buf
      ensures State() == Happen(old(State()), e)
    {
      match e
      case StartRead(n) => reading, readFrom := Reading(n, 0), |got|;
      case ReadTurn => Read();
      case AnswerReader(closed) => reading := if closed then ReadDone(reading.n, 0) else Reading(reading.n, 0);
      case CloseReader => readerOpen, reading := false, NoRead;
      case StartWrite(data) => writing, writeFrom := Writing(data, 0), |sent|;
      case WriteTurn => Write();
      case AnswerWriter(closed) =>
        writing := if closed then WriteDone(writing.data, writing.i, 0) else Writing(writing.data, writing.i);
      case CloseWriter => writerOpen, writing := false, NoWrite;
    }

    // Events of the writer's end, as far as they are possible.
    method WriterActs(events: seq<Event>, ghost s0: System, ghost before: seq<Event>) returns (ghost trace: seq<Event>)
      requires Good(State()) && Occurs(s0, before) && State() == Later(s0, before) && Budget(State()) + Total(events) < TWO31
      modifies this, buf
      ensures Good(State()) && Occurs(s0, trace) && State() == Later(s0, trace)
      ensures Budget(State()) <= old(Budget(State())) + Total(events)
      ensures reading == old(reading) && got == old(got) && taken == old(taken) && reader == old(reader) && readerOpen == old(readerOpen) && readFrom == old(readFrom)
    {
      trace := before;
      for k := 0 to |events|
        invariant Good(State()) && Occurs(s0, trace) && State() == Later(s0, trace)
        invariant Budget(State()) + Total(events[k..]) <= old(Budget(State())) + Total(events)
        invariant reading == old(reading) && got == old(got) && taken == old(taken) && reader == old(reader) && readerOpen == old(readerOpen) && readFrom == old(readFrom)
      {
        assert events[k..][0] == events[k] && events[k..][1..] == events[k + 1..];
        trace := WriterActsOnce(events[k], s0, trace);
      }
    }

    method WriterActsOnce(e: Event, ghost s0: System, ghost before: seq<Event>) returns (ghost trace: seq<Event>)
      requires Good(State()) && Occurs(s0, before) && State() == Later(s0, before) && Budget(State()) + Asked(e) < TWO31
      modifies this, buf
      ensures Good(State()) && Occurs(s0, trace) && State() == Later(s0, trace)
      ensures Budget(State()) <= old(Budget(State())) + Asked(e)
      ensures reading == old(reading) && got == old(got) && taken == old(taken) && reader == old(reader) && readerOpen == old(readerOpen) && readFrom == old(readFrom)
    {
      trace := before;
      var ok := match e
        case StartWrite(_) => writerOpen && !InWrite(writing)
        case WriteTurn => writing.Writing?
        case AnswerWriter(closed) => writing.SawFull? && (closed ==> !readerOpen)
        case CloseWriter => writerOpen && !InWrite(writing)
        case _ => false;
      if ok {
        if e.WriteTurn? { WriteKeeps(State()); }
        EventKeeps(State(), e);
        OtherEnd(State(), e);
        RunMore(s0, trace, e);
        Happens(e);
        trace := trace + [e];
      }
    }

    method ReaderActs(events: seq<Event>, ghost s0: System, ghost before: seq<Event>) returns (ghost trace: seq<Event>)
      requires Good(State()) && Occurs(s0, before) && State() == Later(s0, before)
      modifies this, buf
      ensures Good(State()) && Occurs(s0, trace) && State() == Later(s0, trace)
      ensures writing == old(writing) && sent == old(sent) && writer == old(writer) && writerOpen == old(writerOpen) && writeFrom == old(writeFrom)
    {
      trace := before;
      for k := 0 to |events|
        invariant Good(State()) && Occurs(s0, trace) && State() == Later(s0, trace)
        invariant writing == old(writing) && sent == old(sent) && writer == old(writer) && writerOpen == old(writerOpen) && writeFrom == old(writeFrom)
      {
        var e := events[k];
        var ok := match e
          case StartRead(_) => readerOpen && !InRead(reading)
          case ReadTurn => reading.Reading?
          case AnswerReader(closed) => reading.SawEmpty? && (closed ==> !writerOpen)
          case CloseReader => readerOpen && !InRead(reading)
          case _ => false;
        if ok {
          if e.ReadTurn? { ReadKeeps(State()); }
          EventKeeps(State(), e);
          OtherEnd(State(), e);
          RunMore(s0, trace, e);
          Happens(e);
          trace := trace + [e];
        }
      }
    }

    // The reader's next access, or the answer it waits for.
    method ReaderStep(notices: bool, ghost s0: System, ghost before: seq<Event>) returns (ghost trace: seq<Event>)
      requires Good(State()) && Occurs(s0, before) && State() == Later(s0, before) && InRead(reading)
      modifies this, buf
      ensures Good(State()) && Occurs(s0, trace) && State() == Later(s0, trace) && Budget(State()) <= old(Budget(State()))
      ensures got == old(got) + if old(reading).Reading? && old(reader) == Increment then [old(taken)] else []
      ensures !InRead(reading) ==> reading.ReadDone? && reading.n == old(reading).n
      ensures readFrom == old(readFrom) && (InRead(reading) ==> reading.n == old(reading).n)
      ensures reading.ReadDone? && 0 < reading.result < reading.n ==> |got| == |sent|
    {
      ghost var e := if reading.Reading? then ReadTurn else AnswerReader(notices && !writerOpen);
      if reading.Reading? { ReadKeeps(State()); }
      EventKeeps(State(), e);
      OtherEnd(State(), e);
      RunMore(s0, before, e);
      if reading.Reading? { Read(); } else { Happens(AnswerReader(notices && !writerOpen)); }
      trace := before + [e];
    }

    method BeginRead(n: nat) returns (ghost trace: seq<Event>)
      requires Good(State()) && readerOpen && !InRead(reading)
      modifies this, buf
      ensures Good(State()) && Occurs(old(State()), trace) && State() == Later(old(State()), trace)
      ensures reading == Reading(n, 0) && got == old(got) && readFrom == |got| && Budget(State()) <= old(Budget(State()))
    {
      EventKeeps(State(), StartRead(n));
      OtherEnd(State(), StartRead(n));
      RunMore(State(), [], StartRead(n));
      assert [] + [StartRead(n)] == [StartRead(n)];
      Happens(StartRead(n));
      trace := [StartRead(n)];
    }

    // devpipe_read of n bytes, with the writer's end free to act before each access; when
    // `others` is used up the call still waits. What it answers when it answers 0 is in
    // EndExactly, as for any run.
    method DevpipeRead(n: nat, others: seq<Meanwhile>) returns (data: seq<Byte>, waiting: bool, ghost trace: seq<Event>)
      requires Good(State()) && readerOpen && !InRead(reading) && Budget(State()) + TotalOf(others) < TWO31
      modifies this, buf
      ensures Good(State()) && Occurs(old(State()), trace) && State() == Later(old(State()), trace)
      ensures got == old(got) + data && |data| <= n && got <= sent
      ensures if waiting then InRead(reading) else reading == ReadDone(n, |data|)
      ensures !waiting && 0 < |data| < n ==> |got| == |sent|
      ensures !waiting && data == [] && n > 0 ==> !writerOpen && (|got| == |sent| <==> |sent| == empty.at)
    {
      ghost var s0 := State();
      trace := BeginRead(n);
      data := [];
      for k := 0 to |others|
        invariant Good(State()) && Occurs(s0, trace) && State() == Later(s0, trace)
        invariant Budget(State()) + TotalOf(others[k..]) < TWO31
        invariant InRead(reading) && reading.n == n && got == old(got) + data && readFrom == |old(got)|
      {
        assert others[k..][0] == others[k] && others[k..][1..] == others[k + 1..];
        trace := WriterActs(others[k].events, s0, trace);
        if reading.Reading? && reader == Increment { data := data + [taken]; }
        trace := ReaderStep(others[k].notices, s0, trace);
        if reading.ReadDone? { return data, false, trace; }
      }
      waiting := true;
    }

    method WriterStep(notices: bool, ghost s0: System, ghost before: seq<Event>) returns (ghost trace: seq<Event>)
      requires Good(State()) && Occurs(s0, before) && State() == Later(s0, before) && InWrite(writing)
      modifies this, buf
      ensures Good(State()) && Occurs(s0, trace) && State() == Later(s0, trace)
      ensures if InWrite(writing) then writing.data == old(writing).data else writing.WriteDone? && writing.data == old(writing).data
      ensures writeFrom == old(writeFrom) && old(sent) <= sent
    {
      ghost var e := if writing.Writing? then WriteTurn else AnswerWriter(notices && !readerOpen);
      if writing.Writing? { WriteKeeps(State()); }
      EventKeeps(State(), e);
      RunMore(s0, before, e);
      if writing.Writing? { Write(); } else { Happens(AnswerWriter(notices && !readerOpen)); }
      trace := before + [e];
    }

    // devpipe_write of `data`, with the reader's end free to act before each access. It
    // answers 0 when it finds the reader's end gone, even if it has written bytes by then.
    method DevpipeWrite(data: seq<Byte>, others: seq<Meanwhile>)
        returns (n: nat, waiting: bool, ghost wrote: nat, ghost trace: seq<Event>)
      requires Good(State()) && writerOpen && !InWrite(writing) && |sent| + |data| < TWO31
      modifies this, buf
      ensures Good(State()) && Occurs(old(State()), trace) && State() == Later(old(State()), trace)
      ensures wrote <= |data| && sent == old(sent) + data[..wrote]
      ensures if waiting then InWrite(writing) else writing == WriteDone(data, wrote, n)
      ensures !waiting ==> (n == |data| == wrote) || (n == 0 && !readerOpen && |sent| == full.at + PIPEBUFSIZ)
    {
      ghost var s0 := State();
      EventKeeps(s0, StartWrite(data));
      RunMore(s0, [], StartWrite(data));
      assert [] + [StartWrite(data)] == [StartWrite(data)];
      Happens(StartWrite(data));
      trace := [StartWrite(data)];
      n, waiting := 0, true;
      var k := 0;
      while k < |others| && InWrite(writing)
        invariant k <= |others| && Good(State()) && Occurs(s0, trace) && State() == Later(s0, trace)
        invariant writeFrom == |old(sent)| && old(sent) <= sent
        invariant if InWrite(writing) then writing.data == data else writing.WriteDone? && writing.data == data
      {
        trace := ReaderActs(others[k].events, s0, trace);
        trace := WriterStep(others[k].notices, s0, trace);
        k := k + 1;
      }
      wrote := if InWrite(writing) then writing.i else writing.wrote;
      waiting := InWrite(writing);
      if !waiting { n := writing.result; }
    }
  }
}
