/** The five processes behind RunCommandWithOutput: two pipe readers, the process that waits for both
    readers, the writer that owns the output, and the caller.  They share one unbuffered channel of chunks
    (the sink), one error channel with room for two, a wait group and a done signal.

    Every step one process can take on its own, or two processes can take together, is an Action;
    Enabled says when the step can happen and Apply what it does.  A run is any interleaving of steps. */
module Streaming {
  import opened Common

  type Bytes = seq<bv8>

  datatype Source = Stdout | Stderr

  /** A chunk handed over the sink, with the reader it came from. */
  datatype Chunk = Chunk(source: Source, data: Bytes)

  datatype ReaderPhase =
    | Reading                  // inside Scan
    | Offering(chunk: Bytes)   // blocked sending a chunk into the sink
    | Reporting                // about to send the outcome into the error channel
    | Leaving                  // about to leave the wait group
    | Left

  /** `unread` is what the pipe will still deliver before end of file. */
  datatype Reader = Reader(phase: ReaderPhase, unread: Bytes, failed: bool)

  datatype WaiterPhase = Blocked | ClosingErrors | Gone

  datatype WriterPhase = Ranging | Writing(chunk: Bytes) | Flushing | Signalling | Ended

  datatype MainPhase =
    | Starting | Waiting | Draining | ClosingSink | AwaitingDone
    | Returned      // the command was started and the call is over
    | StartFailed   // the command could not be started and the call is over

  /** `buffered` is the content of the buffered writer, `output` what reached the destination; `broken` is
      its sticky write error.  `log` records the chunks in the order they were handed over. */
  datatype State = State(
    stdout: Reader,
    stderr: Reader,
    waitCount: int,
    errors: seq<bool>,
    errorsClosed: bool,
    waiter: WaiterPhase,
    sinkClosed: bool,
    writer: WriterPhase,
    buffered: Bytes,
    output: Bytes,
    broken: bool,
    doneClosed: bool,
    main: MainPhase,
    log: seq<Chunk>)
  {
    function ReaderOf(source: Source): Reader {
      if source == Stdout then stdout else stderr
    }

    function WithReader(source: Source, reader: Reader): State {
      if source == Stdout then this.(stdout := reader) else this.(stderr := reader)
    }
  }

  const ERRORS_CAPACITY := 2

  function Init(out: Bytes, err: Bytes): State {
    State(Reader(Reading, out, false), Reader(Reading, err, false), 2, [], false, Blocked,
          false, Ranging, [], [], false, false, Starting, [])
  }

  /** The split function given to the scanner: everything read so far is one token. */
  function BytesId(data: Bytes, atEof: bool): (nat, Bytes) {
    if atEof && data == [] then (0, []) else (|data|, data)
  }

  datatype Action =
    | Start(ok: bool)
    | CommandEnds
    | Read(source: Source, amount: nat)
    | Eof(source: Source)
    | ReadFails(source: Source)
    | HandOver(source: Source)
    | Report(source: Source)
    | Leave(source: Source)
    | WaiterWakes
    | CloseErrors
    | Write(spilled: nat)
    | WriteFails(written: nat)
    | SinkEnds
    | Flush
    | FlushFails(written: nat)
    | SignalDone
    | DrainOne
    | DrainEnds
    | CloseSink
    | Finish

  predicate Enabled(s: State, a: Action) {
    match a
    case Start(_) => s.main == Starting
    case CommandEnds => s.main == Waiting
    case Read(source, n) => s.ReaderOf(source).phase == Reading && 1 <= n <= |s.ReaderOf(source).unread|
    case Eof(source) => s.ReaderOf(source).phase == Reading && s.ReaderOf(source).unread == []
    case ReadFails(source) => s.ReaderOf(source).phase == Reading
    // a rendezvous: the reader is blocked sending and the writer is blocked receiving
    case HandOver(source) => s.ReaderOf(source).phase.Offering? && s.writer == Ranging && !s.sinkClosed
    case Report(source) => s.ReaderOf(source).phase == Reporting && |s.errors| < ERRORS_CAPACITY && !s.errorsClosed
    case Leave(source) => s.ReaderOf(source).phase == Leaving
    case WaiterWakes => s.waiter == Blocked && s.waitCount == 0
    case CloseErrors => s.waiter == ClosingErrors
    case Write(n) => s.writer.Writing? && n <= |s.buffered + s.writer.chunk|
    case WriteFails(n) => s.writer.Writing? && !s.broken && n <= |s.buffered + s.writer.chunk|
    case SinkEnds => s.writer == Ranging && s.sinkClosed
    case Flush => s.writer == Flushing
    case FlushFails(n) => s.writer == Flushing && !s.broken && n <= |s.buffered|
    case SignalDone => s.writer == Signalling
    case DrainOne => s.main == Draining && s.errors != []
    case DrainEnds => s.main == Draining && s.errors == [] && s.errorsClosed
    case CloseSink => s.main == ClosingSink
    case Finish => s.main == AwaitingDone && s.doneClosed
  }

  function Apply(s: State, a: Action): State
    requires Enabled(s, a)
  {
    match a
    case Start(ok) => s.(main := if ok then Waiting else StartFailed)
    case CommandEnds => s.(main := Draining)
    case Read(source, n) =>
      var r := s.ReaderOf(source);
      var (advance, token) := BytesId(r.unread[..n], n == |r.unread|);
      s.WithReader(source, r.(phase := Offering(token), unread := r.unread[advance..]))
    case Eof(source) => s.WithReader(source, s.ReaderOf(source).(phase := Reporting))
    case ReadFails(source) => s.WithReader(source, s.ReaderOf(source).(phase := Reporting, failed := true))
    case HandOver(source) =>
      var r := s.ReaderOf(source);
      s.WithReader(source, r.(phase := Reading))
       .(writer := Writing(r.phase.chunk), log := s.log + [Chunk(source, r.phase.chunk)])
    case Report(source) =>
      var r := s.ReaderOf(source);
      s.WithReader(source, r.(phase := Leaving)).(errors := s.errors + [r.failed])
    case Leave(source) =>
      s.WithReader(source, s.ReaderOf(source).(phase := Left)).(waitCount := s.waitCount - 1)
    case WaiterWakes => s.(waiter := ClosingErrors)
    case CloseErrors => s.(waiter := Gone, errorsClosed := true)
    case Write(n) =>
      var text := s.buffered + s.writer.chunk;
      if s.broken then s.(writer := Ranging)
      else s.(writer := Ranging, output := s.output + text[..n], buffered := text[n..])
    case WriteFails(n) =>
      var text := s.buffered + s.writer.chunk;
      s.(writer := Ranging, output := s.output + text[..n], buffered := [], broken := true)
    case SinkEnds => s.(writer := Flushing)
    case Flush =>
      if s.broken then s.(writer := Signalling)
      else s.(writer := Signalling, output := s.output + s.buffered, buffered := [])
    case FlushFails(n) =>
      s.(writer := Signalling, output := s.output + s.buffered[..n], buffered := [], broken := true)
    case SignalDone => s.(writer := Ended, doneClosed := true)
    case DrainOne => s.(errors := s.errors[1..])
    case DrainEnds => s.(main := ClosingSink)
    case CloseSink => s.(main := AwaitingDone, sinkClosed := true)
    case Finish => s.(main := Returned)
  }

  predicate Over(s: State) {
    s.main == Returned || s.main == StartFailed
  }

  // ------------------------------------------------------------------ what must never happen

  /** A process stands at a statement that would panic: a send on a closed channel, a second close, or a wait
      group going below zero. */
  predicate Panics(s: State) {
    || (exists source :: s.ReaderOf(source).phase.Offering? && s.sinkClosed)
    || (exists source :: s.ReaderOf(source).phase == Reporting && s.errorsClosed)
    || (exists source :: s.ReaderOf(source).phase == Leaving && s.waitCount <= 0)
    || (s.waiter == ClosingErrors && s.errorsClosed)
    || (s.main == ClosingSink && s.sinkClosed)
    || (s.writer == Signalling && s.doneClosed)
  }

  /** A reader cannot deliver its outcome because the error channel is full. */
  predicate ReporterBlocked(s: State) {
    exists source :: s.ReaderOf(source).phase == Reporting && |s.errors| >= ERRORS_CAPACITY
  }

  // ------------------------------------------------------------------ the texts that flow through

  function Text(log: seq<Chunk>): Bytes {
    if log == [] then [] else Text(log[..|log| - 1]) + log[|log| - 1].data
  }

  function TextOf(log: seq<Chunk>, source: Source): Bytes {
    if log == [] then []
    else TextOf(log[..|log| - 1], source) + (if log[|log| - 1].source == source then log[|log| - 1].data else [])
  }

  /** The bytes of `text` whose mark is `source`. */
  function Marked(text: Bytes, marks: seq<Source>, source: Source): Bytes
    requires |text| == |marks|
  {
    if text == [] then []
    else
      var n := |text| - 1;
      Marked(text[..n], marks[..n], source) + (if marks[n] == source then [text[n]] else [])
  }

  /** Each byte of `text` comes from exactly one of `out` and `err`, both complete and in order. */
  ghost predicate Interleaves(text: Bytes, out: Bytes, err: Bytes) {
    exists marks: seq<Source> ::
      |marks| == |text| && Marked(text, marks, Stdout) == out && Marked(text, marks, Stderr) == err
  }

  lemma TextSnoc(log: seq<Chunk>, c: Chunk)
    ensures Text(log + [c]) == Text(log) + c.data
  {
    assert (log + [c])[..|log|] == log;
  }

  lemma TextOfSnoc(log: seq<Chunk>, c: Chunk, source: Source)
    ensures TextOf(log + [c], source) == TextOf(log, source) + (if c.source == source then c.data else [])
  {
    assert (log + [c])[..|log|] == log;
  }

  lemma MarkedSnoc(text: Bytes, marks: seq<Source>, last: bv8, mark: Source, source: Source)
    requires |text| == |marks|
    ensures Marked(text + [last], marks + [mark], source)
         == Marked(text, marks, source) + (if mark == source then [last] else [])
  {
    assert (text + [last])[..|text|] == text && (marks + [mark])[..|marks|] == marks;
  }

  function Repeat(mark: Source, n: nat): (marks: seq<Source>)
    ensures |marks| == n
  {
    seq(n, _ => mark)
  }

  lemma AppendSplits(text: Bytes, more: Bytes)
    requires more != []
    ensures text + more == (text + more[..|more| - 1]) + [more[|more| - 1]]
  {
  }

  lemma RepeatSplits(marks: seq<Source>, mark: Source, n: nat)
    ensures marks + Repeat(mark, n + 1) == (marks + Repeat(mark, n)) + [mark]
  {
  }

  lemma {:induction false} MarkedAppend(text: Bytes, marks: seq<Source>, more: Bytes, mark: Source, source: Source)
    requires |text| == |marks|
    ensures Marked(text + more, marks + Repeat(mark, |more|), source)
         == Marked(text, marks, source) + (if mark == source then more else [])
  {
    if more == [] {
      assert text + more == text && marks + Repeat(mark, 0) == marks;
    } else {
      var n := |more| - 1;
      MarkedAppend(text, marks, more[..n], mark, source);
      AppendSplits(text, more);
      RepeatSplits(marks, mark, n);
      MarkedSnoc(text + more[..n], marks + Repeat(mark, n), more[n], mark, source);
      AppendSplits(Marked(text, marks, source), more);
    }
  }

  lemma {:induction false} LogInterleaves(log: seq<Chunk>)
    ensures Interleaves(Text(log), TextOf(log, Stdout), TextOf(log, Stderr))
  {
    if log == [] {
      assert Marked([], [], Stdout) == [] && Marked([], [], Stderr) == [];
    } else {
      var init, last := log[..|log| - 1], log[|log| - 1];
      LogInterleaves(init);
      var marks: seq<Source> :| |marks| == |Text(init)| && Marked(Text(init), marks, Stdout) == TextOf(init, Stdout)
                             && Marked(Text(init), marks, Stderr) == TextOf(init, Stderr);
      var all := marks + Repeat(last.source, |last.data|);
      MarkedAppend(Text(init), marks, last.data, last.source, Stdout);
      MarkedAppend(Text(init), marks, last.data, last.source, Stderr);
      assert |all| == |Text(log)|;
    }
  }

  // ------------------------------------------------------------------ the invariant

  function Present(r: Reader): int {
    if r.phase == Left then 0 else 1
  }

  function Reported(r: Reader): int {
    if r.phase == Leaving || r.phase == Left then 1 else 0
  }

  function InFlight(r: Reader): Bytes {
    if r.phase.Offering? then r.phase.chunk else []
  }

  predicate MainDrained(s: State) {
    s.main == ClosingSink || s.main == AwaitingDone || s.main == Returned
  }

  /** Who may still do what. */
  predicate ControlInv(s: State) {
    && s.waitCount == Present(s.stdout) + Present(s.stderr)
    && (s.waiter == Blocked || s.waitCount == 0)
    && (s.errorsClosed <==> s.waiter == Gone)
    && |s.errors| <= Reported(s.stdout) + Reported(s.stderr)
    && (MainDrained(s) ==> s.waiter == Gone)
    && (s.sinkClosed <==> s.main == AwaitingDone || s.main == Returned)
    && (s.writer == Flushing || s.writer == Signalling || s.writer == Ended ==> s.sinkClosed)
    && (s.doneClosed <==> s.writer == Ended)
    && (s.main == Returned ==> s.doneClosed)
  }

  /** No byte of a pipe is lost, repeated or reordered on its way into the log. */
  predicate SourceInv(s: State, source: Source, all: Bytes) {
    var r := s.ReaderOf(source);
    && TextOf(s.log, source) + InFlight(r) + r.unread == all
    && (!r.failed && (r.phase == Reporting || r.phase == Leaving || r.phase == Left) ==> r.unread == [])
  }

  /** The log reaches the output in order; a write error can only cut it short. */
  predicate SinkInv(s: State) {
    && (!s.broken ==> s.output + s.buffered + (if s.writer.Writing? then s.writer.chunk else []) == Text(s.log))
    && (s.broken ==> s.output <= Text(s.log))
    && (!s.broken && (s.writer == Signalling || s.writer == Ended) ==> s.buffered == [])
  }

  predicate Inv(s: State, out: Bytes, err: Bytes) {
    ControlInv(s) && SourceInv(s, Stdout, out) && SourceInv(s, Stderr, err) && SinkInv(s)
  }

  lemma InitInv(out: Bytes, err: Bytes)
    ensures Inv(Init(out, err), out, err)
  {
  }

  lemma ControlStep(s: State, a: Action)
    requires ControlInv(s) && Enabled(s, a)
    ensures ControlInv(Apply(s, a))
  {
    if InsideReader(a) || a.HandOver? {
      ReaderKeepsControl(s, a);
    } else if InsideWriter(a) {
      WriterKeepsControl(s, a);
    } else {
      OthersKeepControl(s, a);
    }
  }

  lemma ReaderKeepsControl(s: State, a: Action)
    requires ControlInv(s) && Enabled(s, a) && (InsideReader(a) || a.HandOver?)
    ensures ControlInv(Apply(s, a))
  {
    if a.Report? || a.Leave? {
      ReaderEndKeepsControl(s, a);
    }
  }

  lemma ReaderEndKeepsControl(s: State, a: Action)
    requires ControlInv(s) && Enabled(s, a) && (a.Report? || a.Leave?)
    ensures ControlInv(Apply(s, a))
  {
  }

  lemma WriterKeepsControl(s: State, a: Action)
    requires ControlInv(s) && Enabled(s, a) && InsideWriter(a)
    ensures ControlInv(Apply(s, a))
  {
  }

  lemma OthersKeepControl(s: State, a: Action)
    requires ControlInv(s) && Enabled(s, a) && !(InsideReader(a) || a.HandOver?) && !InsideWriter(a)
    ensures ControlInv(Apply(s, a))
  {
  }

  /** Steps that belong to neither a reader nor a rendezvous leave readers and log alone. */
  predicate InsideReader(a: Action) {
    a.Read? || a.Eof? || a.ReadFails? || a.Report? || a.Leave?
  }

  lemma ReadersUntouched(s: State, a: Action)
    requires Enabled(s, a) && !InsideReader(a) && !a.HandOver?
    ensures Apply(s, a).log == s.log && Apply(s, a).stdout == s.stdout && Apply(s, a).stderr == s.stderr
  {
  }

  lemma ReaderStepFrame(s: State, a: Action, source: Source)
    requires Enabled(s, a) && InsideReader(a)
    ensures Apply(s, a).log == s.log
    ensures a.source != source ==> Apply(s, a).ReaderOf(source) == s.ReaderOf(source)
  {
    if a.source != source {
      OtherReaderStays(s, a);
    }
  }

  lemma SourceStep(s: State, a: Action, source: Source, all: Bytes)
    requires SourceInv(s, source, all) && Enabled(s, a)
    ensures SourceInv(Apply(s, a), source, all)
  {
    if a.HandOver? {
      HandOverKeepsSource(s, a.source, source, all);
    } else if InsideReader(a) {
      ReaderStepFrame(s, a, source);
      if a.source == source {
        ReaderKeepsSource(s, a, all);
      }
    } else {
      ReadersUntouched(s, a);
    }
  }

  lemma HandOverKeepsSource(s: State, from: Source, source: Source, all: Bytes)
    requires SourceInv(s, source, all) && Enabled(s, HandOver(from))
    ensures SourceInv(Apply(s, HandOver(from)), source, all)
  {
    var chunk := s.ReaderOf(from).phase.chunk;
    var t := Apply(s, HandOver(from));
    assert t.log == s.log + [Chunk(from, chunk)];
    assert t.ReaderOf(source) == if from == source then s.ReaderOf(source).(phase := Reading) else s.ReaderOf(source);
    TextOfSnoc(s.log, Chunk(from, chunk), source);
    if from == source {
      assert InFlight(s.ReaderOf(source)) == chunk && InFlight(t.ReaderOf(source)) == [];
      HandOverText(TextOf(s.log, source), chunk, s.ReaderOf(source).unread);
    } else {
      HandOverText(TextOf(s.log, source), [], []);
    }
  }

  lemma HandOverText(before: Bytes, chunk: Bytes, unread: Bytes)
    ensures (before + chunk) + [] + unread == before + chunk + unread
    ensures before + [] == before
  {
    assert (before + chunk) + [] == before + chunk;
  }

  lemma ReaderKeepsSource(s: State, a: Action, all: Bytes)
    requires InsideReader(a) && SourceInv(s, a.source, all) && Enabled(s, a)
    ensures SourceInv(Apply(s, a), a.source, all)
  {
    ReaderStepFrame(s, a, a.source);
    if a.Read? {
      ReadMoves(s, a);
      ReadText(TextOf(s.log, a.source), s.ReaderOf(a.source).unread, a.amount);
    } else {
      OtherStepsMoveNothing(s, a);
    }
  }

  lemma ReadMoves(s: State, a: Action)
    requires a.Read? && Enabled(s, a)
    ensures var r := s.ReaderOf(a.source);
      Apply(s, a).ReaderOf(a.source) == Reader(Offering(r.unread[..a.amount]), r.unread[a.amount..], r.failed)
  {
  }

  lemma OtherStepsMoveNothing(s: State, a: Action)
    requires InsideReader(a) && !a.Read? && Enabled(s, a)
    ensures var r, t := s.ReaderOf(a.source), Apply(s, a).ReaderOf(a.source);
      && t.unread == r.unread && InFlight(t) == [] && InFlight(r) == []
      && (t.failed == r.failed || a.ReadFails?) && (a.ReadFails? ==> t.failed)
      && (a.Eof? ==> r.unread == []) && (a.Report? || a.Leave? ==> r.phase == Reporting || r.phase == Leaving)
  {
  }

  lemma ReadText(before: Bytes, unread: Bytes, n: nat)
    requires n <= |unread|
    ensures before + unread[..n] + unread[n..] == before + [] + unread
  {
    assert unread == unread[..n] + unread[n..];
  }

  predicate InsideWriter(a: Action) {
    a.Write? || a.WriteFails? || a.SinkEnds? || a.Flush? || a.FlushFails? || a.SignalDone?
  }

  predicate SameSink(s: State, t: State) {
    t.log == s.log && t.writer == s.writer && t.buffered == s.buffered && t.output == s.output && t.broken == s.broken
  }

  lemma WriterUntouched(s: State, a: Action)
    requires Enabled(s, a) && !InsideWriter(a) && !a.HandOver?
    ensures SameSink(s, Apply(s, a))
  {
    if InsideReader(a) {
      WriterUntouchedByReader(s, a);
    }
  }

  lemma WriterUntouchedByReader(s: State, a: Action)
    requires Enabled(s, a) && InsideReader(a)
    ensures SameSink(s, Apply(s, a))
  {
    if !a.Report? && !a.Leave? {
      WriterUntouchedByRead(s, a);
    }
  }

  lemma WriterUntouchedByRead(s: State, a: Action)
    requires Enabled(s, a) && (a.Read? || a.Eof? || a.ReadFails?)
    ensures SameSink(s, Apply(s, a))
  {
  }

  lemma SinkStep(s: State, a: Action)
    requires SinkInv(s) && Enabled(s, a)
    ensures SinkInv(Apply(s, a))
  {
    if a.HandOver? {
      TextSnoc(s.log, Chunk(a.source, s.ReaderOf(a.source).phase.chunk));
    } else if InsideWriter(a) {
      WriterStep(s, a);
    } else {
      WriterUntouched(s, a);
    }
  }

  lemma WriterStep(s: State, a: Action)
    requires SinkInv(s) && Enabled(s, a) && InsideWriter(a)
    ensures SinkInv(Apply(s, a))
  {
    if a.Write? || a.WriteFails? {
      var n := if a.Write? then a.spilled else a.written;
      var text := s.buffered + s.writer.chunk;
      assert s.output + s.buffered + s.writer.chunk == (s.output + text[..n]) + text[n..];
    } else if a.FlushFails? {
      assert s.output + s.buffered == (s.output + s.buffered[..a.written]) + s.buffered[a.written..];
    }
  }

  lemma StepInv(s: State, a: Action, out: Bytes, err: Bytes)
    requires Inv(s, out, err) && Enabled(s, a)
    ensures Inv(Apply(s, a), out, err)
  {
    ControlStep(s, a);
    SourceStep(s, a, Stdout, out);
    SourceStep(s, a, Stderr, err);
    SinkStep(s, a);
  }

  /** In a state of the invariant nothing panics and no reader waits for room in the error channel. */
  lemma InvIsSafe(s: State)
    requires ControlInv(s)
    ensures !Panics(s) && !ReporterBlocked(s)
  {
  }

  // ------------------------------------------------------------------ progress and termination

  /** A step that some process can take, chosen so that it always exists while a started call is not over. */
  function NextAction(s: State): Action {
    if s.main == Starting then Start(true)
    else if s.main == Waiting then CommandEnds
    else if s.main == ClosingSink then CloseSink
    else if s.main == AwaitingDone && s.doneClosed then Finish
    else if s.writer.Writing? then Write(0)
    else if s.writer == Flushing then Flush
    else if s.writer == Signalling then SignalDone
    else if s.writer == Ranging && s.sinkClosed then SinkEnds
    else if s.stdout.phase != Left then ReaderAction(s, Stdout)
    else if s.stderr.phase != Left then ReaderAction(s, Stderr)
    else if s.waiter == Blocked then WaiterWakes
    else if s.waiter == ClosingErrors then CloseErrors
    else if s.errors != [] then DrainOne
    else DrainEnds
  }

  function ReaderAction(s: State, source: Source): Action {
    var r := s.ReaderOf(source);
    match r.phase
    case Reading => if r.unread == [] then Eof(source) else Read(source, 1)
    case Offering(_) => HandOver(source)
    case Reporting => Report(source)
    case Leaving => Leave(source)
    case Left => Leave(source)
  }

  lemma NoDeadlock(s: State)
    requires ControlInv(s) && !Over(s)
    ensures Enabled(s, NextAction(s))
  {
  }

  function ReaderRank(r: Reader): nat {
    match r.phase
    case Reading => 4 * |r.unread| + 4
    case Offering(_) => 4 * |r.unread| + 7
    case Reporting => 3
    case Leaving => 1
    case Left => 0
  }

  function WriterRank(w: WriterPhase): nat {
    match w
    case Writing(_) => 4
    case Ranging => 3
    case Flushing => 2
    case Signalling => 1
    case Ended => 0
  }

  function WaiterRank(w: WaiterPhase): nat {
    match w
    case Blocked => 2
    case ClosingErrors => 1
    case Gone => 0
  }

  function MainRank(m: MainPhase): nat {
    match m
    case Starting => 5
    case Waiting => 4
    case Draining => 3
    case ClosingSink => 2
    case AwaitingDone => 1
    case Returned => 0
    case StartFailed => 0
  }

  function Rank(s: State): nat {
    ReaderRank(s.stdout) + ReaderRank(s.stderr) + WriterRank(s.writer) + WaiterRank(s.waiter) + MainRank(s.main)
    + |s.errors|
  }

  lemma StepsDescend(s: State, a: Action)
    requires Enabled(s, a)
    ensures Rank(Apply(s, a)) < Rank(s)
  {
    if a.HandOver? || InsideReader(a) {
      ReaderStepDescends(s, a);
    }
  }

  lemma ReaderStepDescends(s: State, a: Action)
    requires Enabled(s, a) && (a.HandOver? || InsideReader(a))
    ensures Rank(Apply(s, a)) < Rank(s)
  {
    ReaderLeavesOthers(s, a);
    ReaderAndWriterDescend(s, a);
    OtherReaderStays(s, a);
  }

  lemma ReaderLeavesOthers(s: State, a: Action)
    requires Enabled(s, a) && (a.HandOver? || InsideReader(a))
    ensures Apply(s, a).main == s.main && Apply(s, a).waiter == s.waiter
  {
    if a.Report? || a.Leave? {
      ReportLeavesOthers(s, a);
    }
  }

  lemma ReportLeavesOthers(s: State, a: Action)
    requires Enabled(s, a) && (a.Report? || a.Leave?)
    ensures Apply(s, a).main == s.main && Apply(s, a).waiter == s.waiter
  {
  }

  lemma ReaderAndWriterDescend(s: State, a: Action)
    requires Enabled(s, a) && (a.HandOver? || InsideReader(a))
    ensures var t := Apply(s, a);
      ReaderRank(t.ReaderOf(a.source)) + WriterRank(t.writer) + |t.errors|
      < ReaderRank(s.ReaderOf(a.source)) + WriterRank(s.writer) + |s.errors|
  {
    var t := Apply(s, a);
    if a.HandOver? {
      assert t.ReaderOf(a.source) == s.ReaderOf(a.source).(phase := Reading);
    } else if a.Read? || a.Eof? || a.ReadFails? {
      ReadDescends(s, a);
    } else {
      ReportDescends(s, a);
    }
  }

  lemma ReadDescends(s: State, a: Action)
    requires Enabled(s, a) && (a.Read? || a.Eof? || a.ReadFails?)
    ensures Apply(s, a).writer == s.writer && Apply(s, a).errors == s.errors
    ensures ReaderRank(Apply(s, a).ReaderOf(a.source)) < ReaderRank(s.ReaderOf(a.source))
  {
    if a.Read? {
      ReadMoves(s, a);
    } else {
      ReadingEnds(s, a);
    }
  }

  lemma ReadingEnds(s: State, a: Action)
    requires Enabled(s, a) && (a.Eof? || a.ReadFails?)
    ensures ReaderRank(Apply(s, a).ReaderOf(a.source)) < ReaderRank(s.ReaderOf(a.source))
  {
  }

  lemma ReportDescends(s: State, a: Action)
    requires Enabled(s, a) && (a.Report? || a.Leave?)
    ensures Apply(s, a).writer == s.writer
    ensures ReaderRank(Apply(s, a).ReaderOf(a.source)) + |Apply(s, a).errors|
          < ReaderRank(s.ReaderOf(a.source)) + |s.errors|
  {
  }

  lemma OtherReaderStays(s: State, a: Action)
    requires Enabled(s, a) && (a.HandOver? || InsideReader(a))
    ensures a.source == Stdout ==> Apply(s, a).stderr == s.stderr
    ensures a.source == Stderr ==> Apply(s, a).stdout == s.stdout
  {
  }

  // ------------------------------------------------------------------ whole runs

  /** Executes the actions in order; None as soon as one of them is not possible. */
  function Run(s: State, actions: seq<Action>): Option<State>
    decreases |actions|
  {
    if actions == [] then Some(s)
    else if Enabled(s, actions[0]) then Run(Apply(s, actions[0]), actions[1..])
    else None
  }

  lemma {:induction false} RunInv(s: State, actions: seq<Action>, out: Bytes, err: Bytes)
    requires Inv(s, out, err) && Run(s, actions).Some?
    ensures Inv(Run(s, actions).value, out, err)
    ensures |actions| + Rank(Run(s, actions).value) <= Rank(s)
    decreases |actions|
  {
    if actions == [] {
    } else {
      StepInv(s, actions[0], out, err);
      StepsDescend(s, actions[0]);
      RunInv(Apply(s, actions[0]), actions[1..], out, err);
    }
  }

  /** Safety: no interleaving, whether or not the command starts and whatever the pipes and the destination do,
      reaches a state in which a process would send on a closed channel, close twice or block on reporting. */
  lemma EveryRunIsSafe(out: Bytes, err: Bytes, actions: seq<Action>)
    requires Run(Init(out, err), actions).Some?
    ensures !Panics(Run(Init(out, err), actions).value)
    ensures !ReporterBlocked(Run(Init(out, err), actions).value)
  {
    InitInv(out, err);
    RunInv(Init(out, err), actions, out, err);
    InvIsSafe(Run(Init(out, err), actions).value);
  }

  /** Liveness: a run has a bounded number of steps, and it can always be extended until the call returns. */
  lemma EveryRunEnds(out: Bytes, err: Bytes, actions: seq<Action>)
    requires Run(Init(out, err), actions).Some?
    ensures |actions| <= 4 * |out| + 4 * |err| + 18
    ensures var s := Run(Init(out, err), actions).value;
            !Over(s) ==> Enabled(s, NextAction(s))
  {
    InitInv(out, err);
    RunInv(Init(out, err), actions, out, err);
    var s := Run(Init(out, err), actions).value;
    if !Over(s) {
      NoDeadlock(s);
    }
  }

  /** Result: when the call returns, the output is an interleaving of a prefix of stdout and a prefix of stderr;
      a pipe read without error is there completely; a failing destination can only cut the output short. */
  lemma OutputIsAnInterleaving(out: Bytes, err: Bytes, actions: seq<Action>)
    returns (text: Bytes, fromOut: Bytes, fromErr: Bytes)
    requires Run(Init(out, err), actions).Some?
    requires Run(Init(out, err), actions).value.main == Returned
    ensures Interleaves(text, fromOut, fromErr)
    ensures fromOut <= out && fromErr <= err
    ensures var s := Run(Init(out, err), actions).value;
      && (!s.stdout.failed ==> fromOut == out)
      && (!s.stderr.failed ==> fromErr == err)
      && s.output <= text
      && (!s.broken ==> s.output == text)
  {
    InitInv(out, err);
    RunInv(Init(out, err), actions, out, err);
    var s := Run(Init(out, err), actions).value;
    text, fromOut, fromErr := Text(s.log), TextOf(s.log, Stdout), TextOf(s.log, Stderr);
    LogInterleaves(s.log);
  }

  /** The result for a clean run, with nothing left existential: all bytes of both pipes, each pipe in order. */
  lemma CleanRunDeliversEverything(out: Bytes, err: Bytes, actions: seq<Action>)
    requires Run(Init(out, err), actions).Some?
    requires var s := Run(Init(out, err), actions).value;
      s.main == Returned && !s.stdout.failed && !s.stderr.failed && !s.broken
    ensures Interleaves(Run(Init(out, err), actions).value.output, out, err)
  {
    var text, fromOut, fromErr := OutputIsAnInterleaving(out, err, actions);
  }

  // ------------------------------------------------------------------ how a run ends

  lemma {:induction false} RunConcat(s: State, a: seq<Action>, b: seq<Action>)
    requires Run(s, a).Some?
    ensures Run(s, a + b) == Run(Run(s, a).value, b)
    decreases |a|
  {
    if a == [] {
      assert a + b == b;
    } else {
      TailOfConcat(a, b);
      RunConcat(Apply(s, a[0]), a[1..], b);
    }
  }

  lemma RunSnoc(s: State, actions: seq<Action>, t: State, a: Action)
    requires Run(s, actions) == Some(t) && Enabled(t, a)
    ensures Run(s, actions + [a]) == Some(Apply(t, a))
  {
    RunConcat(s, actions, [a]);
    assert Run(Apply(t, a), []) == Some(Apply(t, a)) && [a][1..] == [];
  }

  predicate Started(s: State) {
    s.main != Starting && s.main != StartFailed
  }

  lemma MainMoves(s: State, a: Action)
    requires Enabled(s, a)
    ensures a == Start(true) ==> s.main == Starting && Started(Apply(s, a))
    ensures a == Start(false) ==> s.main == Starting && Apply(s, a).main == StartFailed
    ensures !a.Start? ==> Apply(s, a).main == s.main || (Started(s) && Started(Apply(s, a)))
  {
    if a.HandOver? || InsideReader(a) {
      ReaderLeavesOthers(s, a);
    }
  }

  /** Only the start of the command decides between the two ways a call can be over. */
  lemma {:induction false} StartDecides(s: State, actions: seq<Action>)
    requires Run(s, actions).Some?
    ensures var t := Run(s, actions).value;
      && (Start(true) in actions ==> s.main == Starting && Started(t))
      && (Start(false) in actions ==> s.main == Starting && t.main == StartFailed)
      && (Start(true) !in actions && Start(false) !in actions ==> Started(s) == Started(t))
      && (Start(true) !in actions && Start(false) !in actions ==> (s.main == StartFailed <==> t.main == StartFailed))
    decreases |actions|
  {
    if actions == [] {
    } else {
      MainMoves(s, actions[0]);
      StartDecides(Apply(s, actions[0]), actions[1..]);
      assert actions == [actions[0]] + actions[1..];
      assert actions[0].Start? ==> actions[0] == Start(true) || actions[0] == Start(false);
    }
  }

  /** A call whose command starts is over only when it has returned; one whose command does not start, only by that
      failure; and without a start it is not over. */
  lemma StartedCallReturns(out: Bytes, err: Bytes, actions: seq<Action>)
    requires Run(Init(out, err), actions).Some?
    ensures var t := Run(Init(out, err), actions).value;
      && (Start(true) in actions && Over(t) ==> t.main == Returned)
      && (Start(false) in actions ==> t.main == StartFailed)
      && (Start(true) !in actions && Start(false) !in actions ==> !Over(t))
  {
    StartDecides(Init(out, err), actions);
  }

  // ------------------------------------------------------------------ every run can be finished

  /** Neither reader has anything more to hand over. */
  predicate NothingToDeliver(s: State) {
    Drained(s.stdout) && Drained(s.stderr)
  }

  predicate Drained(r: Reader) {
    !r.phase.Offering? && (r.phase == Reading ==> r.unread == [])
  }

  /** A step that no failure of a pipe or of the destination takes part in. */
  predicate IsClean(a: Action) {
    !a.ReadFails? && !a.WriteFails? && !a.FlushFails?
  }

  /** t comes after s without a failure in between. */
  predicate Undisturbed(s: State, t: State) {
    && t.stdout.failed == s.stdout.failed && t.stderr.failed == s.stderr.failed && t.broken == s.broken
    && (s.broken ==> t.output == s.output)
    && (NothingToDeliver(s) ==> t.log == s.log && NothingToDeliver(t))
  }

  lemma DrainedStays(s: State, source: Source)
    requires Drained(s.ReaderOf(source)) && Enabled(s, ReaderAction(s, source))
    ensures Drained(Apply(s, ReaderAction(s, source)).ReaderOf(source)) && !ReaderAction(s, source).HandOver?
  {
  }

  lemma ReaderGoesOn(s: State, source: Source)
    requires ControlInv(s) && s.ReaderOf(source).phase != Left && Enabled(s, ReaderAction(s, source))
    ensures Undisturbed(s, Apply(s, ReaderAction(s, source)))
  {
    var a := ReaderAction(s, source);
    OtherReaderStays(s, a);
    if Drained(s.ReaderOf(source)) {
      DrainedStays(s, source);
    }
    if a.Read? {
      ReadMoves(s, a);
    } else if InsideReader(a) {
      OtherStepsMoveNothing(s, a);
    }
    if InsideReader(a) {
      WriterUntouchedByReader(s, a);
    }
  }

  lemma OthersGoOn(s: State, a: Action)
    requires Enabled(s, a) && IsClean(a) && !InsideReader(a) && !a.HandOver?
    ensures Undisturbed(s, Apply(s, a))
  {
    ReadersUntouched(s, a);
  }

  lemma NextIsUndisturbed(s: State)
    requires ControlInv(s) && !Over(s)
    ensures Enabled(s, NextAction(s)) && Undisturbed(s, Apply(s, NextAction(s)))
    ensures Apply(s, NextAction(s)).main != StartFailed
  {
    NoDeadlock(s);
    var a := NextAction(s);
    NextIsClean(s);
    MainMoves(s, a);
    if a.HandOver? || InsideReader(a) {
      ReaderGoesOn(s, a.source);
    } else {
      OthersGoOn(s, a);
    }
  }

  lemma NextIsClean(s: State)
    ensures var a := NextAction(s);
      && IsClean(a) && a != Start(false)
      && (a.HandOver? || InsideReader(a) ==> s.ReaderOf(a.source).phase != Left && a == ReaderAction(s, a.source))
  {
  }

  /** From every state of a call that did not fail to start, the steps of NextAction lead to its return. */
  lemma {:induction false} Finishes(s: State, out: Bytes, err: Bytes) returns (more: seq<Action>)
    requires Inv(s, out, err) && s.main != StartFailed
    ensures Run(s, more).Some? && Run(s, more).value.main == Returned
    ensures Undisturbed(s, Run(s, more).value)
    decreases Rank(s)
  {
    if s.main == Returned {
      more := [];
    } else {
      var a := NextAction(s);
      NextIsUndisturbed(s);
      StepInv(s, a, out, err);
      StepsDescend(s, a);
      var rest := Finishes(Apply(s, a), out, err);
      more := [a] + rest;
      assert more[1..] == rest;
    }
  }

  lemma CleanStep(s: State, a: Action)
    requires Enabled(s, a) && IsClean(a)
    ensures Apply(s, a).stdout.failed == s.stdout.failed && Apply(s, a).stderr.failed == s.stderr.failed
    ensures Apply(s, a).broken == s.broken
  {
    if a.HandOver? || InsideReader(a) {
      OtherReaderStays(s, a);
      if InsideReader(a) {
        WriterUntouchedByReader(s, a);
        if a.Read? {
          ReadMoves(s, a);
        } else {
          OtherStepsMoveNothing(s, a);
        }
      }
    } else {
      ReadersUntouched(s, a);
    }
  }

  lemma {:induction false} CleanRun(s: State, actions: seq<Action>)
    requires Run(s, actions).Some? && forall a <- actions :: IsClean(a)
    ensures var t := Run(s, actions).value;
      t.stdout.failed == s.stdout.failed && t.stderr.failed == s.stderr.failed && t.broken == s.broken
    decreases |actions|
  {
    if actions == [] {
    } else {
      CleanStep(s, actions[0]);
      CleanRun(Apply(s, actions[0]), actions[1..]);
    }
  }

  /** Every run whose command started can be extended until the call has returned; without failures so far the
      output is then an interleaving of all bytes of both pipes. */
  lemma StartedRunCanReturn(out: Bytes, err: Bytes, actions: seq<Action>) returns (more: seq<Action>)
    requires Run(Init(out, err), actions).Some? && Start(true) in actions
    ensures Run(Init(out, err), actions + more).Some?
    ensures Run(Init(out, err), actions + more).value.main == Returned
    ensures (forall a <- actions :: IsClean(a)) ==>
      Interleaves(Run(Init(out, err), actions + more).value.output, out, err)
  {
    var s := Run(Init(out, err), actions).value;
    InitInv(out, err);
    RunInv(Init(out, err), actions, out, err);
    StartDecides(Init(out, err), actions);
    more := Finishes(s, out, err);
    RunConcat(Init(out, err), actions, more);
    if forall a <- actions :: IsClean(a) {
      CleanRun(Init(out, err), actions);
      CleanRunDeliversEverything(out, err, actions + more);
    }
  }

  // ------------------------------------------------------------------ every interleaving is possible

  /** The chunks of one byte each. */
  function Singles(text: Bytes, marks: seq<Source>): (log: seq<Chunk>)
    requires |text| == |marks|
    ensures |log| == |text|
  {
    seq(|text|, i requires 0 <= i < |text| => Chunk(marks[i], [text[i]]))
  }

  /** The state in which `text` has been taken from the pipes byte by byte and is buffered; `fromOut` and `fromErr`
      bytes of it come from each pipe. */
  function Buffered(out: Bytes, err: Bytes, fromOut: nat, fromErr: nat, text: Bytes, marks: seq<Source>): State
    requires fromOut <= |out| && fromErr <= |err| && |text| == |marks|
  {
    State(Reader(Reading, out[fromOut..], false), Reader(Reading, err[fromErr..], false), 2, [], false, Blocked,
          false, Ranging, text, [], false, false, Starting, Singles(text, marks))
  }

  lemma SinglesSnoc(text: Bytes, marks: seq<Source>, last: bv8, mark: Source)
    requires |text| == |marks|
    ensures Singles(text + [last], marks + [mark]) == Singles(text, marks) + [Chunk(mark, [last])]
  {
  }

  lemma {:induction false} TextOfSingles(text: Bytes, marks: seq<Source>)
    requires |text| == |marks|
    ensures Text(Singles(text, marks)) == text
  {
    if text == [] {
    } else {
      var n := |text| - 1;
      TextOfSingles(text[..n], marks[..n]);
      SinglesSnoc(text[..n], marks[..n], text[n], marks[n]);
      assert text == text[..n] + [text[n]] && marks == marks[..n] + [marks[n]];
      TextSnoc(Singles(text[..n], marks[..n]), Chunk(marks[n], [text[n]]));
    }
  }

  /** The state after one byte has gone from a pipe to the writer. */
  function ByteTaken(s: State, source: Source, byte: bv8, rest: Bytes): State {
    var t := s.WithReader(source, Reader(Reading, rest, s.ReaderOf(source).failed));
    t.(writer := Writing([byte]), log := s.log + [Chunk(source, [byte])])
  }

  /** One byte goes from a pipe to the writer. */
  lemma ByteOffered(s: State, source: Source)
    requires s.ReaderOf(source).phase == Reading && s.ReaderOf(source).unread != []
    requires s.writer == Ranging && !s.sinkClosed
    ensures Run(s, [Read(source, 1), HandOver(source)])
         == Some(ByteTaken(s, source, s.ReaderOf(source).unread[0], s.ReaderOf(source).unread[1..]))
  {
    var r := s.ReaderOf(source);
    assert r.unread[..1] == [r.unread[0]];
    var a := Apply(s, Read(source, 1));
    assert a == s.WithReader(source, Reader(Offering([r.unread[0]]), r.unread[1..], r.failed));
    assert Run(s, []) == Some(s);
    RunSnoc(s, [], s, Read(source, 1));
    RunSnoc(s, [Read(source, 1)], a, HandOver(source));
    assert [] + [Read(source, 1)] == [Read(source, 1)];
    assert [Read(source, 1)] + [HandOver(source)] == [Read(source, 1), HandOver(source)];
  }

  /** A prefix that goes on with `last`: what is left of the whole starts with it. */
  lemma NextByte(whole: Bytes, before: Bytes, last: bv8)
    requires before + [last] <= whole
    ensures |before| < |whole| && whole[|before|..] != [] && whole[|before|..][0] == last
    ensures whole[|before|..][1..] == whole[|before + [last]|..]
  {
    assert (before + [last])[|before|] == last;
  }

  /** Buffered text with one more byte on its way to the writer. */
  function OneMore(out: Bytes, err: Bytes, fromOut: nat, fromErr: nat, text: Bytes, marks: seq<Source>,
                   last: bv8, mark: Source): State
    requires fromOut <= |out| && fromErr <= |err| && |text| == |marks|
  {
    Buffered(out, err, fromOut, fromErr, text, marks)
    .(writer := Writing([last]), log := Singles(text + [last], marks + [mark]))
  }

  lemma ByteIsOneMore(out: Bytes, err: Bytes, text: Bytes, marks: seq<Source>, last: bv8, mark: Source)
    requires |text| == |marks|
    requires Marked(text + [last], marks + [mark], Stdout) <= out
    requires Marked(text + [last], marks + [mark], Stderr) <= err
    ensures Marked(text, marks, Stdout) <= out && Marked(text, marks, Stderr) <= err
    ensures Run(Buffered(out, err, |Marked(text, marks, Stdout)|, |Marked(text, marks, Stderr)|, text, marks),
                [Read(mark, 1), HandOver(mark)])
         == Some(OneMore(out, err, |Marked(text + [last], marks + [mark], Stdout)|,
                         |Marked(text + [last], marks + [mark], Stderr)|, text, marks, last, mark))
  {
    var o, e := Marked(text, marks, Stdout), Marked(text, marks, Stderr);
    MarkedSnoc(text, marks, last, mark, Stdout);
    MarkedSnoc(text, marks, last, mark, Stderr);
    SinglesSnoc(text, marks, last, mark);
    if mark == Stdout {
      NextByte(out, o, last);
    } else {
      NextByte(err, e, last);
    }
    ByteOffered(Buffered(out, err, |o|, |e|, text, marks), mark);
  }

  lemma OneMoreIsBuffered(out: Bytes, err: Bytes, fromOut: nat, fromErr: nat, text: Bytes, marks: seq<Source>,
                          last: bv8, mark: Source)
    requires fromOut <= |out| && fromErr <= |err| && |text| == |marks|
    ensures var s := OneMore(out, err, fromOut, fromErr, text, marks, last, mark);
      && Enabled(s, Write(0))
      && Apply(s, Write(0)) == Buffered(out, err, fromOut, fromErr, text + [last], marks + [mark])
  {
  }

  lemma {:induction false} TextCanBeBuffered(out: Bytes, err: Bytes, text: Bytes, marks: seq<Source>)
    returns (actions: seq<Action>)
    requires |text| == |marks| && Marked(text, marks, Stdout) <= out && Marked(text, marks, Stderr) <= err
    ensures Run(Init(out, err), actions)
         == Some(Buffered(out, err, |Marked(text, marks, Stdout)|, |Marked(text, marks, Stderr)|, text, marks))
    decreases |text|, 0
  {
    if text == [] {
      actions := [];
      assert Singles(text, marks) == [];
    } else {
      var n := |text| - 1;
      assert text == text[..n] + [text[n]] && marks == marks[..n] + [marks[n]];
      var bytes := ByteCanBeOffered(out, err, text[..n], marks[..n], text[n], marks[n]);
      var o, e := |Marked(text, marks, Stdout)|, |Marked(text, marks, Stderr)|;
      OneMoreIsBuffered(out, err, o, e, text[..n], marks[..n], text[n], marks[n]);
      RunSnoc(Init(out, err), bytes, OneMore(out, err, o, e, text[..n], marks[..n], text[n], marks[n]), Write(0));
      actions := bytes + [Write(0)];
    }
  }

  lemma {:induction false} ByteCanBeOffered(out: Bytes, err: Bytes, text: Bytes, marks: seq<Source>,
                                            last: bv8, mark: Source)
    returns (actions: seq<Action>)
    requires |text| == |marks|
    requires Marked(text + [last], marks + [mark], Stdout) <= out
    requires Marked(text + [last], marks + [mark], Stderr) <= err
    ensures Run(Init(out, err), actions)
         == Some(OneMore(out, err, |Marked(text + [last], marks + [mark], Stdout)|,
                         |Marked(text + [last], marks + [mark], Stderr)|, text, marks, last, mark))
    decreases |text|, 1
  {
    ByteIsOneMore(out, err, text, marks, last, mark);
    var before := TextCanBeBuffered(out, err, text, marks);
    RunConcat(Init(out, err), before, [Read(mark, 1), HandOver(mark)]);
    actions := before + [Read(mark, 1), HandOver(mark)];
  }

  /** A reader with something left fails. */
  lemma ReaderMayFail(s: State, source: Source) returns (more: seq<Action>)
    requires s.ReaderOf(source).phase == Reading && !s.ReaderOf(source).failed
    ensures Run(s, more).Some? && more in [[], [ReadFails(source)]]
    ensures var r, t := s.ReaderOf(source), Run(s, more).value;
      && Drained(t.ReaderOf(source)) && (t.ReaderOf(source).failed <==> r.unread != [])
      && t == s.WithReader(source, t.ReaderOf(source))
  {
    if s.ReaderOf(source).unread == [] {
      more := [];
    } else {
      assert Run(s, []) == Some(s);
      RunSnoc(s, [], s, ReadFails(source));
      more := [ReadFails(source)];
      assert [] + more == more;
    }
  }

  /** From a state whose readers still read, the call can return with nothing more handed over. */
  lemma CanReturnWith(s: State, out: Bytes, err: Bytes) returns (more: seq<Action>, t: State)
    requires Inv(s, out, err) && s.main == Starting
    requires s.stdout.phase == Reading && s.stderr.phase == Reading && !s.stdout.failed && !s.stderr.failed
    ensures Run(s, more) == Some(t) && t.main == Returned && t.log == s.log && t.broken == s.broken
    ensures t.output == if s.broken then s.output else Text(s.log)
    ensures t.stdout.failed <==> s.stdout.unread != []
    ensures t.stderr.failed <==> s.stderr.unread != []
  {
    var first := ReaderMayFail(s, Stdout);
    var t1 := Run(s, first).value;
    var second := ReaderMayFail(t1, Stderr);
    var u := Run(t1, second).value;
    RunConcat(s, first, second);
    RunInv(s, first + second, out, err);
    var third := Finishes(u, out, err);
    RunConcat(s, first + second, third);
    more := (first + second) + third;
    RunInv(s, more, out, err);
    t := Run(s, more).value;
  }

  lemma ReturnAfter(out: Bytes, err: Bytes, before: seq<Action>, s: State) returns (actions: seq<Action>, t: State)
    requires Run(Init(out, err), before) == Some(s) && s.main == Starting
    requires s.stdout.phase == Reading && s.stderr.phase == Reading && !s.stdout.failed && !s.stderr.failed
    ensures Run(Init(out, err), actions) == Some(t) && t.main == Returned && t.broken == s.broken
    ensures t.output == if s.broken then s.output else Text(s.log)
    ensures t.stdout.failed <==> s.stdout.unread != []
    ensures t.stderr.failed <==> s.stderr.unread != []
  {
    InitInv(out, err);
    RunInv(Init(out, err), before, out, err);
    var more;
    more, t := CanReturnWith(s, out, err);
    RunConcat(Init(out, err), before, more);
    actions := before + more;
  }

  /** The converse of OutputIsAnInterleaving: every interleaving of prefixes of the pipes is the output of a run whose
      readers fail exactly where a pipe is cut short. */
  lemma EveryInterleavingIsPossible(out: Bytes, err: Bytes, fromOut: Bytes, fromErr: Bytes, text: Bytes)
    returns (actions: seq<Action>, t: State)
    requires fromOut <= out && fromErr <= err && Interleaves(text, fromOut, fromErr)
    ensures Run(Init(out, err), actions) == Some(t)
    ensures t.main == Returned && t.output == text && !t.broken
    ensures t.stdout.failed <==> fromOut != out
    ensures t.stderr.failed <==> fromErr != err
  {
    var marks: seq<Source> :| |marks| == |text| && Marked(text, marks, Stdout) == fromOut
                           && Marked(text, marks, Stderr) == fromErr;
    var before := TextCanBeBuffered(out, err, text, marks);
    TextOfSingles(text, marks);
    actions, t := ReturnAfter(out, err, before, Run(Init(out, err), before).value);
  }

  /** The write of the last byte fails. */
  lemma CutByLastWrite(out: Bytes, err: Bytes, text: Bytes, marks: seq<Source>, last: bv8, mark: Source, cut: nat)
    returns (actions: seq<Action>, t: State)
    requires |text| == |marks| && cut <= |text| + 1
    requires Marked(text + [last], marks + [mark], Stdout) <= out
    requires Marked(text + [last], marks + [mark], Stderr) <= err
    ensures Run(Init(out, err), actions) == Some(t)
    ensures t.main == Starting && t.broken && t.output == (text + [last])[..cut]
    ensures t.stdout == Reader(Reading, out[|Marked(text + [last], marks + [mark], Stdout)|..], false)
    ensures t.stderr == Reader(Reading, err[|Marked(text + [last], marks + [mark], Stderr)|..], false)
  {
    var before := ByteCanBeOffered(out, err, text, marks, last, mark);
    var s := Run(Init(out, err), before).value;
    RunSnoc(Init(out, err), before, s, WriteFails(cut));
    actions, t := before + [WriteFails(cut)], Apply(s, WriteFails(cut));
    assert [] + (text + [last])[..cut] == (text + [last])[..cut];
  }

  /** A failing destination may cut a text off anywhere. */
  lemma EveryCutIsPossible(out: Bytes, err: Bytes, fromOut: Bytes, fromErr: Bytes, text: Bytes, cut: nat)
    returns (actions: seq<Action>, t: State)
    requires fromOut <= out && fromErr <= err && Interleaves(text, fromOut, fromErr) && text != [] && cut <= |text|
    ensures Run(Init(out, err), actions) == Some(t)
    ensures t.main == Returned && t.output == text[..cut] && t.broken
    ensures t.stdout.failed <==> fromOut != out
    ensures t.stderr.failed <==> fromErr != err
  {
    var marks: seq<Source> :| |marks| == |text| && Marked(text, marks, Stdout) == fromOut
                           && Marked(text, marks, Stderr) == fromErr;
    var n := |text| - 1;
    assert text == text[..n] + [text[n]] && marks == marks[..n] + [marks[n]];
    var before, s := CutByLastWrite(out, err, text[..n], marks[..n], text[n], marks[n], cut);
    actions, t := ReturnAfter(out, err, before, s);
  }
}
