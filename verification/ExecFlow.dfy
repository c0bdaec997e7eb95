// Back-pressure around the exec pump: bounded queues, the three pipe threads and the
// command itself (quish-server/src/session.rs and quish-server/src/worker.rs). The
// pump waits for room in the stdin queue inside one arm of its `select!`, so while it
// waits it forwards no output. This module settles when it can wait for ever. The
// client is taken to read whatever it is sent.
module ExecFlow {
  /** Slots of each queue between the pump and a pipe thread. */
  const SLOTS: nat := 64

  /** The data frames the client sends in all, the bytes a pipe holds, and the most bytes
      one frame carries. */
  datatype Limits = Limits(frames: nat, pipe: nat, chunk: nat)

  datatype Pump = Selecting | Sending

  /** `left` is what a write still has to put into the pipe. */
  datatype Writer = Idle | Writing(left: nat) | Gone

  /** What the command is doing; `Busy` is everything that cannot block on a pipe. */
  datatype Command = Busy | Reads | PrintsOut | PrintsErr | Exited

  /** An output stream: bytes in the pipe, whether the reader thread holds a chunk, and
      the chunks queued for the pump. */
  datatype Stream = Stream(pipe: nat, held: bool, queue: nat)

  /** `taken` counts the data frames the pump has taken from the client. */
  datatype Flow = Flow(
    taken: nat, pump: Pump, inQueue: nat, writer: Writer, inPipe: nat, stdinClosed: bool,
    command: Command, out: Stream, err: Stream)

  const INIT := Flow(0, Selecting, 0, Idle, 0, false, Busy, Stream(0, false, 0), Stream(0, false, 0))

  datatype Action =
    | TakeFrame
    | Enqueue
    | ForwardOut
    | ForwardErr
    | WriterTakes(n: nat)
    | WriterWrites(n: nat)
    | WriterFails
    | Turn(next: Command)
    | CloseStdin
    | CommandReads(n: nat)
    | CommandPrints(n: nat)
    | ReadOut(n: nat)
    | ReadErr(n: nat)
    | PushOut
    | PushErr

  /** Whether an action can happen. */
  predicate Enabled(l: Limits, s: Flow, a: Action) {
    match a
    case TakeFrame => s.pump.Selecting? && s.taken < l.frames
    case Enqueue => s.pump.Sending? && (s.inQueue < SLOTS || s.writer.Gone?)
    case ForwardOut => s.pump.Selecting? && s.out.queue > 0
    case ForwardErr => s.pump.Selecting? && s.err.queue > 0
    case WriterTakes(n) => s.writer.Idle? && s.inQueue > 0 && n <= l.chunk
    case WriterWrites(n) =>
      s.writer.Writing? && !s.stdinClosed && 1 <= n <= s.writer.left && n <= l.pipe - s.inPipe
    case WriterFails => s.writer.Writing? && s.stdinClosed
    case Turn(_) => s.command.Busy?
    case CloseStdin => s.command.Busy?
    case CommandReads(n) => s.command.Reads? && 1 <= n <= s.inPipe
    case CommandPrints(n) =>
      || (s.command.PrintsOut? && 1 <= n <= l.pipe - s.out.pipe)
      || (s.command.PrintsErr? && 1 <= n <= l.pipe - s.err.pipe)
    case ReadOut(n) => !s.out.held && 1 <= n <= s.out.pipe
    case ReadErr(n) => !s.err.held && 1 <= n <= s.err.pipe
    case PushOut => s.out.held && s.out.queue < SLOTS
    case PushErr => s.err.held && s.err.queue < SLOTS
  }

  function Hold(left: nat): Writer { if left == 0 then Idle else Writing(left) }

  /** A writer that failed drops its queue, and later sends into it fail at once. */
  function Step(l: Limits, s: Flow, a: Action): Flow {
    if !Enabled(l, s, a) then s
    else match a
      case TakeFrame => s.(taken := s.taken + 1, pump := Sending)
      case Enqueue => s.(pump := Selecting, inQueue := if s.writer.Gone? then 0 else s.inQueue + 1)
      case ForwardOut => s.(out := s.out.(queue := s.out.queue - 1))
      case ForwardErr => s.(err := s.err.(queue := s.err.queue - 1))
      case WriterTakes(n) => s.(writer := Hold(n), inQueue := s.inQueue - 1)
      case WriterWrites(n) => s.(inPipe := s.inPipe + n, writer := Hold(s.writer.left - n))
      case WriterFails => s.(writer := Gone, inQueue := 0)
      case Turn(next) => s.(command := next, stdinClosed := s.stdinClosed || next.Exited?)
      case CloseStdin => s.(stdinClosed := true)
      case CommandReads(n) => s.(command := Busy, inPipe := s.inPipe - n)
      case CommandPrints(n) =>
        if s.command.PrintsOut? then s.(command := Busy, out := s.out.(pipe := s.out.pipe + n))
        else s.(command := Busy, err := s.err.(pipe := s.err.pipe + n))
      case ReadOut(n) => s.(out := s.out.(pipe := s.out.pipe - n, held := true))
      case ReadErr(n) => s.(err := s.err.(pipe := s.err.pipe - n, held := true))
      case PushOut => s.(out := s.out.(held := false, queue := s.out.queue + 1))
      case PushErr => s.(err := s.err.(held := false, queue := s.err.queue + 1))
  }

  function Run(l: Limits, s: Flow, actions: seq<Action>): Flow
    decreases |actions|
  {
    if actions == [] then s else Run(l, Step(l, s, actions[0]), actions[1..])
  }

  /** The pump is waiting in the stdin arm and nobody can move. */
  ghost predicate Stuck(l: Limits, s: Flow) {
    s.pump.Sending? && forall a :: !Enabled(l, s, a)
  }

  // ---- what a stuck state looks like --------------------------------------

  /** The frames that have left the queue for the writer. */
  function Written(s: Flow): int {
    s.taken - s.inQueue - (if s.pump.Sending? then 1 else 0)
  }

  ghost predicate Sized(l: Limits, s: Flow) {
    && s.taken <= l.frames && s.inQueue <= SLOTS && s.inPipe <= l.pipe
    && s.out.pipe <= l.pipe && s.err.pipe <= l.pipe && s.out.queue <= SLOTS && s.err.queue <= SLOTS
    && (s.command.Exited? ==> s.stdinClosed)
    && (s.writer.Writing? ==> s.writer.left >= 1)
    && 0 <= Written(s)
  }

  /** Bytes on their way to the command. */
  function Pending(s: Flow): nat { s.inPipe + if s.writer.Writing? then s.writer.left else 0 }

  ghost predicate Bounded(l: Limits, s: Flow) {
    Sized(l, s) && Pending(s) <= l.chunk * Written(s)
  }

  lemma StepStaysSized(l: Limits, s: Flow, a: Action)
    requires Sized(l, s)
    ensures Sized(l, Step(l, s, a))
  {
  }

  /** Each frame the writer gets brings at most one chunk. */
  lemma StepPays(l: Limits, s: Flow, a: Action)
    requires Sized(l, s)
    ensures var s' := Step(l, s, a);
            || (Written(s) <= Written(s') && Pending(s') <= Pending(s))
            || (Written(s') == Written(s) + 1 && Pending(s') <= Pending(s) + l.chunk)
  {
  }

  lemma Scale(chunk: nat, x: int, y: int)
    ensures x <= y ==> chunk * x <= chunk * y
    ensures chunk * (x + 1) == chunk * x + chunk
  {
  }

  lemma StepStaysBounded(l: Limits, s: Flow, a: Action)
    requires Bounded(l, s)
    ensures Bounded(l, Step(l, s, a))
  {
    StepStaysSized(l, s, a);
    StepPays(l, s, a);
    Scale(l.chunk, Written(s), Written(Step(l, s, a)));
  }

  lemma {:induction false} RunStaysBounded(l: Limits, s: Flow, actions: seq<Action>)
    requires Bounded(l, s)
    ensures Bounded(l, Run(l, s, actions))
    decreases |actions|
  {
    if actions != [] {
      StepStaysBounded(l, s, actions[0]);
      RunStaysBounded(l, Step(l, s, actions[0]), actions[1..]);
    }
  }

  /** The stream's pipe, reader and queue are all full. */
  ghost predicate Full(l: Limits, st: Stream) { st.pipe == l.pipe && st.held && st.queue == SLOTS }

  /** The stream's reader thread cannot move. */
  ghost predicate Still(st: Stream) { if st.held then st.queue == SLOTS else st.pipe == 0 }

  /** The cycle: the pump waits for the writer, the writer for the command, the command
      for a reader, and that reader for the pump. */
  ghost predicate Cycle(l: Limits, s: Flow) {
    && s.pump.Sending? && s.inQueue == SLOTS && s.writer.Writing? && !s.stdinClosed && s.inPipe == l.pipe
    && ((s.command.PrintsOut? && Full(l, s.out)) || (s.command.PrintsErr? && Full(l, s.err)))
    && Still(s.out) && Still(s.err)
  }

  /** Nobody can move while the pump waits exactly when all four wait for each other:
      there is no other way to be stuck, on either stream. */
  lemma StuckExactly(l: Limits, s: Flow)
    requires l.pipe >= 1 && Bounded(l, s)
    ensures Stuck(l, s) <==> Cycle(l, s)
  {
    if Stuck(l, s) {
      assert !Enabled(l, s, Enqueue) && !Enabled(l, s, WriterTakes(0));
      assert !Enabled(l, s, WriterWrites(1)) && !Enabled(l, s, WriterFails);
      assert !Enabled(l, s, Turn(Busy)) && !Enabled(l, s, CommandReads(1));
      assert !Enabled(l, s, CommandPrints(1));
      assert !Enabled(l, s, ReadOut(1)) && !Enabled(l, s, ReadErr(1));
      assert !Enabled(l, s, PushOut) && !Enabled(l, s, PushErr);
    }
  }

  /** Once stuck, nothing ever happens again. */
  lemma {:induction false} StuckForGood(l: Limits, s: Flow, actions: seq<Action>)
    requires Stuck(l, s)
    ensures Run(l, s, actions) == s
    decreases |actions|
  {
    if actions != [] {
      assert !Enabled(l, s, actions[0]);
      StuckForGood(l, s, actions[1..]);
    }
  }

  // ---- when it can happen -------------------------------------------------

  function Repeat(round: seq<Action>, n: nat): seq<Action> {
    if n == 0 then [] else round + Repeat(round, n - 1)
  }

  lemma {:induction false} RunAppend(l: Limits, s: Flow, a: seq<Action>, b: seq<Action>)
    ensures Run(l, s, a + b) == Run(l, Run(l, s, a), b)
    decreases |a|
  {
    if a == [] {
      assert a + b == b;
    } else {
      RunAppend(l, Step(l, s, a[0]), a[1..], b);
      assert (a + b)[1..] == a[1..] + b;
    }
  }

  /** Two actions in a row. */
  lemma RunTwo(l: Limits, s: Flow, a: Action, b: Action)
    ensures Run(l, s, [a, b]) == Step(l, Step(l, s, a), b)
  {
    var s1 := Step(l, s, a);
    assert [a, b][1..] == [b] && [b][1..] == [];
    assert Run(l, s1, [b]) == Run(l, Step(l, s1, b), []);
  }

  lemma RunFour(l: Limits, s: Flow, a: Action, b: Action, c: Action, d: Action)
    ensures Run(l, s, [a, b, c, d]) == Step(l, Step(l, Step(l, Step(l, s, a), b), c), d)
  {
    RunTwo(l, s, a, b);
    RunTwo(l, Run(l, s, [a, b]), c, d);
    RunAppend(l, s, [a, b], [c, d]);
    assert [a, b] + [c, d] == [a, b, c, d];
  }

  /** A frame taken, queued, picked up by the writer and written as far as `n`. */
  function WriteRound(l: Limits, n: nat): seq<Action> {
    [TakeFrame, Enqueue, WriterTakes(l.chunk), WriterWrites(n)]
  }

  lemma OneLess(n: nat, chunk: nat)
    requires n > 0
    ensures n * chunk == chunk + (n - 1) * chunk && (n - 1) * chunk >= 0
  {
  }

  lemma WriteOne(l: Limits, s: Flow)
    requires l.chunk >= 1 && s.pump.Selecting? && s.writer.Idle? && s.inQueue == 0 && !s.stdinClosed
    requires s.taken < l.frames && s.inPipe + l.chunk <= l.pipe
    ensures Run(l, s, WriteRound(l, l.chunk)) == s.(taken := s.taken + 1, inPipe := s.inPipe + l.chunk)
  {
    RunFour(l, s, TakeFrame, Enqueue, WriterTakes(l.chunk), WriterWrites(l.chunk));
  }

  /** Full frames pile up in the pipe while the command does not read. */
  lemma {:induction false} FillPipe(l: Limits, s: Flow, n: nat)
    requires l.chunk >= 1 && s.pump.Selecting? && s.writer.Idle? && s.inQueue == 0 && !s.stdinClosed
    requires s.taken + n <= l.frames && s.inPipe + n * l.chunk <= l.pipe
    ensures Run(l, s, Repeat(WriteRound(l, l.chunk), n)) == s.(taken := s.taken + n, inPipe := s.inPipe + n * l.chunk)
    decreases n
  {
    if n > 0 {
      var round := WriteRound(l, l.chunk);
      var s' := s.(taken := s.taken + 1, inPipe := s.inPipe + l.chunk);
      OneLess(n, l.chunk);
      WriteOne(l, s);
      FillPipe(l, s', n - 1);
      RunAppend(l, s, round, Repeat(round, n - 1));
    }
  }

  /** With the writer waiting, `n` more frames fill as many slots. */
  lemma {:induction false} FillQueue(l: Limits, s: Flow, n: nat)
    requires s.pump.Selecting? && s.writer.Writing? && s.taken + n <= l.frames && s.inQueue + n <= SLOTS
    ensures Run(l, s, Repeat([TakeFrame, Enqueue], n)) == s.(taken := s.taken + n, inQueue := s.inQueue + n)
    decreases n
  {
    if n > 0 {
      var round := [TakeFrame, Enqueue];
      var s' := s.(taken := s.taken + 1, inQueue := s.inQueue + 1);
      RunTwo(l, s, TakeFrame, Enqueue);
      RunAppend(l, s, round, Repeat(round, n - 1));
      FillQueue(l, s', n - 1);
    }
  }

  const PRINT_ROUND: seq<Action> := [Turn(PrintsOut), CommandPrints(1)]
  const READ_ROUND: seq<Action> := [ReadOut(1), PushOut]

  /** One chunk printed and queued. */
  lemma PrintOne(l: Limits, s: Flow)
    requires l.pipe >= 1 && s.command.Busy? && s.out.pipe == 0 && !s.out.held && s.out.queue < SLOTS
    ensures Run(l, s, PRINT_ROUND + READ_ROUND) == s.(out := s.out.(queue := s.out.queue + 1))
  {
    var s1 := s.(out := s.out.(pipe := 1));
    RunTwo(l, s, Turn(PrintsOut), CommandPrints(1));
    RunTwo(l, s1, ReadOut(1), PushOut);
    RunAppend(l, s, PRINT_ROUND, READ_ROUND);
  }

  lemma {:induction false} FillOutput(l: Limits, s: Flow, n: nat)
    requires l.pipe >= 1 && s.command.Busy? && s.out.pipe == 0 && !s.out.held && s.out.queue + n <= SLOTS
    ensures Run(l, s, Repeat(PRINT_ROUND + READ_ROUND, n)) == s.(out := s.out.(queue := s.out.queue + n))
    decreases n
  {
    if n > 0 {
      var round := PRINT_ROUND + READ_ROUND;
      PrintOne(l, s);
      RunAppend(l, s, round, Repeat(round, n - 1));
      FillOutput(l, s.(out := s.out.(queue := s.out.queue + 1)), n - 1);
    }
  }

  /** The frames it takes to fill a pipe and leave the writer holding a rest. */
  function PipeFrames(l: Limits): nat
    requires l.chunk >= 1
  {
    l.pipe / l.chunk + 1
  }

  lemma WholeFrames(pipe: nat, chunk: nat)
    requires chunk >= 1
    ensures 0 <= pipe - pipe / chunk * chunk < chunk
  {
    assert pipe == pipe / chunk * chunk + pipe % chunk;
  }

  /** Frames fill the pipe and block the writer, the next 64 fill the queue. */
  lemma InputFills(l: Limits) returns (actions: seq<Action>, s: Flow)
    requires l.pipe >= 1 && l.chunk >= 1 && l.frames >= PipeFrames(l) + SLOTS
    ensures Run(l, INIT, actions) == s
    ensures s.writer.Writing?
    ensures s == INIT.(taken := PipeFrames(l) + SLOTS, inQueue := SLOTS, writer := s.writer, inPipe := l.pipe)
  {
    var q := l.pipe / l.chunk;
    var rest := l.pipe - q * l.chunk;
    WholeFrames(l.pipe, l.chunk);
    var whole, part := Repeat(WriteRound(l, l.chunk), q), WriteRound(l, rest);
    var more := Repeat([TakeFrame, Enqueue], SLOTS);
    FillPipe(l, INIT, q);
    var s1 := INIT.(taken := q, inPipe := q * l.chunk);
    var s2 := INIT.(taken := q + 1, writer := Writing(l.chunk - rest), inPipe := l.pipe);
    RunFour(l, s1, part[0], part[1], part[2], part[3]);
    FillQueue(l, s2, SLOTS);
    RunAppend(l, INIT, whole, part + more);
    RunAppend(l, s1, part, more);
    actions := whole + (part + more);
    s := Run(l, s2, more);
  }

  /** With the queue full, one more chunk stays in the reader's hands, and the pump takes
      one more frame. */
  lemma HoldOne(l: Limits, s: Flow)
    requires l.pipe >= 1 && s.taken < l.frames && s.pump.Selecting? && s.command.Busy?
    requires s.out == Stream(0, false, SLOTS)
    ensures Run(l, s, [Turn(PrintsOut), CommandPrints(1), ReadOut(1), TakeFrame])
         == s.(out := Stream(0, true, SLOTS), taken := s.taken + 1, pump := Sending)
  {
    RunFour(l, s, Turn(PrintsOut), CommandPrints(1), ReadOut(1), TakeFrame);
  }

  /** The command fills its pipe and turns to print again. */
  lemma FillLast(l: Limits, s: Flow)
    requires l.pipe >= 1 && s.command.Busy? && s.out == Stream(0, true, SLOTS)
    ensures Run(l, s, [Turn(PrintsOut), CommandPrints(l.pipe), Turn(PrintsOut), PushOut])
         == s.(out := Stream(l.pipe, true, SLOTS), command := PrintsOut)
  {
    RunFour(l, s, Turn(PrintsOut), CommandPrints(l.pipe), Turn(PrintsOut), PushOut);
  }

  /** Then the command prints without reading: 64 chunks queued, one held, a full pipe,
      and the pump takes one more frame. */
  lemma OutputFills(l: Limits, s: Flow) returns (actions: seq<Action>, s': Flow)
    requires l.pipe >= 1 && s.taken < l.frames && s.pump.Selecting? && s.command.Busy? && s.out == Stream(0, false, 0)
    ensures Run(l, s, actions) == s'
    ensures s' == s.(taken := s.taken + 1, pump := Sending, command := PrintsOut, out := Stream(l.pipe, true, SLOTS))
  {
    var chunks := Repeat(PRINT_ROUND + READ_ROUND, SLOTS);
    var hold := [Turn(PrintsOut), CommandPrints(1), ReadOut(1), TakeFrame];
    var fill := [Turn(PrintsOut), CommandPrints(l.pipe), Turn(PrintsOut), PushOut];
    FillOutput(l, s, SLOTS);
    var s1 := s.(out := Stream(0, false, SLOTS));
    HoldOne(l, s1);
    var s2 := s1.(out := Stream(0, true, SLOTS), taken := s.taken + 1, pump := Sending);
    FillLast(l, s2);
    RunAppend(l, s, chunks, hold + fill);
    RunAppend(l, s1, hold, fill);
    actions := chunks + (hold + fill);
    s' := Run(l, s, actions);
  }

  lemma CanGetStuck(l: Limits)
    requires l.pipe >= 1 && l.chunk >= 1 && l.frames >= PipeFrames(l) + SLOTS + 1
    ensures exists actions :: Stuck(l, Run(l, INIT, actions))
  {
    var a, s := InputFills(l);
    var b, s' := OutputFills(l, s);
    RunAppend(l, INIT, a, b);
    RunStaysBounded(l, INIT, a + b);
    assert Cycle(l, s');
    StuckExactly(l, s');
    assert Stuck(l, Run(l, INIT, a + b));
  }

  lemma FramesForPipe(pipe: nat, chunk: nat, n: int)
    requires chunk >= 1 && pipe < chunk * n
    ensures n >= pipe / chunk + 1
  {
    WholeFrames(pipe, chunk);
    Scale(chunk, n, pipe / chunk);
  }

  /** The pump can be stuck in some run if and only if the client sends enough data
      frames: as many as fill the pipe and leave one half written, 64 for the queue, and
      one for the pump to wait with. */
  lemma StuckNeedsFrames(l: Limits)
    requires l.pipe >= 1 && l.chunk >= 1
    ensures (exists actions :: Stuck(l, Run(l, INIT, actions))) <==> l.frames >= PipeFrames(l) + SLOTS + 1
  {
    if l.frames >= PipeFrames(l) + SLOTS + 1 {
      CanGetStuck(l);
    }
    forall actions | Stuck(l, Run(l, INIT, actions)) ensures l.frames >= PipeFrames(l) + SLOTS + 1 {
      var s := Run(l, INIT, actions);
      RunStaysBounded(l, INIT, actions);
      StuckExactly(l, s);
      FramesForPipe(l.pipe, l.chunk, Written(s));
    }
  }

  // ---- when everybody does their part -------------------------------------

  /** Nothing is on its way in either direction. */
  ghost predicate AtRest(s: Flow) {
    && s.pump.Selecting? && s.inQueue == 0 && s.writer.Idle? && s.inPipe == 0 && !s.stdinClosed && s.command.Busy?
    && s.out == Stream(0, false, 0) && s.err == Stream(0, false, 0)
  }

  /** A frame that the pump takes reaches a command that reads, which is then free. */
  lemma FrameIsRead(l: Limits, s: Flow)
    requires l.pipe >= 1 && l.chunk >= 1 && s.taken < l.frames && AtRest(s)
    ensures var fed := Run(l, s, [TakeFrame, Enqueue, WriterTakes(1), WriterWrites(1)]);
            && fed == s.(taken := s.taken + 1, inPipe := 1)
            && Run(l, fed, [Turn(Reads), CommandReads(1)]) == s.(taken := s.taken + 1)
  {
    RunFour(l, s, TakeFrame, Enqueue, WriterTakes(1), WriterWrites(1));
    RunTwo(l, s.(taken := s.taken + 1, inPipe := 1), Turn(Reads), CommandReads(1));
  }

  /** What a command prints on stdout reaches the pump, which forwards it. */
  lemma OutIsForwarded(l: Limits, s: Flow)
    requires l.pipe >= 1 && AtRest(s)
    ensures var out := Run(l, s, [Turn(PrintsOut), CommandPrints(1), ReadOut(1), PushOut]);
            out == s.(out := Stream(0, false, 1)) && Step(l, out, ForwardOut) == s
  {
    RunFour(l, s, Turn(PrintsOut), CommandPrints(1), ReadOut(1), PushOut);
  }

  /** And so does what it prints on stderr. */
  lemma ErrIsForwarded(l: Limits, s: Flow)
    requires l.pipe >= 1 && AtRest(s)
    ensures var err := Run(l, s, [Turn(PrintsErr), CommandPrints(1), ReadErr(1), PushErr]);
            err == s.(err := Stream(0, false, 1)) && Step(l, err, ForwardErr) == s
  {
    RunFour(l, s, Turn(PrintsErr), CommandPrints(1), ReadErr(1), PushErr);
  }

  /** A command that closes its input never blocks the pump: the writer gives up, its
      queue is dropped, and later frames are discarded at once. */
  lemma ClosedInputDiscards(l: Limits, s: Flow)
    requires l.chunk >= 1 && s.taken + 2 <= l.frames && AtRest(s)
    ensures Run(l, s, [TakeFrame, Enqueue, WriterTakes(1), CloseStdin] + [WriterFails, TakeFrame, Enqueue, WriterFails])
         == s.(taken := s.taken + 2, writer := Gone, stdinClosed := true)
  {
    var s1 := s.(taken := s.taken + 1, writer := Writing(1), stdinClosed := true);
    RunFour(l, s, TakeFrame, Enqueue, WriterTakes(1), CloseStdin);
    RunFour(l, s1, WriterFails, TakeFrame, Enqueue, WriterFails);
    RunAppend(l, s, [TakeFrame, Enqueue, WriterTakes(1), CloseStdin], [WriterFails, TakeFrame, Enqueue, WriterFails]);
  }

  /** Frames still queued when the writer fails are lost. */
  lemma FailureDropsQueue(l: Limits, s: Flow)
    requires s.writer.Writing? && s.stdinClosed
    ensures Step(l, s, WriterFails) == s.(writer := Gone, inQueue := 0)
  {
  }
}
