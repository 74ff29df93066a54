/** The asynchronous logger: producers fill a front buffer, a timer callback moves it to the queue of the
    writer thread, and the writer thread puts the queued batches into the file, sleeping on a condition
    variable while the queue is empty (rocket/common/log.cpp). Each locked region is one step; steps of
    the three parties interleave in any order. */
module Loggers {

  type Line = string

  /** Where syncLoop is: outside, with the lines it has swapped out in hand, or between queueing them and
      signalling the writer. */
  datatype Sync = Idle | Holding(temp: seq<Line>) | Owing

  /** Where AsyncLogger::loop is: about to lock and look at the queue, waiting on the condition variable,
      writing what is left of a batch, or returned. */
  datatype Writer = Ready | Sleeping | Writing(rest: seq<Line>) | Stopped

  datatype Pipe = Pipe(front: seq<Line>, sync: Sync, queue: seq<seq<Line>>, writer: Writer,
                       written: seq<Line>, stop: bool)

  const START := Pipe([], Idle, [], Ready, [], false)

  datatype Step = Push(line: Line) | SyncSwap | SyncPush | SyncSignal
                | Check | WriteLine | Finish | Spurious | SetStop

  predicate Enabled(p: Pipe, s: Step) {
    match s
    case Push(_) => true
    case SyncSwap => p.sync.Idle?
    case SyncPush => p.sync.Holding?
    case SyncSignal => p.sync.Owing?
    case Check => p.writer.Ready?
    case WriteLine => p.writer.Writing? && p.writer.rest != []
    case Finish => p.writer.Writing? && p.writer.rest == []
    case Spurious => p.writer.Sleeping?
    case SetStop => true
  }

  /** pthread_cond_signal is lost unless the writer is waiting. */
  function Signal(w: Writer): Writer { if w.Sleeping? then Ready else w }

  function Swap(p: Pipe): Pipe {
    p.(front := [], sync := if p.front == [] then Idle else Holding(p.front))
  }

  function Look(p: Pipe): Pipe {
    if p.queue == [] then p.(writer := Sleeping) else p.(writer := Writing(p.queue[0]), queue := p.queue[1..])
  }

  function Next(p: Pipe, s: Step): Pipe
    requires Enabled(p, s)
  {
    match s
    case Push(line) => p.(front := p.front + [line])
    case SyncSwap => Swap(p)
    case SyncPush => p.(queue := p.queue + [p.sync.temp], sync := Owing)
    case SyncSignal => p.(writer := Signal(p.writer), sync := Idle)
    case Check => Look(p)
    case WriteLine => p.(writer := Writing(p.writer.rest[1..]), written := p.written + NonEmpty(p.writer.rest[..1]))
    case Finish => p.(writer := if p.stop then Stopped else Ready)
    case Spurious => p.(writer := Ready)
    case SetStop => p.(stop := true)
  }

  // ---------------------------------------------------------------- lines

  /** Empty lines are not written. */
  function NonEmpty(lines: seq<Line>): seq<Line> {
    if lines == [] then []
    else if lines[0] == "" then NonEmpty(lines[1..])
    else [lines[0]] + NonEmpty(lines[1..])
  }

  lemma Associate<T>(a: seq<T>, b: seq<T>, c: seq<T>)
    ensures (a + b) + c == a + (b + c)
  {
  }

  lemma {:induction false} NonEmptyConcat(a: seq<Line>, b: seq<Line>)
    ensures NonEmpty(a + b) == NonEmpty(a) + NonEmpty(b)
  {
    if a == [] {
      assert a + b == b;
    } else {
      NonEmptyConcat(a[1..], b);
      assert (a + b)[0] == a[0] && (a + b)[1..] == a[1..] + b;
      Associate([a[0]], NonEmpty(a[1..]), NonEmpty(b));
    }
  }

  function Count(lines: seq<Line>, line: Line): nat {
    if lines == [] then 0 else (if lines[0] == line then 1 else 0) + Count(lines[1..], line)
  }

  /** Each line with text is as often in the one as in the other. */
  ghost predicate SameText(a: seq<Line>, b: seq<Line>) {
    forall line :: |line| > 0 ==> Count(a, line) == Count(b, line)
  }

  ghost predicate AllText(lines: seq<Line>) { forall i :: 0 <= i < |lines| ==> |lines[i]| > 0 }

  /** What is kept are exactly the lines with text in them, each as often as it is there. */
  lemma {:induction false} NonEmptyKeepsText(lines: seq<Line>)
    ensures AllText(NonEmpty(lines)) && SameText(NonEmpty(lines), lines)
    ensures AllText(lines) ==> NonEmpty(lines) == lines
  {
    if lines != [] {
      NonEmptyKeepsText(lines[1..]);
      var kept := NonEmpty(lines[1..]);
      assert lines == [lines[0]] + lines[1..];
      forall line | |line| > 0 ensures Count(NonEmpty(lines), line) == Count(lines, line) {
        assert Count(kept, line) == Count(lines[1..], line);
        assert ([lines[0]] + kept)[1..] == kept;
      }
    }
  }

  lemma {:induction false} CountPrefix(a: seq<Line>, b: seq<Line>, line: Line)
    ensures Count(a, line) <= Count(a + b, line)
  {
    if a != [] {
      CountPrefix(a[1..], b, line);
      assert (a + b)[1..] == a[1..] + b;
    }
  }

  function Flatten(batches: seq<seq<Line>>): seq<Line> {
    if batches == [] then [] else batches[0] + Flatten(batches[1..])
  }

  lemma {:induction false} FlattenMore(batches: seq<seq<Line>>, batch: seq<Line>)
    ensures Flatten(batches + [batch]) == Flatten(batches) + batch
  {
    if batches == [] {
      assert batches + [batch] == [batch];
    } else {
      FlattenMore(batches[1..], batch);
      assert (batches + [batch])[1..] == batches[1..] + [batch];
    }
  }

  function InHand(p: Pipe): seq<Line> { if p.writer.Writing? then p.writer.rest else [] }

  function SwappedOut(p: Pipe): seq<Line> { if p.sync.Holding? then p.sync.temp else [] }

  /** Every line on its way to the file, the oldest first. */
  function Unwritten(p: Pipe): seq<Line> {
    InHand(p) + Flatten(p.queue) + SwappedOut(p) + p.front
  }

  // ---------------------------------------------------------------- the invariant

  ghost predicate Inv(p: Pipe, pushed: seq<Line>) { Conserved(p, pushed) && Orderly(p) }

  ghost predicate Conserved(p: Pipe, pushed: seq<Line>) {
    NonEmpty(pushed) == p.written + NonEmpty(Unwritten(p))
  }

  ghost predicate Orderly(p: Pipe) {
    && (p.writer.Sleeping? && p.queue != [] ==> p.sync.Owing?)
    && (p.sync.Holding? ==> p.sync.temp != [])
    && (forall i :: 0 <= i < |p.queue| ==> p.queue[i] != [])
    && (p.writer.Stopped? ==> p.stop)
  }

  function Pushed(s: Step): seq<Line> { if s.Push? then [s.line] else [] }

  /** A step but for a push and a write leaves the lines on their way as they are. */
  lemma StepMovesLines(p: Pipe, s: Step)
    requires Enabled(p, s)
    ensures s.WriteLine? ==> Unwritten(p) == p.writer.rest[..1] + Unwritten(Next(p, s))
    ensures !s.WriteLine? ==> Unwritten(Next(p, s)) == Unwritten(p) + Pushed(s)
  {
    hide NonEmpty;
    var h, q, t, f := InHand(p), Flatten(p.queue), SwappedOut(p), p.front;
    match s {
      case Push(line) => Associate(h + q + t, f, [line]);
      case SyncSwap => assert h + q + [] + f == h + q + f + [];
      case SyncPush =>
        FlattenMore(p.queue, t);
        Associate(h, q, t);
        assert h + (q + t) + [] == h + (q + t);
      case Check =>
        if p.queue != [] {
          assert p.queue[0] + Flatten(p.queue[1..]) == [] + q;
        }
      case WriteLine =>
        assert h == h[..1] + h[1..];
        Associate(h[..1], h[1..], q);
        Associate(h[..1], h[1..] + q, t);
        Associate(h[..1], h[1..] + q + t, f);
      case _ =>
    }
  }

  lemma StepKeepsLines(p: Pipe, s: Step, pushed: seq<Line>)
    requires Conserved(p, pushed) && Enabled(p, s)
    ensures Conserved(Next(p, s), pushed + Pushed(s))
  {
    StepMovesLines(p, s);
    NonEmptyConcat(pushed, Pushed(s));
    if s.WriteLine? {
      WriteKeepsLines(p, pushed);
      assert pushed + Pushed(s) == pushed;
    } else {
      NonEmptyConcat(Unwritten(p), Pushed(s));
      hide Unwritten, NonEmpty;
      Associate(p.written, NonEmpty(Unwritten(p)), NonEmpty(Pushed(s)));
    }
  }

  lemma WriteKeepsLines(p: Pipe, pushed: seq<Line>)
    requires Conserved(p, pushed) && Enabled(p, WriteLine)
    ensures Conserved(Next(p, WriteLine), pushed)
  {
    StepMovesLines(p, WriteLine);
    var first, later := p.writer.rest[..1], Unwritten(Next(p, WriteLine));
    NonEmptyConcat(first, later);
    hide Unwritten, NonEmpty;
    Associate(p.written, NonEmpty(first), NonEmpty(later));
  }

  lemma StepKeeps(p: Pipe, s: Step, pushed: seq<Line>)
    requires Inv(p, pushed) && Enabled(p, s)
    ensures Inv(Next(p, s), pushed + Pushed(s))
  {
    hide Conserved, NonEmpty;
    StepKeepsLines(p, s, pushed);
  }

  ghost predicate RunEnabled(p: Pipe, steps: seq<Step>)
    decreases |steps|
  {
    steps == [] || (Enabled(p, steps[0]) && RunEnabled(Next(p, steps[0]), steps[1..]))
  }

  function Run(p: Pipe, steps: seq<Step>): Pipe
    requires RunEnabled(p, steps)
    decreases |steps|
  {
    if steps == [] then p else Run(Next(p, steps[0]), steps[1..])
  }

  function AllPushed(steps: seq<Step>): seq<Line> {
    if steps == [] then [] else Pushed(steps[0]) + AllPushed(steps[1..])
  }

  lemma {:induction false} RunKeeps(p: Pipe, steps: seq<Step>, pushed: seq<Line>)
    requires Inv(p, pushed) && RunEnabled(p, steps)
    ensures Inv(Run(p, steps), pushed + AllPushed(steps))
    decreases |steps|
  {
    hide Conserved, Orderly, Next;
    if steps == [] {
      assert pushed + AllPushed(steps) == pushed;
    } else {
      StepKeeps(p, steps[0], pushed);
      RunKeeps(Next(p, steps[0]), steps[1..], pushed + Pushed(steps[0]));
      assert pushed + AllPushed(steps) == pushed + Pushed(steps[0]) + AllPushed(steps[1..]);
    }
  }

  /** However producers, syncLoop and the writer interleave: the lines pushed, empty ones aside, are what
      is written, followed by what the writer still has in hand, the queue, what syncLoop has swapped out
      and the front buffer, in this order; and the writer never sleeps on a queued batch unless its
      signal is still to come. */
  lemma NoLineIsLost(steps: seq<Step>)
    requires RunEnabled(START, steps)
    ensures var p := Run(START, steps);
            && NonEmpty(AllPushed(steps))
               == p.written + NonEmpty(InHand(p) + Flatten(p.queue) + SwappedOut(p) + p.front)
            && (p.writer.Sleeping? && p.queue != [] ==> p.sync.Owing?)
  {
    RunKeeps(START, steps, []);
    assert [] + AllPushed(steps) == AllPushed(steps);
  }

  /** At any time the file holds only lines with text, none more often than it was pushed; and if all lines
      pushed have text, the file is the front of what was pushed. */
  lemma FileHoldsTheFront(steps: seq<Step>)
    requires RunEnabled(START, steps)
    ensures var p, pushed := Run(START, steps), AllPushed(steps);
            && AllText(p.written)
            && (forall line :: |line| > 0 ==> Count(p.written, line) <= Count(pushed, line))
            && (AllText(pushed) ==> p.written <= pushed)
  {
    var p, pushed := Run(START, steps), AllPushed(steps);
    NoLineIsLost(steps);
    NonEmptyKeepsText(pushed);
    var rest := NonEmpty(InHand(p) + Flatten(p.queue) + SwappedOut(p) + p.front);
    hide NonEmpty, Run, RunEnabled, AllPushed, InHand, SwappedOut, Count;
    var kept := NonEmpty(pushed);
    assert kept == p.written + rest;
    assert AllText(p.written) by {
      forall i | 0 <= i < |p.written| ensures |p.written[i]| > 0 {
        assert p.written[i] == kept[i];
      }
    }
    forall line | |line| > 0 ensures Count(p.written, line) <= Count(pushed, line) {
      CountPrefix(p.written, rest, line);
    }
  }

  // ---------------------------------------------------------------- stopping

  /** A writer that is told to stop ends after the batch it is at, and its file does not change any more. */
  lemma StopEndsTheWriter(p: Pipe)
    ensures Next(p, SetStop).stop
    ensures Enabled(p, Finish) ==>
              && Next(p, Finish).writer == (if p.stop then Stopped else Ready)
              && Next(p, Finish) == p.(writer := Next(p, Finish).writer)
    ensures forall s :: Enabled(p, s) && p.stop ==> Next(p, s).stop
    ensures forall s :: Enabled(p, s) && p.writer.Stopped? ==>
              Next(p, s).writer.Stopped? && Next(p, s).written == p.written
  {
  }

  /** A signal wakes a sleeping writer and is lost on any other; a push and a swap leave the writer. */
  lemma SignalWakes(p: Pipe)
    ensures Enabled(p, SyncSignal) ==>
              Next(p, SyncSignal).writer == if p.writer.Sleeping? then Ready else p.writer
    ensures Enabled(p, Check) ==> (Next(p, Check).writer.Sleeping? <==> p.queue == [])
    ensures forall s :: Enabled(p, s) && (s.Push? || s.SyncSwap? || s.SyncPush?) ==>
              Next(p, s).writer == p.writer && Next(p, s).written == p.written
  {
  }

  // ---------------------------------------------------------------- draining

  /** Steps that move lines towards the file, or finish such a move. */
  predicate Useful(p: Pipe, s: Step) {
    && Enabled(p, s)
    && match s
       case SyncSwap => p.front != []
       case SyncPush | SyncSignal | WriteLine | Finish => true
       case Check => p.queue != []
       case Push(_) | Spurious | SetStop => false
  }

  /** Each line weighs less the further it has come. */
  function Distance(p: Pipe): nat {
    6 * |p.front| + 5 * |SwappedOut(p)| + 3 * |Flatten(p.queue)| + |InHand(p)|
    + (if p.sync.Owing? then 1 else 0) + (if p.writer.Writing? then 1 else 0)
  }

  lemma UsefulStepsComeCloser(p: Pipe, s: Step, pushed: seq<Line>)
    requires Inv(p, pushed) && Enabled(p, s) && !s.Push?
    ensures if Useful(p, s) then Distance(Next(p, s)) < Distance(p) else Distance(Next(p, s)) == Distance(p)
  {
    if s.SyncPush? { FlattenMore(p.queue, p.sync.temp); }
  }

  /** Unless the writer was told to stop, some useful step can be taken exactly while a line is on its way
      or a move is unfinished. */
  lemma NeverStuck(p: Pipe, pushed: seq<Line>)
    requires Inv(p, pushed) && !p.writer.Stopped?
    ensures (exists s :: Useful(p, s)) <==> Distance(p) > 0
  {
    if p.sync.Owing? {
      assert Useful(p, SyncSignal);
    } else if p.sync.Holding? {
      assert Useful(p, SyncPush);
    } else if p.front != [] {
      assert Useful(p, SyncSwap);
    } else if p.writer.Writing? {
      assert Useful(p, if p.writer.rest == [] then Finish else WriteLine);
    } else if p.queue != [] {
      assert Useful(p, Check);
    } else {
      assert Distance(p) == 0;
    }
  }

  function UsefulCount(p: Pipe, steps: seq<Step>): nat
    requires RunEnabled(p, steps)
    decreases |steps|
  {
    if steps == [] then 0
    else (if Useful(p, steps[0]) then 1 else 0) + UsefulCount(Next(p, steps[0]), steps[1..])
  }

  /** Once nobody pushes, useful steps run out, whatever else happens between them: no run takes more than
      Distance of them. */
  lemma {:induction false} UsefulStepsRunOut(p: Pipe, steps: seq<Step>, pushed: seq<Line>)
    requires Inv(p, pushed) && RunEnabled(p, steps) && AllPushed(steps) == []
    ensures UsefulCount(p, steps) + Distance(Run(p, steps)) <= Distance(p)
    decreases |steps|
  {
    if steps != [] {
      assert Pushed(steps[0]) == [];
      StepKeeps(p, steps[0], pushed);
      UsefulStepsComeCloser(p, steps[0], pushed);
      assert pushed + Pushed(steps[0]) == pushed;
      UsefulStepsRunOut(Next(p, steps[0]), steps[1..], pushed);
    }
  }

  /** A run after which no useful step is left has written every line that was pushed, each once and in
      the order of the pushes. */
  lemma EverythingIsWritten(steps: seq<Step>)
    requires RunEnabled(START, steps)
    requires var p := Run(START, steps); !p.writer.Stopped? && forall s :: !Useful(p, s)
    ensures Run(START, steps).written == NonEmpty(AllPushed(steps))
    ensures SameText(Run(START, steps).written, AllPushed(steps)) && AllText(Run(START, steps).written)
    ensures AllText(AllPushed(steps)) ==> Run(START, steps).written == AllPushed(steps)
  {
    RunKeeps(START, steps, []);
    assert [] + AllPushed(steps) == AllPushed(steps);
    hide Run, RunEnabled, AllPushed, Inv, Useful, NonEmpty, SameText, AllText;
    StuckIsDone(Run(START, steps), AllPushed(steps));
    NonEmptyKeepsText(AllPushed(steps));
  }

  lemma StuckIsDone(p: Pipe, pushed: seq<Line>)
    requires Inv(p, pushed) && !p.writer.Stopped? && forall s :: !Useful(p, s)
    ensures p.written == NonEmpty(pushed)
  {
    NeverStuck(p, pushed);
    hide Useful;
    assert Unwritten(p) == [];
  }

  // ---------------------------------------------------------------- the classes

  /** A whole batch written, and the writer back at the queue or gone. */
  function WrittenOut(p: Pipe): Pipe
    requires p.writer.Writing?
  {
    p.(written := p.written + NonEmpty(p.writer.rest), writer := if p.stop then Stopped else Ready)
  }

  /** The steps that write `n` lines and finish. */
  function WritingOut(n: nat): seq<Step> {
    if n == 0 then [Finish] else [WriteLine] + WritingOut(n - 1)
  }

  lemma {:induction false} WritingOutIsSteps(p: Pipe)
    requires p.writer.Writing?
    ensures var steps := WritingOut(|p.writer.rest|);
            RunEnabled(p, steps) && Run(p, steps) == WrittenOut(p)
    decreases |p.writer.rest|
  {
    var rest := p.writer.rest;
    if rest == [] {
      assert WritingOut(0)[1..] == [];
      assert p.written + NonEmpty(rest) == p.written;
    } else {
      assert WritingOut(|rest|)[1..] == WritingOut(|rest| - 1);
      WritingOutIsSteps(Next(p, WriteLine));
      assert rest[..1] + rest[1..] == rest;
      NonEmptyConcat(rest[..1], rest[1..]);
      hide NonEmpty;
      Associate(p.written, NonEmpty(rest[..1]), NonEmpty(rest[1..]));
    }
  }

  class AsyncLogger {
    var buffer: seq<seq<Line>>
    var writer: Writer
    /** The lines in the file. */
    var written: seq<Line>
    var stopFlag: bool

    constructor ()
      ensures buffer == [] && writer == Ready && written == [] && !stopFlag
    {
      buffer, writer, written, stopFlag := [], Ready, [], false;
    }

    function Behind(front: seq<Line>, sync: Sync): Pipe
      reads this
    {
      Pipe(front, sync, buffer, writer, written, stopFlag)
    }

    method PushLogBuffer(vec: seq<Line>)
      modifies this
      ensures buffer == old(buffer) + [vec] && writer == Signal(old(writer))
      ensures written == old(written) && stopFlag == old(stopFlag)
    {
      buffer := buffer + [vec];
      if writer == Sleeping {
        writer := Ready;
      }
    }

    /** The writer locks and looks at the queue. */
    method LookAtQueue(ghost front: seq<Line>, ghost sync: Sync)
      requires writer == Ready
      modifies this
      ensures Behind(front, sync) == Next(old(Behind(front, sync)), Check)
    {
      if buffer == [] {
        writer := Sleeping;
        return;
      }
      var temp := buffer[0];
      buffer := buffer[1..];
      writer := Writing(temp);
    }

    /** The writer puts its batch into the file, line by line, and goes back to the queue. */
    method WriteBatch(ghost front: seq<Line>, ghost sync: Sync)
      requires writer.Writing?
      modifies this
      ensures Behind(front, sync) == WrittenOut(old(Behind(front, sync)))
    {
      var temp := writer.rest;
      while temp != []
        invariant writer == Writing(temp)
        invariant buffer == old(buffer) && stopFlag == old(stopFlag)
        invariant written + NonEmpty(temp) == old(written + NonEmpty(writer.rest))
      {
        if temp[0] != "" {
          written := written + [temp[0]];
        }
        temp := temp[1..];
        writer := Writing(temp);
      }
      if stopFlag {
        writer := Stopped;
      } else {
        writer := Ready;
      }
    }

    method SetStopFlag()
      modifies this
      ensures stopFlag && buffer == old(buffer) && writer == old(writer) && written == old(written)
    {
      stopFlag := true;
    }
  }

  /** syncLoop from beginning to end, with nothing in between. */
  ghost function SyncRound(p: Pipe): Pipe
    requires p.sync.Idle?
  {
    var p1 := Next(p, SyncSwap);
    if p1.sync.Idle? then p1 else Next(Next(p1, SyncPush), SyncSignal)
  }

  class Logger {
    const asyncLogger: AsyncLogger
    const asyncAppLogger: AsyncLogger
    var buffer: seq<Line>
    var appBuffer: seq<Line>

    ghost predicate Valid() { asyncLogger != asyncAppLogger }

    constructor ()
      ensures Valid() && Rpc() == START && App() == START
    {
      asyncLogger := new AsyncLogger();
      asyncAppLogger := new AsyncLogger();
      buffer, appBuffer := [], [];
    }

    function Rpc(): Pipe
      reads this, asyncLogger
    {
      asyncLogger.Behind(buffer, Idle)
    }

    function App(): Pipe
      reads this, asyncAppLogger
    {
      asyncAppLogger.Behind(appBuffer, Idle)
    }

    method PushLog(msg: Line)
      modifies this`buffer
      ensures Rpc() == Next(old(Rpc()), Push(msg)) && App() == old(App())
    {
      buffer := buffer + [msg];
    }

    method PushAppLog(msg: Line)
      modifies this`appBuffer
      ensures App() == Next(old(App()), Push(msg)) && Rpc() == old(Rpc())
    {
      appBuffer := appBuffer + [msg];
    }

    method SyncLoop()
      requires Valid()
      modifies this, asyncLogger, asyncAppLogger
      ensures Rpc() == SyncRound(old(Rpc())) && App() == SyncRound(old(App()))
    {
      var tempVec := buffer;
      buffer := [];
      if tempVec != [] {
        asyncLogger.PushLogBuffer(tempVec);
      }
      var tempVec2 := appBuffer;
      appBuffer := [];
      if tempVec2 != [] {
        asyncAppLogger.PushLogBuffer(tempVec2);
      }
    }
  }
}
