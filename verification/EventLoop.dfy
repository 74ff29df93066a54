/** One event loop: its task queue, its epoll bookkeeping, and the event descriptors it watches
    (rocket/net/eventloop.cpp, rocket/net/fd_event.cpp). */
module EventLoops {
  import opened Options

  // ---------------------------------------------------------------- event descriptors

  datatype Dir = In | Out

  /** What a std::function held by the loop does: nothing when it is null, resume a coroutine, or some
      other work of the thread. */
  datatype Callback = Null | ResumeCor(cor: nat) | Service(id: nat)

  datatype FdState = FdState(mask: set<Dir>, read: Callback, write: Callback, error: Callback)

  function Handler(e: FdState, d: Dir): Callback { if d.In? then e.read else e.write }

  function ListenOn(e: FdState, d: Dir, cb: Callback, errorCb: Callback): FdState {
    var error := if e.error.Null? then errorCb else Null;
    if d.In? then FdState(e.mask + {In}, cb, e.write, error) else FdState(e.mask + {Out}, e.read, cb, error)
  }

  /** Cancelling clears the interest bit and leaves the callback. */
  function CancelOn(e: FdState, d: Dir): FdState { e.(mask := e.mask - {d}) }

  /** Listening sets one bit and one callback; the error callback is taken over if there was none, and
      cleared otherwise. */
  lemma ListenSetsOne(e: FdState, d: Dir, cb: Callback, errorCb: Callback)
    ensures var e' := ListenOn(e, d, cb, errorCb);
            && e'.mask == e.mask + {d} && Handler(e', d) == cb
            && (forall x :: x != d ==> Handler(e', x) == Handler(e, x))
            && e'.error == (if e.error == Null then errorCb else Null)
  {
  }

  lemma CancelClearsOne(e: FdState, d: Dir)
    ensures var e' := CancelOn(e, d);
            e'.mask == e.mask - {d} && e'.error == e.error && forall x :: Handler(e', x) == Handler(e, x)
  {
  }

  class FdEvent {
    const fd: int
    var listenEvents: set<Dir>
    var readCallback: Callback
    var writeCallback: Callback
    var errorCallback: Callback

    constructor (fd: int)
      ensures this.fd == fd && State() == FdState({}, Null, Null, Null)
    {
      this.fd := fd;
      listenEvents, readCallback, writeCallback, errorCallback := {}, Null, Null, Null;
    }

    function State(): FdState
      reads this
    {
      FdState(listenEvents, readCallback, writeCallback, errorCallback)
    }

    method Listen(eventType: Dir, callback: Callback, errorCb: Callback)
      modifies this
      ensures State() == ListenOn(old(State()), eventType, callback, errorCb)
    {
      if eventType == In {
        listenEvents := listenEvents + {In};
        readCallback := callback;
      } else {
        listenEvents := listenEvents + {Out};
        writeCallback := callback;
      }
      if errorCallback == Null {
        errorCallback := errorCb;
      } else {
        errorCallback := Null;
      }
    }

    method Cancel(eventType: Dir)
      modifies this
      ensures State() == CancelOn(old(State()), eventType)
    {
      if eventType == In {
        listenEvents := listenEvents - {In};
      } else {
        listenEvents := listenEvents - {Out};
      }
    }
  }

  // ---------------------------------------------------------------- the loop as a value

  /** Work of a coroutine or the thread, or a registration or its end put off from another thread. */
  datatype Task = Run(cb: Callback) | AddFd(fd: int) | DelFd(fd: int)

  /** Top: about to take the pending tasks. Running: it took them and has not yet come back from
      epoll_wait. */
  datatype Phase = Top | Running

  /** `kernel` is the interest set inside the epoll descriptor. `enqueued` and `executed` record every
      task that was ever pushed, and every task that was taken off the batch. */
  datatype Loop = Loop(phase: Phase, pending: seq<Task>, batch: seq<Task>,
                       listenFds: set<int>, kernel: map<int, set<Dir>>,
                       enqueued: seq<Task>, executed: seq<Task>)

  const NEW_LOOP := Loop(Top, [], [], {}, map[], [], [])

  function Push(l: Loop, t: Task): Loop {
    l.(pending := l.pending + [t], enqueued := l.enqueued + [t])
  }

  function PushAll(l: Loop, ts: seq<Task>): Loop {
    l.(pending := l.pending + ts, enqueued := l.enqueued + ts)
  }

  function Swap(l: Loop): Loop { l.(phase := Running, batch := l.pending, pending := []) }

  function Pop(l: Loop): Loop
    requires l.batch != []
  {
    l.(batch := l.batch[1..], executed := l.executed + [l.batch[0]])
  }

  datatype EpollOp = CtlAdd | CtlMod | CtlDel

  /** epoll_ctl: adding a descriptor that is there, or changing one that is not, fails. */
  function EpollCtl(kernel: map<int, set<Dir>>, op: EpollOp, fd: int, mask: set<Dir>): (r: (bool, map<int, set<Dir>>))
  {
    match op
    case CtlAdd => if fd in kernel then (false, kernel) else (true, kernel[fd := mask])
    case CtlMod => if fd in kernel then (true, kernel[fd := mask]) else (false, kernel)
    case CtlDel => if fd in kernel then (true, kernel - {fd}) else (false, kernel)
  }

  function AddOp(l: Loop, fd: int): EpollOp { if fd in l.listenFds then CtlMod else CtlAdd }

  function AddToEpoll(l: Loop, fd: int, mask: set<Dir>): Loop {
    l.(listenFds := l.listenFds + {fd}, kernel := EpollCtl(l.kernel, AddOp(l, fd), fd, mask).1)
  }

  function DeleteFromEpoll(l: Loop, fd: int): Loop {
    if fd !in l.listenFds then l
    else l.(listenFds := l.listenFds - {fd}, kernel := EpollCtl(l.kernel, CtlDel, fd, {}).1)
  }

  /** The tasks that a list of reported events turns into: per descriptor, read before write. */
  function Reported(events: map<int, FdState>, ready: seq<(int, set<Dir>)>): seq<Task>
    requires forall i :: 0 <= i < |ready| ==> ready[i].0 in events
  {
    if ready == [] then []
    else
      var n := |ready| - 1;
      Reported(events, ready[..n]) + ReportedOne(events[ready[n].0], ready[n].1)
  }

  function ReportedOne(e: FdState, dirs: set<Dir>): seq<Task> {
    (if In in dirs then [Run(e.read)] else []) + (if Out in dirs then [Run(e.write)] else [])
  }

  /** Of one descriptor the read callback is queued before the write callback, and only those reported. */
  lemma ReadBeforeWrite(e: FdState)
    ensures ReportedOne(e, {In, Out}) == [Run(e.read), Run(e.write)]
    ensures ReportedOne(e, {In}) == [Run(e.read)] && ReportedOne(e, {Out}) == [Run(e.write)] && ReportedOne(e, {}) == []
  {
  }

  /** Descriptors are served in the order of the report. */
  lemma {:induction false} ReportedInOrder(events: map<int, FdState>, a: seq<(int, set<Dir>)>, b: seq<(int, set<Dir>)>)
    requires forall i :: 0 <= i < |a| ==> a[i].0 in events
    requires forall i :: 0 <= i < |b| ==> b[i].0 in events
    ensures Reported(events, a + b) == Reported(events, a) + Reported(events, b)
    decreases |b|
  {
    hide ReportedOne;
    if b == [] {
      assert a + b == a;
    } else {
      var n := |b| - 1;
      ReportedInOrder(events, a, b[..n]);
      assert (a + b)[..|a| + n] == a + b[..n] && (a + b)[|a| + n] == b[n];
      TasksAssociate(Reported(events, a), Reported(events, b[..n]), ReportedOne(events[b[n].0], b[n].1));
    }
  }

  lemma TasksAssociate(a: seq<Task>, b: seq<Task>, c: seq<Task>)
    ensures (a + b) + c == a + (b + c)
  {
  }

  lemma ReportOfOne(events: map<int, FdState>, fd: int, dirs: set<Dir>)
    requires fd in events
    ensures Reported(events, [(fd, dirs)]) == ReportedOne(events[fd], dirs)
  {
    hide ReportedOne;
    assert [(fd, dirs)][..0] == [];
  }

  /** Each reported direction queues its handler, whatever that does, and nothing else is queued. */
  lemma ReportedQueuesHandlers(events: map<int, FdState>, ready: seq<(int, set<Dir>)>)
    requires forall i :: 0 <= i < |ready| ==> ready[i].0 in events
    ensures forall i, d :: 0 <= i < |ready| && d in ready[i].1 ==>
              Run(Handler(events[ready[i].0], d)) in Reported(events, ready)
    ensures forall task :: task in Reported(events, ready) ==>
              exists i, d :: 0 <= i < |ready| && d in ready[i].1 && task == Run(Handler(events[ready[i].0], d))
  {
    hide Reported, Handler;
    forall i, d | 0 <= i < |ready| && d in ready[i].1
      ensures Run(Handler(events[ready[i].0], d)) in Reported(events, ready)
    {
      HandlerIsQueued(events, ready, i, d);
    }
    forall task | task in Reported(events, ready)
      ensures exists i, d :: 0 <= i < |ready| && d in ready[i].1 && task == Run(Handler(events[ready[i].0], d))
    {
      var i, d := QueuedFor(events, ready, task);
    }
  }

  lemma {:induction false} HandlerIsQueued(events: map<int, FdState>, ready: seq<(int, set<Dir>)>, i: nat, d: Dir)
    requires forall i :: 0 <= i < |ready| ==> ready[i].0 in events
    requires i < |ready| && d in ready[i].1
    ensures Run(Handler(events[ready[i].0], d)) in Reported(events, ready)
    decreases |ready|
  {
    var n := |ready| - 1;
    if i < n { HandlerIsQueued(events, ready[..n], i, d); }
  }

  lemma {:induction false} QueuedFor(events: map<int, FdState>, ready: seq<(int, set<Dir>)>, task: Task)
    returns (i: nat, d: Dir)
    requires forall i :: 0 <= i < |ready| ==> ready[i].0 in events
    requires task in Reported(events, ready)
    ensures i < |ready| && d in ready[i].1 && task == Run(Handler(events[ready[i].0], d))
    decreases |ready|
  {
    var n := |ready| - 1;
    if task in Reported(events, ready[..n]) {
      i, d := QueuedFor(events, ready[..n], task);
    } else {
      i, d := n, if In in ready[n].1 && task == Run(events[ready[n].0].read) then In else Out;
    }
  }

  // ---------------------------------------------------------------- epoll agreement

  /** What the loop believes it watches is what the kernel watches. */
  ghost predicate Agrees(l: Loop) { l.listenFds == l.kernel.Keys }

  /** While they agree, every add and delete succeeds, issues ADD exactly for absent descriptors, and they
      agree again, the kernel holding the mask of the last add. */
  lemma EpollAgreement(l: Loop, fd: int, mask: set<Dir>)
    requires Agrees(l)
    ensures EpollCtl(l.kernel, AddOp(l, fd), fd, mask).0 && (AddOp(l, fd) == CtlAdd <==> fd !in l.kernel)
    ensures Agrees(AddToEpoll(l, fd, mask)) && AddToEpoll(l, fd, mask).kernel == l.kernel[fd := mask]
    ensures fd in l.listenFds ==> EpollCtl(l.kernel, CtlDel, fd, {}).0
    ensures Agrees(DeleteFromEpoll(l, fd)) && DeleteFromEpoll(l, fd).kernel == l.kernel - {fd}
  {
  }

  /** In general a registration takes effect exactly when loop and kernel agree on that descriptor. The
      loop does not notice that a descriptor was closed, so its number, reused, is never watched. */
  lemma RegistrationTakesIffAgreed(l: Loop, fd: int, mask: set<Dir>)
    requires fd in l.kernel ==> l.kernel[fd] != mask
    ensures fd in AddToEpoll(l, fd, mask).kernel && AddToEpoll(l, fd, mask).kernel[fd] == mask
            <==> (fd in l.listenFds <==> fd in l.kernel)
  {
  }

  // ---------------------------------------------------------------- runs of registrations

  /** What is done to descriptors over time. SetMask: their objects listen and cancel. AddNow, DelNow: in
      the loop's thread. AddLater, DelLater: from another thread, as tasks. Take, Perform: the loop takes
      its tasks, and performs the next. Close: a descriptor is closed without being deleted. */
  datatype Act = SetMask(fd: int, mask: set<Dir>) | AddNow(fd: int) | DelNow(fd: int)
               | AddLater(fd: int) | DelLater(fd: int) | Take | Perform | Close(fd: int)

  /** A registration that reached epoll_ctl, with its mask, or the end of one. */
  datatype Call = Added(fd: int, mask: set<Dir>) | Deleted(fd: int)

  /** `ok`: no epoll_ctl has failed so far. `calls`: what was asked of epoll_ctl, the latest last. */
  datatype Watch = Watch(loop: Loop, masks: map<int, set<Dir>>, ok: bool, calls: seq<Call>)

  const NOT_WATCHING := Watch(NEW_LOOP, map[], true, [])

  function MaskOf(w: Watch, fd: int): set<Dir> { if fd in w.masks then w.masks[fd] else {} }

  function AddIt(w: Watch, fd: int): Watch {
    w.(loop := AddToEpoll(w.loop, fd, MaskOf(w, fd)),
       ok := w.ok && EpollCtl(w.loop.kernel, AddOp(w.loop, fd), fd, MaskOf(w, fd)).0,
       calls := w.calls + [Added(fd, MaskOf(w, fd))])
  }

  function DeleteIt(w: Watch, fd: int): Watch {
    w.(loop := DeleteFromEpoll(w.loop, fd),
       ok := w.ok && (fd in w.loop.listenFds ==> EpollCtl(w.loop.kernel, CtlDel, fd, {}).0),
       calls := w.calls + [Deleted(fd)])
  }

  predicate CanAct(w: Watch, a: Act) {
    match a
    case Take => w.loop.batch == []
    case Perform => w.loop.batch != []
    case _ => true
  }

  function Acted(w: Watch, a: Act): Watch
    requires CanAct(w, a)
  {
    match a
    case SetMask(fd, mask) => w.(masks := w.masks[fd := mask])
    case AddNow(fd) => AddIt(w, fd)
    case DelNow(fd) => DeleteIt(w, fd)
    case AddLater(fd) => w.(loop := Push(w.loop, AddFd(fd)))
    case DelLater(fd) => w.(loop := Push(w.loop, DelFd(fd)))
    case Take => w.(loop := Swap(w.loop))
    case Perform =>
      var w1 := w.(loop := Pop(w.loop));
      (match w.loop.batch[0]
       case AddFd(fd) => AddIt(w1, fd)
       case DelFd(fd) => DeleteIt(w1, fd)
       case Run(_) => w1)
    case Close(fd) => w.(loop := w.loop.(kernel := w.loop.kernel - {fd}))
  }

  /** The mask of the last add of the descriptor, if no delete has followed it. */
  function LastMask(calls: seq<Call>, fd: int): Option<set<Dir>> {
    if calls == [] then None
    else
      var n := |calls| - 1;
      if calls[n].fd != fd then LastMask(calls[..n], fd)
      else if calls[n].Added? then Some(calls[n].mask) else None
  }

  ghost predicate WatchedRight(w: Watch) {
    && w.ok && Agrees(w.loop)
    && (forall fd :: fd in w.loop.kernel <==> LastMask(w.calls, fd).Some?)
    && (forall fd :: fd in w.loop.kernel ==> LastMask(w.calls, fd) == Some(w.loop.kernel[fd]))
  }

  lemma LastMaskMore(calls: seq<Call>, c: Call, fd: int)
    ensures LastMask(calls + [c], fd)
            == if c.fd != fd then LastMask(calls, fd) else if c.Added? then Some(c.mask) else None
  {
    assert (calls + [c])[..|calls|] == calls;
  }

  lemma ActKeeps(w: Watch, a: Act)
    requires WatchedRight(w) && CanAct(w, a) && !a.Close?
    ensures WatchedRight(Acted(w, a))
  {
    match a {
      case AddNow(fd) => AddKeeps(w, fd);
      case DelNow(fd) => DeleteKeeps(w, fd);
      case Perform =>
        var w1 := w.(loop := Pop(w.loop));
        match w.loop.batch[0] {
          case AddFd(fd) => AddKeeps(w1, fd);
          case DelFd(fd) => DeleteKeeps(w1, fd);
          case Run(_) =>
        }
      case _ =>
    }
  }

  lemma AddKeeps(w: Watch, fd: int)
    requires WatchedRight(w)
    ensures WatchedRight(AddIt(w, fd))
  {
    EpollAgreement(w.loop, fd, MaskOf(w, fd));
    forall x ensures LastMask(AddIt(w, fd).calls, x) == if x == fd then Some(MaskOf(w, fd)) else LastMask(w.calls, x) {
      LastMaskMore(w.calls, Added(fd, MaskOf(w, fd)), x);
    }
  }

  lemma DeleteKeeps(w: Watch, fd: int)
    requires WatchedRight(w)
    ensures WatchedRight(DeleteIt(w, fd))
  {
    EpollAgreement(w.loop, fd, {});
    forall x ensures LastMask(DeleteIt(w, fd).calls, x) == if x == fd then None else LastMask(w.calls, x) {
      LastMaskMore(w.calls, Deleted(fd), x);
    }
  }

  ghost predicate CanActAll(w: Watch, acts: seq<Act>)
    decreases |acts|
  {
    acts == [] || (CanAct(w, acts[0]) && CanActAll(Acted(w, acts[0]), acts[1..]))
  }

  ghost function ActedAll(w: Watch, acts: seq<Act>): Watch
    requires CanActAll(w, acts)
    decreases |acts|
  {
    if acts == [] then w else ActedAll(Acted(w, acts[0]), acts[1..])
  }

  /** Over every run of adds and deletes, in the loop's thread or put off as tasks, with masks changing
      between them, on descriptors that stay open: no epoll_ctl fails, the loop watches what the kernel
      watches, and that is each descriptor with the mask of its last add, unless a delete came after. */
  lemma {:induction false} WatchedAsLastAdded(w: Watch, acts: seq<Act>)
    requires WatchedRight(w) && CanActAll(w, acts) && forall i :: 0 <= i < |acts| ==> !acts[i].Close?
    ensures WatchedRight(ActedAll(w, acts))
    decreases |acts|
  {
    hide WatchedRight, Acted, CanAct;
    if acts != [] {
      ActKeeps(w, acts[0]);
      WatchedAsLastAdded(Acted(w, acts[0]), acts[1..]);
    }
  }

  /** A registration put off as a task is done when the loop comes to it, with the mask of that time. */
  lemma AddPutOffIsDone(w: Watch, fd: int, mask: set<Dir>)
    requires WatchedRight(w) && w.loop.batch == [] && w.loop.pending == []
    ensures var acts := [AddLater(fd), SetMask(fd, mask), Take, Perform];
            CanActAll(w, acts) && fd in ActedAll(w, acts).loop.kernel && ActedAll(w, acts).loop.kernel[fd] == mask
  {
    var w1 := Acted(w, AddLater(fd));
    var w2 := Acted(w1, SetMask(fd, mask));
    EpollAgreement(w.loop, fd, mask);
    TakeAndPerform(w2, AddFd(fd));
    OneAct(w1, SetMask(fd, mask), [Take, Perform]);
    OneAct(w, AddLater(fd), [SetMask(fd, mask), Take, Perform]);
    assert [SetMask(fd, mask)] + [Take, Perform] == [SetMask(fd, mask), Take, Perform];
    assert [AddLater(fd)] + [SetMask(fd, mask), Take, Perform] == [AddLater(fd), SetMask(fd, mask), Take, Perform];
  }

  /** So is the end of one. */
  lemma DeletePutOffIsDone(w: Watch, fd: int)
    requires WatchedRight(w) && w.loop.batch == [] && w.loop.pending == []
    ensures var acts := [DelLater(fd), Take, Perform];
            CanActAll(w, acts) && ActedAll(w, acts).loop.kernel == w.loop.kernel - {fd}
  {
    var w1 := Acted(w, DelLater(fd));
    EpollAgreement(w.loop, fd, {});
    TakeAndPerform(w1, DelFd(fd));
    OneAct(w, DelLater(fd), [Take, Perform]);
    assert [DelLater(fd)] + [Take, Perform] == [DelLater(fd), Take, Perform];
  }

  lemma OneAct(w: Watch, a: Act, acts: seq<Act>)
    requires CanAct(w, a) && CanActAll(Acted(w, a), acts)
    ensures CanActAll(w, [a] + acts) && ActedAll(w, [a] + acts) == ActedAll(Acted(w, a), acts)
  {
    assert ([a] + acts)[1..] == acts;
  }

  lemma TakeAndPerform(w: Watch, task: Task)
    requires w.loop.batch == [] && w.loop.pending == [task]
    ensures CanAct(w, Take) && CanAct(Acted(w, Take), Perform) && CanActAll(w, [Take, Perform])
    ensures ActedAll(w, [Take, Perform]) == Acted(Acted(w, Take), Perform)
  {
    var w1 := Acted(w, Take);
    OneAct(w1, Perform, []);
    OneAct(w, Take, [Perform]);
    assert [Perform] + [] == [Perform] && [Take] + [Perform] == [Take, Perform];
  }

  /** Registrations in the loop's thread are done at once, and only they change what is watched. */
  lemma DoneAtOnce(w: Watch, fd: int)
    requires WatchedRight(w)
    ensures Acted(w, AddNow(fd)).loop.kernel == w.loop.kernel[fd := MaskOf(w, fd)]
    ensures Acted(w, DelNow(fd)).loop.kernel == w.loop.kernel - {fd}
    ensures forall mask :: MaskOf(Acted(w, SetMask(fd, mask)), fd) == mask
    ensures forall mask :: Acted(w, SetMask(fd, mask)).loop == w.loop
  {
    EpollAgreement(w.loop, fd, MaskOf(w, fd));
  }

  lemma NotWatchingIsRight()
    ensures WatchedRight(NOT_WATCHING)
  {
  }

  /** A descriptor that is added, closed, and added again under the same number is not watched. */
  lemma ClosedThenUnwatched(fd: int, mask: set<Dir>)
    ensures var acts := [SetMask(fd, mask), AddNow(fd), Close(fd), AddNow(fd)];
            && CanActAll(NOT_WATCHING, acts)
            && var w := ActedAll(NOT_WATCHING, acts);
               fd in w.loop.listenFds && fd !in w.loop.kernel && !w.ok
  {
    var w1 := Acted(NOT_WATCHING, SetMask(fd, mask));
    var w2 := Acted(w1, AddNow(fd));
    var w3 := Acted(w2, Close(fd));
    OneAct(w3, AddNow(fd), []);
    assert [AddNow(fd)] + [] == [AddNow(fd)];
    OneAct(w2, Close(fd), [AddNow(fd)]);
    assert [Close(fd)] + [AddNow(fd)] == [Close(fd), AddNow(fd)];
    OneAct(w1, AddNow(fd), [Close(fd), AddNow(fd)]);
    assert [AddNow(fd)] + [Close(fd), AddNow(fd)] == [AddNow(fd), Close(fd), AddNow(fd)];
    OneAct(NOT_WATCHING, SetMask(fd, mask), [AddNow(fd), Close(fd), AddNow(fd)]);
    assert [SetMask(fd, mask)] + [AddNow(fd), Close(fd), AddNow(fd)]
        == [SetMask(fd, mask), AddNow(fd), Close(fd), AddNow(fd)];
    hide ActedAll, CanActAll;
    assert w2.loop.listenFds == {fd} && fd in w2.loop.kernel;
    assert w3.loop.listenFds == {fd} && fd !in w3.loop.kernel;
  }

  // ---------------------------------------------------------------- task history

  /** Tasks run in the order in which they were pushed, none lost, none twice; and outside a pass there
      is no batch. */
  ghost predicate InOrder(l: Loop) {
    l.enqueued == l.executed + l.batch + l.pending && (l.phase == Top ==> l.batch == [])
  }

  /** A pass of the loop, and what other code on this thread or another does meanwhile. */
  datatype LoopStep = Pushed(task: Task) | Swapped | Popped | Slept(tasks: seq<Task>)

  ghost predicate CanStep(l: Loop, s: LoopStep) {
    match s
    case Pushed(_) => true
    case Swapped => l.phase == Top
    case Popped => l.batch != []
    case Slept(_) => l.phase == Running && l.batch == []
  }

  ghost function Step(l: Loop, s: LoopStep): Loop
    requires CanStep(l, s)
  {
    match s
    case Pushed(task) => Push(l, task)
    case Swapped => Swap(l)
    case Popped => Pop(l)
    case Slept(tasks) => PushAll(l, tasks).(phase := Top)
  }

  lemma StepKeepsOrder(l: Loop, s: LoopStep)
    requires InOrder(l) && CanStep(l, s)
    ensures InOrder(Step(l, s)) && l.enqueued <= Step(l, s).enqueued && l.executed <= Step(l, s).executed
  {
    match s
    case Pushed(task) =>
      assert (l.executed + l.batch + l.pending) + [task] == l.executed + l.batch + (l.pending + [task]);
    case Swapped => assert l.executed + [] + l.pending == l.executed + l.pending + [];
    case Popped => assert l.executed + l.batch == (l.executed + [l.batch[0]]) + l.batch[1..];
    case Slept(tasks) =>
      assert (l.executed + l.batch + l.pending) + tasks == l.executed + l.batch + (l.pending + tasks);
  }

  /** What each step does: a push goes behind what is pending, a swap takes all of that as the batch, a pop
      executes the first of the batch, and a poll queues the handlers it was given. */
  lemma StepDoes(l: Loop, s: LoopStep)
    requires CanStep(l, s)
    ensures var l' := Step(l, s);
            && l'.listenFds == l.listenFds && l'.kernel == l.kernel
            && (s.Pushed? ==> l' == l.(pending := l.pending + [s.task], enqueued := l.enqueued + [s.task]))
            && (s.Swapped? ==> l' == l.(batch := l.pending, pending := [], phase := Running))
            && (s.Popped? ==> l.batch == [l.batch[0]] + l'.batch && l'.executed == l.executed + [l.batch[0]]
                              && l'.pending == l.pending && l'.enqueued == l.enqueued && l'.phase == l.phase)
            && (s.Slept? ==> l' == l.(pending := l.pending + s.tasks, enqueued := l.enqueued + s.tasks, phase := Top))
  {
  }

  /** How many times the loop may still go to sleep before the first `n` tasks have all run. */
  ghost function SleepsBefore(l: Loop, n: nat): nat {
    if n <= |l.executed| + |l.batch| || l.phase == Top then 0 else 1
  }

  ghost predicate CanRun(l: Loop, steps: seq<LoopStep>)
    decreases |steps|
  {
    steps == [] || (CanStep(l, steps[0]) && CanRun(Step(l, steps[0]), steps[1..]))
  }

  ghost function RunSteps(l: Loop, steps: seq<LoopStep>): Loop
    requires CanRun(l, steps)
    decreases |steps|
  {
    if steps == [] then l else RunSteps(Step(l, steps[0]), steps[1..])
  }

  ghost function Sleeps(steps: seq<LoopStep>): nat {
    if steps == [] then 0 else (if steps[0].Slept? then 1 else 0) + Sleeps(steps[1..])
  }

  /** Whatever is queued has run, in order, before the loop has gone to sleep more often than allowed:
      at most once for a task queued during a pass, not at all for one queued between passes. */
  lemma {:induction false} RunsWithinOneSleep(l: Loop, steps: seq<LoopStep>)
    requires InOrder(l) && CanRun(l, steps)
    ensures InOrder(RunSteps(l, steps)) && l.enqueued <= RunSteps(l, steps).enqueued
    ensures SleepsBefore(l, |l.enqueued|) <= 1
    ensures Sleeps(steps) > SleepsBefore(l, |l.enqueued|) ==> l.enqueued <= RunSteps(l, steps).executed
  {
    HistoryGrows(l, steps);
    if Sleeps(steps) > SleepsBefore(l, |l.enqueued|) {
      RunsInTime(l, steps, |l.enqueued|);
      var l' := RunSteps(l, steps);
      assert l'.executed == (l'.executed + l'.batch + l'.pending)[..|l'.executed|];
      assert l.enqueued == l'.enqueued[..|l.enqueued|];
    }
  }

  lemma {:induction false} HistoryGrows(l: Loop, steps: seq<LoopStep>)
    requires InOrder(l) && CanRun(l, steps)
    ensures InOrder(RunSteps(l, steps)) && l.enqueued <= RunSteps(l, steps).enqueued
    ensures l.executed <= RunSteps(l, steps).executed
    decreases |steps|
  {
    if steps != [] {
      StepKeepsOrder(l, steps[0]);
      HistoryGrows(Step(l, steps[0]), steps[1..]);
    }
  }

  lemma {:induction false} RunsInTime(l: Loop, steps: seq<LoopStep>, n: nat)
    requires InOrder(l) && CanRun(l, steps) && n <= |l.enqueued| && Sleeps(steps) > SleepsBefore(l, n)
    ensures n <= |RunSteps(l, steps).executed|
    decreases |steps|
  {
    var l1 := Step(l, steps[0]);
    StepKeepsOrder(l, steps[0]);
    if n <= |l1.executed| {
      HistoryGrows(l1, steps[1..]);
    } else {
      RunsInTime(l1, steps[1..], n);
    }
  }

  // ---------------------------------------------------------------- the class

  class EventLoop {
    var phase: Phase
    var pendingTasks: seq<Task>
    var tempTasks: seq<Task>
    var listenFds: set<int>
    /** The interest set behind the epoll descriptor. */
    var kernel: map<int, set<Dir>>
    ghost var enqueued: seq<Task>
    ghost var executed: seq<Task>

    ghost function State(): Loop
      reads this
    {
      Loop(phase, pendingTasks, tempTasks, listenFds, kernel, enqueued, executed)
    }

    constructor ()
      ensures State() == NEW_LOOP
    {
      phase, pendingTasks, tempTasks, listenFds, kernel := Top, [], [], {}, map[];
      enqueued, executed := [], [];
    }

    method AddTask(task: Task)
      modifies this
      ensures State() == Push(old(State()), task)
    {
      pendingTasks := pendingTasks + [task];
      enqueued := enqueued + [task];
    }

    /** From another thread the registration becomes a task. */
    method AddEpollEvent(event: FdEvent, inLoopThread: bool)
      modifies this
      ensures State() == if inLoopThread then AddToEpoll(old(State()), event.fd, event.listenEvents)
                         else Push(old(State()), AddFd(event.fd))
    {
      if inLoopThread {
        var op := CtlAdd;
        if event.fd in listenFds {
          op := CtlMod;
        }
        var (ok, kernel') := EpollCtl(kernel, op, event.fd, event.listenEvents);
        kernel := kernel';
        listenFds := listenFds + {event.fd};
      } else {
        AddTask(AddFd(event.fd));
      }
    }

    /** From another thread the end of a registration becomes a task. */
    method DeleteEpollEvent(event: FdEvent, inLoopThread: bool)
      modifies this
      ensures State() == if inLoopThread then DeleteFromEpoll(old(State()), event.fd)
                         else Push(old(State()), DelFd(event.fd))
    {
      if inLoopThread {
        if event.fd !in listenFds {
          return;
        }
        var (ok, kernel') := EpollCtl(kernel, CtlDel, event.fd, {});
        kernel := kernel';
        listenFds := listenFds - {event.fd};
      } else {
        AddTask(DelFd(event.fd));
      }
    }

    /** The head of a pass: take everything that is pending. */
    method TakeTasks()
      requires tempTasks == []
      modifies this
      ensures State() == Swap(old(State()))
    {
      phase := Running;
      tempTasks, pendingTasks := pendingTasks, tempTasks;
    }

    method NextTask() returns (task: Task)
      requires tempTasks != []
      modifies this
      ensures task == old(tempTasks)[0] && State() == Pop(old(State()))
    {
      task := tempTasks[0];
      tempTasks := tempTasks[1..];
      executed := executed + [task];
    }

    /** The handlers of one descriptor. */
    method QueueOne(event: FdEvent, dirs: set<Dir>)
      modifies this
      ensures State() == PushAll(old(State()), ReportedOne(event.State(), dirs))
    {
      if In in dirs {
        AddTask(Run(event.readCallback));
      }
      if Out in dirs {
        AddTask(Run(event.writeCallback));
      }
      PushedTwice(old(State()), event.State(), dirs, State());
    }

    /** The end of a pass: queue the handlers of the events that epoll_wait reported. */
    method QueueHandlers(fdEvents: map<int, FdEvent>, ready: seq<(int, set<Dir>)>)
      requires forall i :: 0 <= i < |ready| ==> ready[i].0 in fdEvents
      modifies this
      ensures State() == PushAll(old(State()), Reported(Table(fdEvents), ready)).(phase := Top)
    {
      ghost var l := State();
      assert l.pending + [] == l.pending && l.enqueued + [] == l.enqueued;
      hide ReportedOne;
      for i := 0 to |ready|
        invariant State() == PushAll(l, Reported(Table(fdEvents), ready[..i]))
      {
        var event := fdEvents[ready[i].0];
        QueueOne(event, ready[i].1);
        PushedMore(l, Reported(Table(fdEvents), ready[..i]), ReportedOne(event.State(), ready[i].1));
        ReportedMore(Table(fdEvents), ready, i);
      }
      assert ready[..|ready|] == ready;
      phase := Top;
    }
  }

  /** The table of event descriptors as values. */
  ghost function Table(fdEvents: map<int, FdEvent>): map<int, FdState>
    reads set fd | fd in fdEvents :: fdEvents[fd]
  {
    map fd | fd in fdEvents :: fdEvents[fd].State()
  }

  lemma ReportedMore(events: map<int, FdState>, ready: seq<(int, set<Dir>)>, i: nat)
    requires i < |ready| && forall i :: 0 <= i < |ready| ==> ready[i].0 in events
    ensures Reported(events, ready[..i + 1])
            == Reported(events, ready[..i]) + ReportedOne(events[ready[i].0], ready[i].1)
  {
    hide ReportedOne;
    assert ready[..i + 1][..i] == ready[..i];
  }

  lemma PushedMore(l: Loop, a: seq<Task>, b: seq<Task>)
    ensures PushAll(PushAll(l, a), b) == PushAll(l, a + b)
  {
    assert (l.pending + a) + b == l.pending + (a + b);
    assert (l.enqueued + a) + b == l.enqueued + (a + b);
  }

  lemma PushedTwice(l: Loop, e: FdState, dirs: set<Dir>, l': Loop)
    requires var l1 := if In in dirs then Push(l, Run(e.read)) else l;
             l' == if Out in dirs then Push(l1, Run(e.write)) else l1
    ensures l' == PushAll(l, ReportedOne(e, dirs))
  {
  }
}
