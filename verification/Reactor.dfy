/** Coroutines that wait for descriptors: the switch protocol, the read, write and accept hooks, and the
    event loop that wakes them (rocket/coroutine/coroutine.cpp, coroutine_hook.cpp). */
module Reactors {
  import opened EventLoops

  /** Where a coroutine stands. Idle: no callback set yet. Start: resuming it enters the callback.
      Suspended: in a hook, behind its Yield. Woken: resumed there, before the hook cancels. Inside: in its
      callback. Finished: its callback has returned. Crashed: resumed behind its end. */
  datatype At = Idle | Start | Suspended(fd: int, dir: Dir) | Woken(fd: int, dir: Dir) | Inside
              | Finished | Crashed

  datatype Cor = Cor(canResume: bool, inCoFunc: bool, at: At)

  const MAIN: nat := 0

  /** A thread: its loop, its table of event descriptors, its coroutines, and the one that runs. */
  datatype Thread = Thread(loop: Loop, events: map<int, FdState>, cors: map<nat, Cor>, cur: nat)

  // ---------------------------------------------------------------- coroutine.cpp

  /** Only a coroutine that is not inside its callback takes a new one. */
  ghost function SetCallBack(t: Thread, c: nat): Thread
    requires c in t.cors
  {
    if c == MAIN || t.cors[c].inCoFunc then t
    else t.(cors := t.cors[c := t.cors[c].(canResume := true, at := Start)])
  }

  ghost predicate ResumeAccepted(t: Thread, c: nat) {
    t.cur == MAIN && c in t.cors && t.cors[c].canResume && t.cur != c
  }

  /** Resume with its guards, up to the point where the resumed coroutine runs its own code again. */
  ghost function Resume(t: Thread, c: nat): Thread {
    if !ResumeAccepted(t, c) then t
    else
      var co := t.cors[c];
      var co' := match co.at
        case Start => co.(inCoFunc := true, at := Inside)
        case Suspended(fd, dir) => co.(at := Woken(fd, dir))
        case _ => co.(at := Crashed);
      t.(cur := c, cors := t.cors[c := co'])
  }

  /** Yield from the running coroutine, which will continue at `at`. */
  ghost function Yield(t: Thread, at: At): Thread
    requires t.cur in t.cors
  {
    if t.cur == MAIN then t
    else t.(cur := MAIN, cors := t.cors[t.cur := t.cors[t.cur].(at := at)])
  }

  // ---------------------------------------------------------------- coroutine_hook.cpp

  ghost function Listen(t: Thread, fd: int, d: Dir, cb: Callback): Thread
    requires fd in t.events
  {
    var e := ListenOn(t.events[fd], d, cb, Null);
    t.(events := t.events[fd := e], loop := AddToEpoll(t.loop, fd, e.mask))
  }

  ghost function Cancel(t: Thread, fd: int, d: Dir): Thread
    requires fd in t.events
  {
    var e := CancelOn(t.events[fd], d);
    t.(events := t.events[fd := e], loop := AddToEpoll(t.loop, fd, e.mask))
  }

  /** A hook whose system call did not succeed at once: register, then yield. */
  ghost function HookWait(t: Thread, fd: int, d: Dir): Thread
    requires fd in t.events && t.cur in t.cors
  {
    Yield(Listen(t, fd, d, ResumeCor(t.cur)), Suspended(fd, d))
  }

  /** The hook behind its Yield: take the registration back. */
  ghost function HookReturn(t: Thread): Thread
    requires t.cur in t.cors && t.cors[t.cur].at.Woken? && t.cors[t.cur].at.fd in t.events
  {
    var at := t.cors[t.cur].at;
    var t1 := Cancel(t, at.fd, at.dir);
    t1.(cors := t1.cors[t.cur := t1.cors[t.cur].(at := Inside)])
  }

  /** CoFunction behind the callback. */
  ghost function Finish(t: Thread): Thread
    requires t.cur in t.cors
  {
    Yield(t.(cors := t.cors[t.cur := t.cors[t.cur].(inCoFunc := false)]), Finished)
  }

  // ---------------------------------------------------------------- tcp_connection.cpp, eventloop.cpp

  /** TcpConnection::clear, as far as the loop is concerned. */
  ghost function ClearFd(t: Thread, fd: int): Thread
    requires fd in t.events
  {
    var e := CancelOn(CancelOn(t.events[fd], In), Out);
    t.(events := t.events[fd := e], loop := DeleteFromEpoll(t.loop, fd))
  }

  /** setCallBack and Resume, as for the coroutine that accepts connections. */
  ghost function Launch(t: Thread, c: nat): Thread
    requires c in t.cors
  {
    Resume(SetCallBack(t, c), c)
  }

  /** setCallBack and addCoroutine. */
  ghost function Spawn(t: Thread, c: nat): Thread
    requires c in t.cors
  {
    var t1 := SetCallBack(t, c);
    t1.(loop := Push(t1.loop, Run(ResumeCor(c))))
  }

  /** The loop takes one task off its batch and executes it. */
  ghost function Execute(t: Thread): Thread
    requires t.loop.batch != []
  {
    var task := t.loop.batch[0];
    var t1 := t.(loop := Pop(t.loop));
    match task
    case AddFd(fd) => if fd in t1.events then t1.(loop := AddToEpoll(t1.loop, fd, t1.events[fd].mask)) else t1
    case DelFd(fd) => if fd in t1.events then t1.(loop := DeleteFromEpoll(t1.loop, fd)) else t1
    case Run(ResumeCor(c)) => Resume(t1, c)
    case Run(_) => t1
  }

  ghost function Poll(t: Thread, ready: seq<(int, set<Dir>)>): Thread
    requires forall i :: 0 <= i < |ready| ==> ready[i].0 in t.events
  {
    t.(loop := PushAll(t.loop, Reported(t.events, ready)).(phase := Top))
  }

  // ---------------------------------------------------------------- runs

  datatype Action = DoSpawn(c: nat) | DoStart(c: nat) | DoWait(fd: int, d: Dir) | DoReturn | DoFinish | DoClear(fd: int)
                  | DoService(fd: int, id: nat) | DoTask(id: nat) | DoDefer(fd: int) | DoDeferDelete(fd: int)
                  | DoSwap | DoExecute | DoPoll(ready: seq<(int, set<Dir>)>)

  ghost predicate WaitsOn(t: Thread, c: nat, fd: int, d: Dir) {
    c in t.cors && (t.cors[c].at == Suspended(fd, d) || t.cors[c].at == Woken(fd, d))
  }

  ghost predicate NobodyWaitsOn(t: Thread, fd: int, d: Dir) { forall c :: c in t.cors ==> !WaitsOn(t, c, fd, d) }

  /** What epoll_wait may report: distinct descriptors, at most ten, each with bits of its interest. */
  ghost predicate Reportable(l: Loop, ready: seq<(int, set<Dir>)>) {
    && |ready| <= 10
    && (forall i :: 0 <= i < |ready| ==> ready[i].0 in l.kernel && ready[i].1 <= l.kernel[ready[i].0])
    && (forall i, j :: 0 <= i < j < |ready| ==> ready[i].0 != ready[j].0)
  }

  /** At most one coroutine waits for a descriptor in a direction, and none for one that is deleted; a
      coroutine gets a callback when it has none or has finished the last; the rest is the order in which
      the code runs. */
  ghost predicate Allowed(t: Thread, a: Action) {
    match a
    case DoSpawn(c) => c in t.cors && c != MAIN && (t.cors[c].at == Idle || t.cors[c].at == Finished)
    case DoStart(c) => t.cur == MAIN && c in t.cors && c != MAIN && (t.cors[c].at == Idle || t.cors[c].at == Finished)
    case DoWait(fd, d) => t.cur in t.cors && t.cors[t.cur].at == Inside && fd in t.events && NobodyWaitsOn(t, fd, d)
    case DoReturn => t.cur in t.cors && t.cors[t.cur].at.Woken? && t.cors[t.cur].at.fd in t.events
    case DoFinish => t.cur in t.cors && t.cors[t.cur].at == Inside
    case DoClear(fd) => t.cur in t.cors && t.cors[t.cur].at == Inside && fd in t.events
                        && NobodyWaitsOn(t, fd, In) && NobodyWaitsOn(t, fd, Out)
    case DoService(fd, _) => fd in t.events && NobodyWaitsOn(t, fd, In)
    case DoTask(_) => true
    case DoDefer(fd) => true
    case DoDeferDelete(fd) => true
    case DoSwap => t.cur == MAIN && t.loop.phase == Top
    case DoExecute => t.cur == MAIN && t.loop.batch != []
                      && (t.loop.batch[0].DelFd? ==>
                            NobodyWaitsOn(t, t.loop.batch[0].fd, In) && NobodyWaitsOn(t, t.loop.batch[0].fd, Out))
    case DoPoll(ready) => t.cur == MAIN && t.loop.phase == Running && t.loop.batch == []
                          && Reportable(t.loop, ready) && (forall i :: 0 <= i < |ready| ==> ready[i].0 in t.events)
  }

  ghost function Next(t: Thread, a: Action): Thread
    requires Allowed(t, a)
  {
    match a
    case DoSpawn(c) => Spawn(t, c)
    case DoStart(c) => Launch(t, c)
    case DoWait(fd, d) => HookWait(t, fd, d)
    case DoReturn => HookReturn(t)
    case DoFinish => Finish(t)
    case DoClear(fd) => ClearFd(t, fd)
    case DoService(fd, id) => Listen(t, fd, In, Service(id))
    case DoTask(id) => t.(loop := Push(t.loop, Run(Service(id))))
    case DoDefer(fd) => t.(loop := Push(t.loop, AddFd(fd)))
    case DoDeferDelete(fd) => t.(loop := Push(t.loop, DelFd(fd)))
    case DoSwap => t.(loop := Swap(t.loop))
    case DoExecute => Execute(t)
    case DoPoll(ready) => Poll(t, ready)
  }

  // ---------------------------------------------------------------- the invariant

  /** How many of the tasks resume coroutine `c`. */
  ghost function Wakeups(ts: seq<Task>, c: nat): nat {
    if ts == [] then 0
    else Wakeups(ts[..|ts| - 1], c) + (if ts[|ts| - 1] == Run(ResumeCor(c)) then 1 else 0)
  }

  ghost function Queued(t: Thread, c: nat): nat { Wakeups(t.loop.batch, c) + Wakeups(t.loop.pending, c) }

  ghost predicate Waiting(t: Thread, c: nat) { c in t.cors && (t.cors[c].at.Suspended? || t.cors[c].at.Woken?) }

  /** A waiting coroutine is reachable: the bit is set, its callback resumes exactly this coroutine, and
      the kernel watches the descriptor for it. */
  ghost predicate Reachable(t: Thread, c: nat, fd: int, d: Dir) {
    && fd in t.events && d in t.events[fd].mask && Handler(t.events[fd], d) == ResumeCor(c)
    && fd in t.loop.kernel && d in t.loop.kernel[fd]
  }

  ghost predicate Registered(t: Thread) {
    && Agrees(t.loop)
    && (forall fd :: fd in t.loop.kernel ==> fd in t.events && t.loop.kernel[fd] == t.events[fd].mask)
    && (forall c :: Waiting(t, c) ==> Reachable(t, c, t.cors[c].at.fd, t.cors[c].at.dir))
    && (forall fd, d :: fd in t.events && d in t.events[fd].mask ==> HandlerLives(t, fd, d))
  }

  /** A set bit has a callback, and one that resumes a coroutine belongs to one that waits there. */
  ghost predicate HandlerLives(t: Thread, fd: int, d: Dir)
    requires fd in t.events
  {
    match Handler(t.events[fd], d)
    case Null => false
    case Service(_) => true
    case ResumeCor(c) => WaitsOn(t, c, fd, d)
  }

  /** Exactly the coroutine that runs is inside its callback or just woken. */
  ghost predicate OneRuns(t: Thread) {
    && MAIN in t.cors && t.cors[MAIN].at == Idle && t.cur in t.cors
    && (forall c :: c in t.cors && c != MAIN ==>
          && t.cors[c].canResume
          && t.cors[c].at != Crashed
          && (t.cors[c].at == Inside || t.cors[c].at.Woken? <==> c == t.cur)
          && (t.cors[c].inCoFunc <==> t.cors[c].at == Inside || t.cors[c].at.Suspended? || t.cors[c].at.Woken?))
  }

  /** Resume tasks: one for a coroutine at its start, at most one for a suspended one and that only behind
      the epoll_wait that reported it, none for any other. */
  ghost predicate WakeupsFit(t: Thread) {
    && (forall c :: Queued(t, c) > 0 ==> c in t.cors && c != MAIN)
    && (forall c :: c in t.cors ==>
          match t.cors[c].at
          case Start => Queued(t, c) == 1
          case Suspended(_, _) => Queued(t, c) <= 1 && (t.loop.phase == Running ==> Wakeups(t.loop.pending, c) == 0)
          case _ => Queued(t, c) == 0)
    && (t.loop.phase == Top ==> t.loop.batch == [])
  }

  ghost predicate Inv(t: Thread) { Registered(t) && OneRuns(t) && WakeupsFit(t) }

  // ---------------------------------------------------------------- counting

  lemma {:induction false} WakeupsConcat(a: seq<Task>, b: seq<Task>, c: nat)
    ensures Wakeups(a + b, c) == Wakeups(a, c) + Wakeups(b, c)
    decreases |b|
  {
    if b == [] {
      assert a + b == a;
    } else {
      WakeupsConcat(a, b[..|b| - 1], c);
      assert (a + b)[..|a + b| - 1] == a + b[..|b| - 1];
    }
  }

  lemma WakeupsOne(t: Task, c: nat)
    ensures Wakeups([t], c) == if t == Run(ResumeCor(c)) then 1 else 0
  {
  }

  lemma WakeupsPush(ts: seq<Task>, t: Task, c: nat)
    ensures Wakeups(ts + [t], c) == Wakeups(ts, c) + if t == Run(ResumeCor(c)) then 1 else 0
  {
    assert (ts + [t])[..|ts|] == ts;
  }

  lemma WakeupsPop(ts: seq<Task>, c: nat)
    requires ts != []
    ensures Wakeups(ts, c) == Wakeups(ts[1..], c) + if ts[0] == Run(ResumeCor(c)) then 1 else 0
  {
    WakeupsConcat([ts[0]], ts[1..], c);
    WakeupsOne(ts[0], c);
    assert ts == [ts[0]] + ts[1..];
  }

  // ---------------------------------------------------------------- every action keeps it

  /** Who waits, and where, is the same in both. */
  ghost predicate SameWaiting(t: Thread, t': Thread) {
    && t'.cors.Keys == t.cors.Keys
    && (forall c :: Waiting(t', c) <==> Waiting(t, c))
    && (forall c :: Waiting(t, c) ==> t'.cors[c].at.fd == t.cors[c].at.fd && t'.cors[c].at.dir == t.cors[c].at.dir)
  }

  lemma RegisteredFrame(t: Thread, t': Thread)
    requires Registered(t) && SameWaiting(t, t') && t'.events == t.events
    requires t'.loop.kernel == t.loop.kernel && t'.loop.listenFds == t.loop.listenFds
    ensures Registered(t')
  {
    forall c | Waiting(t', c) ensures Reachable(t', c, t'.cors[c].at.fd, t'.cors[c].at.dir) {
      assert Waiting(t, c);
    }
    forall fd, d | fd in t'.events && d in t'.events[fd].mask ensures HandlerLives(t', fd, d) {
      assert HandlerLives(t, fd, d);
      SameHandlers(t, t', fd, d);
    }
  }

  lemma SameHandlers(t: Thread, t': Thread, fd: int, d: Dir)
    requires SameWaiting(t, t') && t'.events == t.events && fd in t.events && HandlerLives(t, fd, d)
    ensures HandlerLives(t', fd, d)
  {
    match Handler(t.events[fd], d)
    case ResumeCor(c) =>
      assert WaitsOn(t, c, fd, d);
      assert Waiting(t, c) && Waiting(t', c);
      assert t'.cors[c].at.fd == t.cors[c].at.fd && t'.cors[c].at.dir == t.cors[c].at.dir;
    case _ =>
  }

  /** A coroutine started from the main coroutine runs, and nothing waits for it. */
  lemma StartKeeps(t: Thread, c: nat)
    requires Inv(t) && Allowed(t, DoStart(c))
    ensures Inv(Launch(t, c)) && Launch(t, c).cur == c && Launch(t, c).cors[c].at == Inside
  {
    hide Registered, Wakeups;
    RegisteredFrame(t, Launch(t, c));
  }

  lemma SpawnKeeps(t: Thread, c: nat)
    requires Inv(t) && Allowed(t, DoSpawn(c))
    ensures Inv(Spawn(t, c))
  {
    hide Registered, Wakeups;
    var t' := Spawn(t, c);
    forall x ensures Wakeups(t'.loop.pending, x) == Wakeups(t.loop.pending, x) + if x == c then 1 else 0 {
      WakeupsPush(t.loop.pending, Run(ResumeCor(c)), x);
    }
    RegisteredFrame(t, t');
    SpawnOneRuns(t, c);
    hide OneRuns;
  }

  lemma SpawnOneRuns(t: Thread, c: nat)
    requires Inv(t) && Allowed(t, DoSpawn(c))
    ensures OneRuns(Spawn(t, c)) && SameWaiting(t, Spawn(t, c))
  {
    hide Registered, WakeupsFit;
  }

  lemma PushKeeps(t: Thread, task: Task)
    requires Inv(t) && (task.AddFd? || task.DelFd? || task.cb.Service?)
    ensures Inv(t.(loop := Push(t.loop, task)))
  {
    hide Registered, Wakeups;
    var t' := t.(loop := Push(t.loop, task));
    forall x ensures Wakeups(t'.loop.pending, x) == Wakeups(t.loop.pending, x) {
      WakeupsPush(t.loop.pending, task, x);
    }
    RegisteredFrame(t, t');
  }

  lemma SwapKeeps(t: Thread)
    requires Inv(t) && Allowed(t, DoSwap)
    ensures Inv(t.(loop := Swap(t.loop)))
  {
    hide Registered;
    RegisteredFrame(t, t.(loop := Swap(t.loop)));
  }

  /** Listening for oneself or for the thread: only the one descriptor changes. */
  lemma ListenRegisters(t: Thread, fd: int, d: Dir, cb: Callback)
    requires Registered(t) && fd in t.events && cb != Null && NobodyWaitsOn(t, fd, d)
    ensures var t' := Listen(t, fd, d, cb);
            && Agrees(t'.loop)
            && (forall f :: f in t'.loop.kernel ==> f in t'.events && t'.loop.kernel[f] == t'.events[f].mask)
            && (forall c :: Waiting(t, c) ==> Reachable(t', c, t.cors[c].at.fd, t.cors[c].at.dir))
            && fd in t'.loop.kernel && d in t'.loop.kernel[fd] && Handler(t'.events[fd], d) == cb
            && (forall f, x :: f in t'.events && x in t'.events[f].mask && (f != fd || x != d) ==>
                  HandlerLives(t, f, x) && Handler(t'.events[f], x) == Handler(t.events[f], x))
  {
    var e := ListenOn(t.events[fd], d, cb, Null);
    EpollAgreement(t.loop, fd, e.mask);
    var t' := Listen(t, fd, d, cb);
    forall c | Waiting(t, c) ensures Reachable(t', c, t.cors[c].at.fd, t.cors[c].at.dir) {
      assert Reachable(t, c, t.cors[c].at.fd, t.cors[c].at.dir);
      assert WaitsOn(t, c, t.cors[c].at.fd, t.cors[c].at.dir);
    }
  }

  lemma ServiceKeeps(t: Thread, fd: int, id: nat)
    requires Inv(t) && Allowed(t, DoService(fd, id))
    ensures Inv(Listen(t, fd, In, Service(id)))
  {
    ListenRegisters(t, fd, In, Service(id));
    var t' := Listen(t, fd, In, Service(id));
    forall f, x | f in t'.events && x in t'.events[f].mask ensures HandlerLives(t', f, x) {
    }
  }

  lemma WaitKeeps(t: Thread, fd: int, d: Dir)
    requires Inv(t) && Allowed(t, DoWait(fd, d))
    ensures Inv(HookWait(t, fd, d)) && Reachable(HookWait(t, fd, d), t.cur, fd, d)
  {
    hide Wakeups;
    ListenRegisters(t, fd, d, ResumeCor(t.cur));
    var t' := HookWait(t, fd, d);
    forall f, x | f in t'.events && x in t'.events[f].mask ensures HandlerLives(t', f, x) {
    }
    forall c | Waiting(t', c) ensures Reachable(t', c, t'.cors[c].at.fd, t'.cors[c].at.dir) {
      assert c != t.cur ==> Waiting(t, c);
    }
  }

  /** Taking back a registration that no other coroutine relies on. */
  lemma ReturnKeeps(t: Thread)
    requires Inv(t) && Allowed(t, DoReturn)
    ensures Inv(HookReturn(t))
  {
    hide Wakeups;
    var at := t.cors[t.cur].at;
    var fd, d := at.fd, at.dir;
    var e := CancelOn(t.events[fd], d);
    EpollAgreement(t.loop, fd, e.mask);
    var t' := HookReturn(t);
    forall c | Waiting(t', c) ensures Reachable(t', c, t'.cors[c].at.fd, t'.cors[c].at.dir) {
      assert Waiting(t, c);
    }
    forall f, x | f in t'.events && x in t'.events[f].mask ensures HandlerLives(t', f, x) {
      assert HandlerLives(t, f, x);
    }
  }

  lemma FinishKeeps(t: Thread)
    requires Inv(t) && Allowed(t, DoFinish)
    ensures Inv(Finish(t))
  {
    hide Registered, Wakeups;
    RegisteredFrame(t, Finish(t));
  }

  lemma ClearKeeps(t: Thread, fd: int)
    requires Inv(t) && Allowed(t, DoClear(fd))
    ensures Inv(ClearFd(t, fd))
  {
    hide Wakeups;
    EpollAgreement(t.loop, fd, {});
    var t' := ClearFd(t, fd);
    forall c | Waiting(t', c) ensures Reachable(t', c, t'.cors[c].at.fd, t'.cors[c].at.dir) {
      assert Waiting(t, c) && WaitsOn(t, c, t.cors[c].at.fd, t.cors[c].at.dir);
    }
    forall f, x | f in t'.events && x in t'.events[f].mask ensures HandlerLives(t', f, x) {
      assert HandlerLives(t, f, x);
    }
  }

  // ---------------------------------------------------------------- the loop's own steps

  /** A queued Resume is never turned away by Resume's guards, and never resumes a coroutine that is not
      at its start or in a hook. */
  lemma ResumeIsAccepted(t: Thread, c: nat)
    requires Inv(t) && t.cur == MAIN && Queued(t, c) > 0
    ensures ResumeAccepted(t, c) && (t.cors[c].at == Start || t.cors[c].at.Suspended?)
    ensures Resume(t, c).cur == c
  {
  }

  lemma FrontIsQueued(t: Thread, c: nat)
    requires t.loop.batch != [] && t.loop.batch[0] == Run(ResumeCor(c))
    ensures Queued(t, c) > 0
  {
    WakeupsPop(t.loop.batch, c);
  }

  lemma PopWakeups(t: Thread)
    requires t.loop.batch != []
    ensures var t1 := t.(loop := Pop(t.loop));
            forall c :: Queued(t, c) == Queued(t1, c) + if t.loop.batch[0] == Run(ResumeCor(c)) then 1 else 0
  {
    forall c {
      WakeupsPop(t.loop.batch, c);
    }
  }

  lemma ExecuteResumeKeeps(t: Thread, c: nat)
    requires Inv(t) && Allowed(t, DoExecute) && t.loop.batch[0] == Run(ResumeCor(c))
    ensures Inv(Execute(t))
  {
    hide Wakeups, Registered;
    PopWakeups(t);
    FrontIsQueued(t, c);
    ResumeIsAccepted(t, c);
    RegisteredFrame(t, Execute(t));
  }

  lemma ExecuteKeeps(t: Thread)
    requires Inv(t) && Allowed(t, DoExecute)
    ensures Inv(Execute(t))
  {
    var task, t1 := t.loop.batch[0], t.(loop := Pop(t.loop));
    if task.Run? && task.cb.ResumeCor? {
      ExecuteResumeKeeps(t, task.cb.cor);
    } else {
      hide Wakeups, Registered;
      PopWakeups(t);
      if task.AddFd? && task.fd in t.events {
        AddAgainRegisters(t, t1, task.fd);
      } else if task.DelFd? && task.fd in t.events {
        DeleteRegisters(t, t1, task.fd);
      } else {
        RegisteredFrame(t, t1);
      }
    }
  }

  lemma AddAgainRegisters(t: Thread, t1: Thread, fd: int)
    requires Registered(t) && fd in t.events && t1 == t.(loop := t1.loop)
    requires t1.loop.kernel == t.loop.kernel && t1.loop.listenFds == t.loop.listenFds
    ensures Registered(t1.(loop := AddToEpoll(t1.loop, fd, t1.events[fd].mask)))
  {
    EpollAgreement(t1.loop, fd, t1.events[fd].mask);
    var t' := t1.(loop := AddToEpoll(t1.loop, fd, t1.events[fd].mask));
    forall c | Waiting(t', c) ensures Reachable(t', c, t'.cors[c].at.fd, t'.cors[c].at.dir) {
      assert Waiting(t, c);
    }
    forall f, x | f in t'.events && x in t'.events[f].mask ensures HandlerLives(t', f, x) {
      assert HandlerLives(t, f, x);
    }
  }

  lemma DeleteRegisters(t: Thread, t1: Thread, fd: int)
    requires Registered(t) && NobodyWaitsOn(t, fd, In) && NobodyWaitsOn(t, fd, Out) && t1 == t.(loop := t1.loop)
    requires t1.loop.kernel == t.loop.kernel && t1.loop.listenFds == t.loop.listenFds
    ensures Registered(t1.(loop := DeleteFromEpoll(t1.loop, fd)))
  {
    EpollAgreement(t1.loop, fd, {});
    var t' := t1.(loop := DeleteFromEpoll(t1.loop, fd));
    forall c | Waiting(t', c) ensures Reachable(t', c, t'.cors[c].at.fd, t'.cors[c].at.dir) {
      assert Waiting(t, c) && WaitsOn(t, c, t.cors[c].at.fd, t.cors[c].at.dir);
    }
    forall f, x | f in t'.events && x in t'.events[f].mask ensures HandlerLives(t', f, x) {
      assert HandlerLives(t, f, x);
      assert SameWaiting(t, t');
      SameHandlers(t, t', f, x);
    }
  }

  /** The coroutine is suspended where one of the events was reported. */
  ghost predicate WokenBy(t: Thread, ready: seq<(int, set<Dir>)>, c: nat) {
    c in t.cors && t.cors[c].at.Suspended?
    && exists i :: 0 <= i < |ready| && ready[i].0 == t.cors[c].at.fd && t.cors[c].at.dir in ready[i].1
  }

  lemma ReportedOneWakes(t: Thread, fd: int, dirs: set<Dir>, c: nat)
    requires Inv(t) && t.cur == MAIN && fd in t.loop.kernel && dirs <= t.loop.kernel[fd]
    ensures fd in t.events
    ensures Wakeups(ReportedOne(t.events[fd], dirs), c) == if WokenBy(t, [(fd, dirs)], c) then 1 else 0
  {
    var e := t.events[fd];
    var ins := if In in dirs then [Run(e.read)] else [];
    var outs := if Out in dirs then [Run(e.write)] else [];
    WakeupsConcat(ins, outs, c);
    WakeupsOne(Run(e.read), c);
    WakeupsOne(Run(e.write), c);
    if In in dirs { assert HandlerLives(t, fd, In); }
    if Out in dirs { assert HandlerLives(t, fd, Out); }
    if WokenBy(t, [(fd, dirs)], c) {
      assert Waiting(t, c) && Reachable(t, c, fd, t.cors[c].at.dir);
    }
    if c in t.cors && t.cors[c].at.Suspended? && t.cors[c].at.fd == fd && t.cors[c].at.dir in dirs {
      assert [(fd, dirs)][0].0 == t.cors[c].at.fd && t.cors[c].at.dir in [(fd, dirs)][0].1;
    }
  }

  /** Each reported event of a waiting coroutine becomes exactly one Resume of it, and no other coroutine
      is resumed. */
  lemma {:induction false} ReportedWakes(t: Thread, ready: seq<(int, set<Dir>)>, c: nat)
    requires Inv(t) && t.cur == MAIN && Reportable(t.loop, ready)
    requires forall i :: 0 <= i < |ready| ==> ready[i].0 in t.events
    ensures Wakeups(Reported(t.events, ready), c) == if WokenBy(t, ready, c) then 1 else 0
    decreases |ready|
  {
    hide Inv, ReportedOne;
    if ready != [] {
      var n := |ready| - 1;
      var init, last := ready[..n], ready[n];
      ReportedWakes(t, init, c);
      ReportedOneWakes(t, last.0, last.1, c);
      WakeupsConcat(Reported(t.events, init), ReportedOne(t.events[last.0], last.1), c);
      WokenBySplit(t, ready, c);
    }
  }

  lemma WokenBySplit(t: Thread, ready: seq<(int, set<Dir>)>, c: nat)
    requires ready != [] && Reportable(t.loop, ready)
    ensures var n := |ready| - 1;
            && (WokenBy(t, ready, c) <==> WokenBy(t, ready[..n], c) || WokenBy(t, [(ready[n].0, ready[n].1)], c))
            && !(WokenBy(t, ready[..n], c) && WokenBy(t, [(ready[n].0, ready[n].1)], c))
  {
    var n := |ready| - 1;
    var one := [(ready[n].0, ready[n].1)];
    if WokenBy(t, ready, c) {
      var i :| 0 <= i < |ready| && ready[i].0 == t.cors[c].at.fd && t.cors[c].at.dir in ready[i].1;
      if i < n { assert ready[..n][i] == ready[i]; } else { assert one[0] == ready[i]; }
    }
    if WokenBy(t, ready[..n], c) {
      var i :| 0 <= i < n && ready[..n][i].0 == t.cors[c].at.fd && t.cors[c].at.dir in ready[..n][i].1;
      assert ready[i] == ready[..n][i];
    }
    if WokenBy(t, one, c) {
      assert one[0] == ready[n];
    }
  }

  lemma PollKeeps(t: Thread, ready: seq<(int, set<Dir>)>)
    requires Inv(t) && Allowed(t, DoPoll(ready))
    ensures Inv(Poll(t, ready))
    ensures forall c :: WokenBy(t, ready, c) ==> Queued(Poll(t, ready), c) == 1
  {
    hide Wakeups, Reported, Reportable, WokenBy;
    var t' := Poll(t, ready);
    assert Registered(t') by { RegisteredFrame(t, t'); }
    forall c ensures Queued(t', c) == Queued(t, c) + if WokenBy(t, ready, c) then 1 else 0 {
      WakeupsConcat(t.loop.pending, Reported(t.events, ready), c);
      ReportedWakes(t, ready, c);
    }
    forall c | WokenBy(t, ready, c) ensures c in t.cors && t.cors[c].at.Suspended? {
      WokenIsSuspended(t, ready, c);
    }
    forall c | c in t.cors && t.cors[c].at.Suspended? ensures Queued(t, c) == 0 {
      NothingWakes(c);
    }
    hide Registered;
    assert WakeupsFit(t');
  }

  lemma WokenIsSuspended(t: Thread, ready: seq<(int, set<Dir>)>, c: nat)
    requires WokenBy(t, ready, c)
    ensures c in t.cors && t.cors[c].at.Suspended?
  {
  }

  lemma NothingWakes(c: nat)
    ensures Wakeups([], c) == 0
  {
  }

  /** The reactor invariant survives every action of the thread. */
  lemma StepKeeps(t: Thread, a: Action)
    requires Inv(t) && Allowed(t, a)
    ensures Inv(Next(t, a))
  {
    hide Inv, Allowed, Spawn, Launch, HookWait, HookReturn, Finish, ClearFd, Listen, Execute, Poll;
    match a
    case DoSpawn(c) => SpawnKeeps(t, c);
    case DoStart(c) => StartKeeps(t, c);
    case DoWait(fd, d) => WaitKeeps(t, fd, d);
    case DoReturn => ReturnKeeps(t);
    case DoFinish => FinishKeeps(t);
    case DoClear(fd) => ClearKeeps(t, fd);
    case DoService(fd, id) => ServiceKeeps(t, fd, id);
    case DoTask(id) => PushKeeps(t, Run(Service(id)));
    case DoDefer(fd) => PushKeeps(t, AddFd(fd));
    case DoDeferDelete(fd) => PushKeeps(t, DelFd(fd));
    case DoSwap => SwapKeeps(t);
    case DoExecute => ExecuteKeeps(t);
    case DoPoll(ready) => PollKeeps(t, ready);
  }

  // ---------------------------------------------------------------- what each action does

  /** Only this descriptor is touched, and nothing in the queue. */
  ghost predicate OnlyFd(t: Thread, t': Thread, fd: int) {
    && fd in t.events && fd in t'.events && t'.events == t.events[fd := t'.events[fd]]
    && t'.loop.kernel - {fd} == t.loop.kernel - {fd} && t'.loop.listenFds - {fd} == t.loop.listenFds - {fd}
    && SameQueue(t.loop, t'.loop)
  }

  ghost predicate SameQueue(l: Loop, l': Loop) {
    && l'.pending == l.pending && l'.batch == l.batch && l'.phase == l.phase
    && l'.enqueued == l.enqueued && l'.executed == l.executed
  }

  /** A hook that waits sets its bit with a callback that resumes this coroutine, has the kernel watch for
      it, and gives way to the main coroutine. */
  lemma WaitDoes(t: Thread, fd: int, d: Dir)
    requires Inv(t) && Allowed(t, DoWait(fd, d))
    ensures var t' := Next(t, DoWait(fd, d));
            && OnlyFd(t, t', fd) && t'.cur == MAIN
            && t'.cors == t.cors[t.cur := t.cors[t.cur].(at := Suspended(fd, d))]
            && t'.events[fd].mask == t.events[fd].mask + {d} && Handler(t'.events[fd], d) == ResumeCor(t.cur)
            && (forall x :: x != d ==> Handler(t'.events[fd], x) == Handler(t.events[fd], x))
            && fd in t'.loop.kernel && t'.loop.kernel[fd] == t'.events[fd].mask
  {
    hide Wakeups, NobodyWaitsOn;
    EpollAgreement(t.loop, fd, MaskIn(t, fd) + {d});
    ListenSetsOne(t.events[fd], d, ResumeCor(t.cur), Null);
  }

  ghost function MaskIn(t: Thread, fd: int): set<Dir> { if fd in t.events then t.events[fd].mask else {} }

  /** A hook behind its yield takes its bit back, here and in the kernel, leaves the other direction and all
      other descriptors as they are, and goes on with its second system call. */
  lemma ReturnDoes(t: Thread)
    requires Inv(t) && Allowed(t, DoReturn)
    ensures var t', fd, d := Next(t, DoReturn), t.cors[t.cur].at.fd, t.cors[t.cur].at.dir;
            && OnlyFd(t, t', fd) && t'.cur == t.cur
            && t'.cors == t.cors[t.cur := t.cors[t.cur].(at := Inside)]
            && d !in t'.events[fd].mask
            && (forall x :: x != d ==> (x in t'.events[fd].mask <==> x in t.events[fd].mask))
            && (forall x :: Handler(t'.events[fd], x) == Handler(t.events[fd], x))
            && fd in t'.loop.kernel && t'.loop.kernel[fd] == t'.events[fd].mask
  {
    hide Wakeups, NobodyWaitsOn;
    var fd, d := t.cors[t.cur].at.fd, t.cors[t.cur].at.dir;
    EpollAgreement(t.loop, fd, t.events[fd].mask - {d});
    CancelClearsOne(t.events[fd], d);
  }

  /** A callback that ends leaves its coroutine finished and the main coroutine running. */
  lemma FinishDoes(t: Thread)
    requires Inv(t) && Allowed(t, DoFinish)
    ensures var t' := Next(t, DoFinish);
            && t'.cur == MAIN && t'.loop == t.loop && t'.events == t.events
            && t'.cors == t.cors[t.cur := t.cors[t.cur].(inCoFunc := false, at := Finished)]
  {
    hide Wakeups, Registered, WakeupsFit;
  }

  /** Clearing takes both bits of the descriptor and the descriptor out of the kernel. */
  lemma ClearDoes(t: Thread, fd: int)
    requires Inv(t) && Allowed(t, DoClear(fd))
    ensures var t' := Next(t, DoClear(fd));
            && OnlyFd(t, t', fd) && t'.cur == t.cur && t'.cors == t.cors
            && t'.events[fd].mask == {} && fd !in t'.loop.kernel && fd !in t'.loop.listenFds
  {
    hide Wakeups, NobodyWaitsOn, OneRuns, WakeupsFit;
    EpollAgreement(t.loop, fd, {});
    forall x ensures x !in Next(t, DoClear(fd)).events[fd].mask {
      assert x == In || x == Out;
    }
  }

  /** A coroutine that is given a callback and queued stands at its start, with one Resume behind the
      pending tasks. */
  lemma SpawnDoes(t: Thread, c: nat)
    requires Inv(t) && Allowed(t, DoSpawn(c))
    ensures var t' := Next(t, DoSpawn(c));
            && t'.cur == t.cur && t'.events == t.events
            && t'.cors == t.cors[c := Cor(true, false, Start)]
            && t'.loop == t.loop.(pending := t.loop.pending + [Run(ResumeCor(c))],
                                  enqueued := t.loop.enqueued + [Run(ResumeCor(c))])
  {
    hide Wakeups, Registered, WakeupsFit;
  }

  /** One that is started directly runs in its callback at once. */
  lemma StartDoes(t: Thread, c: nat)
    requires Inv(t) && Allowed(t, DoStart(c))
    ensures var t' := Next(t, DoStart(c));
            t'.cur == c && t'.cors == t.cors[c := Cor(true, true, Inside)] && t'.loop == t.loop && t'.events == t.events
  {
    hide Wakeups, Registered, WakeupsFit;
  }

  /** The thread's own work is queued behind the pending tasks, and its own callbacks are registered as a
      hook's are, without a coroutine. */
  lemma ServiceDoes(t: Thread, fd: int, id: nat)
    requires Inv(t)
    ensures Next(t, DoTask(id)) == t.(loop := t.loop.(pending := t.loop.pending + [Run(Service(id))],
                                                      enqueued := t.loop.enqueued + [Run(Service(id))]))
    ensures Next(t, DoDefer(fd)) == t.(loop := t.loop.(pending := t.loop.pending + [AddFd(fd)],
                                                       enqueued := t.loop.enqueued + [AddFd(fd)]))
    ensures Next(t, DoDeferDelete(fd)) == t.(loop := t.loop.(pending := t.loop.pending + [DelFd(fd)],
                                                             enqueued := t.loop.enqueued + [DelFd(fd)]))
    ensures Allowed(t, DoService(fd, id)) ==>
              var t' := Next(t, DoService(fd, id));
              && OnlyFd(t, t', fd) && t'.cur == t.cur && t'.cors == t.cors
              && t'.events[fd].mask == t.events[fd].mask + {In} && t'.events[fd].read == Service(id)
              && t'.events[fd].write == t.events[fd].write
              && fd in t'.loop.kernel && t'.loop.kernel[fd] == t'.events[fd].mask
  {
    hide Wakeups, NobodyWaitsOn, OneRuns, WakeupsFit;
    EpollAgreement(t.loop, fd, MaskIn(t, fd) + {In});
  }

  /** Executing a deferred registration has the kernel watch the descriptor with its mask, and executing the
      end of one has it watch no more; executing a Resume runs the coroutine where it stands. */
  lemma ExecuteDoes(t: Thread)
    requires Inv(t) && Allowed(t, DoExecute)
    ensures var t', task := Next(t, DoExecute), t.loop.batch[0];
            && [task] + t'.loop.batch == t.loop.batch && t'.loop.executed == t.loop.executed + [task]
            && t'.loop.pending == t.loop.pending && t'.loop.phase == t.loop.phase && t'.events == t.events
            && (task.AddFd? && task.fd in t.events ==>
                  t'.cors == t.cors && t'.cur == t.cur
                  && t'.loop.kernel == t.loop.kernel[task.fd := t.events[task.fd].mask])
            && (task.DelFd? && task.fd in t.events ==>
                  t'.cors == t.cors && t'.cur == t.cur && t'.loop.kernel == t.loop.kernel - {task.fd})
            && (task.Run? && task.cb.Service? ==>
                  t'.cors == t.cors && t'.cur == t.cur && t'.loop.kernel == t.loop.kernel)
            && (task.Run? && task.cb.ResumeCor? ==> Resumed(t, t', task.cb.cor))
  {
    hide Wakeups, NobodyWaitsOn;
    var task := t.loop.batch[0];
    if task.Run? && task.cb.ResumeCor? {
      FrontIsQueued(t, task.cb.cor);
      ResumeIsAccepted(t, task.cb.cor);
    } else if !task.Run? {
      EpollAgreement(t.loop, task.fd, MaskIn(t, task.fd));
    }
  }

  /** The coroutine runs, in its callback from the start or behind the yield of its hook. */
  ghost predicate Resumed(t: Thread, t': Thread, c: nat) {
    && c in t.cors && t'.cur == c && t'.loop.kernel == t.loop.kernel
    && (t.cors[c].at == Start ==> t'.cors == t.cors[c := t.cors[c].(inCoFunc := true, at := Inside)])
    && (t.cors[c].at.Suspended? ==>
          t'.cors == t.cors[c := t.cors[c].(at := Woken(t.cors[c].at.fd, t.cors[c].at.dir))])
    && (t.cors[c].at == Start || t.cors[c].at.Suspended?)
  }

  /** A pass begins by taking all that is pending, and ends by queueing the handlers of what was reported. */
  lemma PassDoes(t: Thread, ready: seq<(int, set<Dir>)>)
    ensures Allowed(t, DoSwap) ==>
              Next(t, DoSwap) == t.(loop := t.loop.(batch := t.loop.pending, pending := [], phase := Running))
    ensures Allowed(t, DoPoll(ready)) ==>
              Next(t, DoPoll(ready))
              == t.(loop := t.loop.(pending := t.loop.pending + Reported(t.events, ready),
                                    enqueued := t.loop.enqueued + Reported(t.events, ready), phase := Top))
  {
  }

  // ---------------------------------------------------------------- whole runs

  ghost predicate RunAllowed(t: Thread, actions: seq<Action>)
    decreases |actions|
  {
    actions == [] || (Allowed(t, actions[0]) && RunAllowed(Next(t, actions[0]), actions[1..]))
  }

  ghost function RunThread(t: Thread, actions: seq<Action>): Thread
    requires RunAllowed(t, actions)
    decreases |actions|
  {
    if actions == [] then t else RunThread(Next(t, actions[0]), actions[1..])
  }

  /** A thread whose coroutines have all just been created. */
  ghost predicate Fresh(t: Thread) {
    && t.loop == NEW_LOOP && t.cur == MAIN && MAIN in t.cors
    && (forall c :: c in t.cors ==> t.cors[c] == Cor(true, false, Idle))
    && (forall fd :: fd in t.events ==> t.events[fd] == FdState({}, Null, Null, Null))
  }

  /** Over every run from a fresh thread: no coroutine is ever resumed behind its end; whatever is queued
      is resumed when its turn comes; every suspended coroutine can be woken through its descriptor; one
      that has yet to start is queued exactly once; and the kernel watches what the loop watches, with the
      masks the descriptors have. */
  lemma {:induction false} NobodyIsOrphaned(t: Thread, actions: seq<Action>)
    requires Fresh(t) && RunAllowed(t, actions)
    ensures var t' := RunThread(t, actions);
            && (forall c :: c in t'.cors ==> t'.cors[c].at != Crashed)
            && (forall c :: c in t'.cors && t'.cors[c].at.Suspended? ==>
                  Reachable(t', c, t'.cors[c].at.fd, t'.cors[c].at.dir) && Queued(t', c) <= 1)
            && (forall c :: c in t'.cors && t'.cors[c].at == Start ==> Queued(t', c) == 1)
            && (forall c :: Queued(t', c) > 0 && t'.cur == MAIN ==> ResumeAccepted(t', c))
            && Agrees(t'.loop)
            && (forall fd :: fd in t'.loop.kernel ==> fd in t'.events && t'.loop.kernel[fd] == t'.events[fd].mask)
  {
    FreshInv(t);
    RunKeeps(t, actions);
    var t' := RunThread(t, actions);
    forall c | Queued(t', c) > 0 && t'.cur == MAIN ensures ResumeAccepted(t', c) {
      ResumeIsAccepted(t', c);
    }
    forall c | c in t'.cors && t'.cors[c].at.Suspended?
      ensures Reachable(t', c, t'.cors[c].at.fd, t'.cors[c].at.dir) && Queued(t', c) <= 1
    {
      assert Waiting(t', c);
    }
  }

  lemma FreshInv(t: Thread)
    requires Fresh(t)
    ensures Inv(t)
  {
    forall c ensures Queued(t, c) == 0 {
      NothingWakes(c);
    }
  }

  lemma {:induction false} RunKeeps(t: Thread, actions: seq<Action>)
    requires Inv(t) && RunAllowed(t, actions)
    ensures Inv(RunThread(t, actions))
    decreases |actions|
  {
    hide Inv, Allowed, Next;
    if actions != [] {
      StepKeeps(t, actions[0]);
      RunKeeps(Next(t, actions[0]), actions[1..]);
    }
  }

  // ---------------------------------------------------------------- in time

  /** The queue of the loop without its epoll bookkeeping. */
  ghost function Queue(l: Loop): Loop { l.(listenFds := {}, kernel := map[]) }

  /** What an action does to the queue. */
  ghost function QueueSteps(t: Thread, a: Action): seq<LoopStep>
    requires Allowed(t, a)
  {
    match a
    case DoSpawn(c) => [Pushed(Run(ResumeCor(c)))]
    case DoTask(id) => [Pushed(Run(Service(id)))]
    case DoDefer(fd) => [Pushed(AddFd(fd))]
    case DoDeferDelete(fd) => [Pushed(DelFd(fd))]
    case DoSwap => [Swapped]
    case DoExecute => [Popped]
    case DoPoll(ready) => [Slept(Reported(t.events, ready))]
    case _ => []
  }

  ghost function AllQueueSteps(t: Thread, actions: seq<Action>): seq<LoopStep>
    requires RunAllowed(t, actions)
    decreases |actions|
  {
    if actions == [] then [] else QueueSteps(t, actions[0]) + AllQueueSteps(Next(t, actions[0]), actions[1..])
  }

  ghost predicate SleepsIn(actions: seq<Action>) { exists i :: 0 <= i < |actions| && actions[i].DoPoll? }

  lemma QueueStep(t: Thread, a: Action)
    requires Allowed(t, a)
    ensures var steps := QueueSteps(t, a);
            && |steps| <= 1
            && (steps == [] ==> Queue(Next(t, a).loop) == Queue(t.loop))
            && (steps != [] ==> CanStep(Queue(t.loop), steps[0])
                                && Step(Queue(t.loop), steps[0]) == Queue(Next(t, a).loop))
            && (a.DoPoll? <==> steps != [] && steps[0].Slept?)
  {
    hide Reported, NobodyWaitsOn, Reportable;
  }

  lemma {:induction false} ThreadRunsItsQueue(t: Thread, actions: seq<Action>)
    requires RunAllowed(t, actions)
    ensures var steps := AllQueueSteps(t, actions);
            && CanRun(Queue(t.loop), steps)
            && RunSteps(Queue(t.loop), steps) == Queue(RunThread(t, actions).loop)
            && (SleepsIn(actions) ==> Sleeps(steps) > 0)
    decreases |actions|
  {
    hide Next, Allowed, QueueSteps, Queue, Step, CanStep;
    if actions != [] {
      var a, t1 := actions[0], Next(t, actions[0]);
      ThreadRunsItsQueue(t1, actions[1..]);
      QueueStep(t, a);
      var first, rest := QueueSteps(t, a), AllQueueSteps(t1, actions[1..]);
      assert first == [] ==> first + rest == rest;
      assert first != [] ==> (first + rest)[1..] == rest;
      if SleepsIn(actions) && !a.DoPoll? {
        var i :| 0 <= i < |actions| && actions[i].DoPoll?;
        assert actions[1..][i - 1] == actions[i];
      }
    }
  }

  /** Suspended, and a Resume is queued that will be executed before the loop sleeps. */
  ghost predicate AboutToWake(t: Thread, c: nat, fd: int, d: Dir) {
    && c in t.cors && t.cors[c].at == Suspended(fd, d)
    && (if t.loop.phase == Top then Wakeups(t.loop.pending, c) > 0 else Wakeups(t.loop.batch, c) > 0)
  }

  /** Nothing but its Resume makes such a coroutine stop waiting to wake, and the loop cannot sleep. */
  lemma StaysOrWakes(t: Thread, a: Action, c: nat, fd: int, d: Dir)
    requires Inv(t) && Allowed(t, a) && AboutToWake(t, c, fd, d)
    ensures !a.DoPoll?
    ensures c in Next(t, a).cors
    ensures AboutToWake(Next(t, a), c, fd, d) || (Next(t, a).cur == c && Next(t, a).cors[c].at == Woken(fd, d))
  {
    hide Registered, NobodyWaitsOn, Reportable, Wakeups;
    NothingWakes(c);
    match a {
      case DoSpawn(x) => WakeupsPush(t.loop.pending, Run(ResumeCor(x)), c);
      case DoTask(id) => WakeupsPush(t.loop.pending, Run(Service(id)), c);
      case DoDefer(f) => WakeupsPush(t.loop.pending, AddFd(f), c);
      case DoDeferDelete(f) => WakeupsPush(t.loop.pending, DelFd(f), c);
      case DoExecute =>
        WakeupsPop(t.loop.batch, c);
        FrontWakes(t, c, fd, d);
      case _ =>
    }
  }

  lemma FrontWakes(t: Thread, c: nat, fd: int, d: Dir)
    requires Inv(t) && Allowed(t, DoExecute) && AboutToWake(t, c, fd, d)
    ensures if t.loop.batch[0] == Run(ResumeCor(c))
            then Execute(t).cur == c && Execute(t).cors[c].at == Woken(fd, d)
            else Execute(t).cors[c] == t.cors[c] && Execute(t).loop.phase == t.loop.phase
                 && Execute(t).loop.batch == t.loop.batch[1..]
  {
    hide Registered, NobodyWaitsOn, Wakeups;
    var task := t.loop.batch[0];
    if task.Run? && task.cb.ResumeCor? {
      FrontIsQueued(t, task.cb.cor);
      QueuedPop(t, task.cb.cor);
    }
  }

  lemma QueuedPop(t: Thread, c: nat)
    requires Inv(t) && t.cur == MAIN && t.loop.batch != [] && Queued(t, c) > 0
    ensures ResumeAccepted(t.(loop := Pop(t.loop)), c)
  {
    hide Registered, Wakeups;
    ResumeIsAccepted(t, c);
  }

  /** So it wakes before the loop sleeps. */
  lemma {:induction false} WakesBeforeSleep(t: Thread, c: nat, fd: int, d: Dir, actions: seq<Action>) returns (k: nat)
    requires Inv(t) && RunAllowed(t, actions) && SleepsIn(actions) && AboutToWake(t, c, fd, d)
    ensures k <= |actions| && RunAllowed(t, actions[..k]) && !SleepsIn(actions[..k])
    ensures var t' := RunThread(t, actions[..k]); t'.cur == c && c in t'.cors && t'.cors[c].at == Woken(fd, d)
    decreases |actions|
  {
    hide Inv, Allowed, Next, AboutToWake;
    var a, t1 := actions[0], Next(t, actions[0]);
    StaysOrWakes(t, a, c, fd, d);
    StepKeeps(t, a);
    if t1.cur == c && c in t1.cors && t1.cors[c].at == Woken(fd, d) {
      k := 1;
      assert actions[..1] == [a] && [a][1..] == [];
      assert RunThread(t, [a]) == RunThread(t1, []);
    } else {
      assert AboutToWake(t1, c, fd, d);
      assert SleepsIn(actions[1..]) by {
        var i :| 0 <= i < |actions| && actions[i].DoPoll?;
        assert actions[1..][i - 1] == actions[i];
      }
      var k1 := WakesBeforeSleep(t1, c, fd, d, actions[1..]);
      k := k1 + 1;
      assert actions[..k][1..] == actions[1..][..k1];
      assert forall i :: 0 < i < k ==> actions[..k][i] == actions[1..][..k1][i - 1];
    }
  }

  /** In every run from a fresh thread, a coroutine that is suspended where epoll_wait reports an event is
      back behind its Yield before the loop sleeps again. */
  lemma ReportedIsResumed(t0: Thread, before: seq<Action>, ready: seq<(int, set<Dir>)>, c: nat, actions: seq<Action>)
    returns (k: nat)
    requires Fresh(t0) && RunAllowed(t0, before) && Allowed(RunThread(t0, before), DoPoll(ready))
    requires WokenBy(RunThread(t0, before), ready, c)
    requires RunAllowed(Poll(RunThread(t0, before), ready), actions) && SleepsIn(actions)
    ensures var t := RunThread(t0, before);
            && k <= |actions| && RunAllowed(Poll(t, ready), actions[..k]) && !SleepsIn(actions[..k])
            && var t' := RunThread(Poll(t, ready), actions[..k]);
               t'.cur == c && c in t'.cors && t'.cors[c].at == Woken(t.cors[c].at.fd, t.cors[c].at.dir)
  {
    hide Inv, RunAllowed, RunThread, Fresh, SleepsIn, Reportable, Poll;
    FreshInv(t0);
    RunKeeps(t0, before);
    var t := RunThread(t0, before);
    PollKeeps(t, ready);
    PollWakes(t, ready, c);
    k := WakesBeforeSleep(Poll(t, ready), c, t.cors[c].at.fd, t.cors[c].at.dir, actions);
  }

  lemma PollWakes(t: Thread, ready: seq<(int, set<Dir>)>, c: nat)
    requires Inv(t) && Allowed(t, DoPoll(ready)) && WokenBy(t, ready, c)
    ensures c in t.cors && t.cors[c].at.Suspended?
    ensures AboutToWake(Poll(t, ready), c, t.cors[c].at.fd, t.cors[c].at.dir)
  {
    hide Wakeups, Reported, Registered, OneRuns, WakeupsFit, NobodyWaitsOn;
    ReportedWakes(t, ready, c);
    WakeupsConcat(t.loop.pending, Reported(t.events, ready), c);
  }

  // ---------------------------------------------------------------- the classes

  /** A thread over real descriptors. `at` of a coroutine stands for its saved registers. */
  class LoopThread {
    const loop: EventLoop
    const fdEvents: map<int, FdEvent>
    var cors: map<nat, Cor>
    var cur: nat

    ghost predicate Valid()
      reads this
    {
      && cur in cors
      && (forall fd :: fd in fdEvents ==> fdEvents[fd].fd == fd)
    }

    ghost function State(): Thread
      reads this, loop, set fd | fd in fdEvents :: fdEvents[fd]
    {
      Thread(loop.State(), Table(fdEvents), cors, cur)
    }

    constructor (fdEvents: map<int, FdEvent>, cors: map<nat, Cor>)
      requires MAIN in cors && forall fd :: fd in fdEvents ==> fdEvents[fd].fd == fd
      ensures Valid() && fresh(loop) && this.fdEvents == fdEvents
      ensures State() == Thread(NEW_LOOP, Table(fdEvents), cors, MAIN)
    {
      this.fdEvents, this.cors, cur := fdEvents, cors, MAIN;
      loop := new EventLoop();
    }

    /** Descriptors have objects of their own, so a change of one is a change of one table entry. */
    twostate lemma OthersUnchanged(fd: int)
      requires Valid() && fd in fdEvents
      requires forall f :: f in fdEvents && fdEvents[f] != fdEvents[fd] ==> unchanged(fdEvents[f])
      ensures Table(fdEvents) == old(Table(fdEvents))[fd := fdEvents[fd].State()]
    {
      forall f | f in fdEvents && f != fd ensures fdEvents[f].State() == old(fdEvents[f].State()) {
        assert fdEvents[f].fd == f;
      }
    }

    method SetCallBackOf(c: nat) returns (ok: bool)
      requires Valid() && c in cors
      modifies this
      ensures Valid() && State() == SetCallBack(old(State()), c)
      ensures ok <==> c != MAIN && !old(cors)[c].inCoFunc
    {
      if c == MAIN {
        return false;
      }
      if cors[c].inCoFunc {
        return false;
      }
      cors := cors[c := cors[c].(canResume := true, at := Start)];
      return true;
    }

    method SpawnCoroutine(c: nat)
      requires Valid() && c in cors
      modifies this, loop
      ensures Valid() && State() == Spawn(old(State()), c)
    {
      var _ := SetCallBackOf(c);
      loop.AddTask(Run(ResumeCor(c)));
    }

    method StartCoroutine(c: nat)
      requires Valid() && c in cors
      modifies this
      ensures Valid() && State() == Launch(old(State()), c)
    {
      var _ := SetCallBackOf(c);
      ResumeCoroutine(c);
    }

    method ResumeCoroutine(c: nat)
      requires Valid()
      modifies this
      ensures Valid() && State() == Resume(old(State()), c)
    {
      if cur != MAIN {
        return;
      }
      if c !in cors || !cors[c].canResume {
        return;
      }
      if cur == c {
        return;
      }
      cur := c;
      var co := cors[c];
      match co.at {
        case Start => cors := cors[c := co.(inCoFunc := true, at := Inside)];
        case Suspended(fd, dir) => cors := cors[c := co.(at := Woken(fd, dir))];
        case _ => cors := cors[c := co.(at := Crashed)];
      }
    }

    method YieldAt(at: At)
      requires Valid() && MAIN in cors
      modifies this
      ensures Valid() && State() == Yield(old(State()), at)
    {
      if cur == MAIN {
        return;
      }
      var co := cur;
      cur := MAIN;
      cors := cors[co := cors[co].(at := at)];
    }

    method ToEpoll(fd: int, d: Dir, cb: Callback)
      requires Valid() && fd in fdEvents
      modifies loop, fdEvents[fd]
      ensures Valid() && State() == Listen(old(State()), fd, d, cb)
    {
      fdEvents[fd].Listen(d, cb, Null);
      loop.AddEpollEvent(fdEvents[fd], true);
      OthersUnchanged(fd);
    }

    /** The part of the read, write and accept hooks up to their Yield, when the first system call got
        nothing. */
    method WaitFor(fd: int, d: Dir)
      requires Valid() && MAIN in cors && fd in fdEvents
      modifies this, loop, fdEvents[fd]
      ensures Valid() && State() == HookWait(old(State()), fd, d)
    {
      ToEpoll(fd, d, ResumeCor(cur));
      YieldAt(Suspended(fd, d));
    }

    /** The part behind the Yield, up to the second system call. */
    method WakeUp()
      requires Valid() && cors[cur].at.Woken? && cors[cur].at.fd in fdEvents
      modifies this, loop, fdEvents[cors[cur].at.fd]
      ensures Valid() && State() == HookReturn(old(State()))
    {
      var fd, d := cors[cur].at.fd, cors[cur].at.dir;
      fdEvents[fd].Cancel(d);
      loop.AddEpollEvent(fdEvents[fd], true);
      OthersUnchanged(fd);
      cors := cors[cur := cors[cur].(at := Inside)];
    }

    method FinishCallBack()
      requires Valid() && MAIN in cors
      modifies this
      ensures Valid() && State() == Finish(old(State()))
    {
      cors := cors[cur := cors[cur].(inCoFunc := false)];
      YieldAt(Finished);
    }

    method ClearDescriptor(fd: int)
      requires Valid() && fd in fdEvents
      modifies loop, fdEvents[fd]
      ensures Valid() && State() == ClearFd(old(State()), fd)
    {
      fdEvents[fd].Cancel(In);
      fdEvents[fd].Cancel(Out);
      loop.DeleteEpollEvent(fdEvents[fd], true);
      OthersUnchanged(fd);
    }

    method ExecuteTask()
      requires Valid() && loop.tempTasks != []
      modifies this, loop
      ensures Valid() && State() == Execute(old(State()))
    {
      var task := loop.NextTask();
      match task {
        case AddFd(fd) =>
          if fd in fdEvents {
            loop.AddEpollEvent(fdEvents[fd], true);
          }
        case DelFd(fd) =>
          if fd in fdEvents {
            loop.DeleteEpollEvent(fdEvents[fd], true);
          }
        case Run(ResumeCor(c)) => ResumeCoroutine(c);
        case Run(_) =>
      }
    }

    method AfterEpollWait(ready: seq<(int, set<Dir>)>)
      requires Valid() && forall i :: 0 <= i < |ready| ==> ready[i].0 in fdEvents
      modifies loop
      ensures Valid() && State() == Poll(old(State()), ready)
    {
      loop.QueueHandlers(fdEvents, ready);
    }
  }
}
