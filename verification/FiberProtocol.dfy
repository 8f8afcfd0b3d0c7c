/** The wake-up protocol: workers, one task list, fibers, event slots and timers, one step at a
    time. A step is one atomic action or one locked region of the scheduler, the fiber switch, the
    IO manager or the code a fiber runs. */
module FiberProtocol {
  import opened Bytes
  import opened FdEvents
  import opened Scheduling

  datatype FiberState = INIT | HOLD | RUNING | TERM | READY | EXCEPT

  /** `saved`: the context can be switched to; false while some worker is executing on it. */
  datatype Fiber = Fiber(state: FiberState, saved: bool)

  /** Where a worker stands in its loop. */
  datatype Pc =
    | Scanning
    | Holding(work: Work)                                // taken off the list, not started
    | Prepared(f: nat, task: Work)                       // the callback fiber is made ready
    | Executing(f: nat, wake: Option<nat>, task: Work)   // inside the fiber; `wake` still to be scheduled
    | Returned(f: nat, task: Work)                       // the fiber's context is saved
    | Settling(f: nat)                                   // counted down, state not yet updated
    | Flushing(batch: seq<Work>)                         // idle, holding callbacks taken off the timers

  /** `cache` is the worker's own fiber for callbacks. */
  datatype Worker = Worker(pc: Pc, cache: Option<nat>)

  /** A timer and the millisecond it is due; a recurring one runs a callback every `ms` milliseconds. */
  datatype Timer = Once(work: Work, next: nat) | Every(cb: nat, next: nat, ms: nat)

  function TimerWork(x: Timer): Work { if x.Once? then x.work else CbWork(x.cb) }

  /** Clock readings and due times are 64-bit words. */
  const WORD: nat := 0x1_0000_0000_0000_0000

  datatype Sys = Sys(
    io: Io,
    clock: nat,
    timers: map<nat, Timer>,
    queue: seq<Task>,
    fibers: map<nat, Fiber>,
    workers: seq<Worker>,
    active: int,
    stopRequested: bool,
    pushed: multiset<Work>,
    done: multiset<Work>)

  // ----- wake-up tokens -----

  /** The suspended fiber a piece of work will resume. */
  function Target(work: Work): Option<nat>
  {
    match work
    case FiberWork(f) => Some(f)
    case WakeWork(f) => Some(f)
    case CbWork(_) => None
  }

  function PcTarget(pc: Pc): Option<nat>
  {
    match pc
    case Holding(work) => Target(work)
    case Prepared(_, task) => Target(task)
    case Executing(_, wake, _) => wake
    case _ => None
  }

  /** Every place that can hold the wake-up of a fiber. */
  datatype Source = InQueue(i: nat) | AtWorker(w: nat) | InBatch(w: nat, i: nat) | AtSlot(fd: nat, ev: Event) | AtTimer(t: nat)

  function Batch(pc: Pc): seq<Work> { if pc.Flushing? then pc.batch else [] }

  function SlotWork(io: Io, fd: nat, ev: Event): Option<Work>
  {
    if Armed(io, Slot(fd, ev)) then WorkOf(GetContext(io.ctxs[fd], ev)) else None
  }

  function TargetAt(s: Sys, src: Source): Option<nat>
  {
    match src
    case InQueue(i) => if i < |s.queue| then Target(s.queue[i].work) else None
    case AtWorker(w) => if w < |s.workers| then PcTarget(s.workers[w].pc) else None
    case InBatch(w, i) => if w < |s.workers| && i < |Batch(s.workers[w].pc)| then Target(Batch(s.workers[w].pc)[i]) else None
    case AtSlot(fd, ev) => if SlotWork(s.io, fd, ev).Some? then Target(SlotWork(s.io, fd, ev).value) else None
    case AtTimer(t) => if t in s.timers then Target(TimerWork(s.timers[t])) else None
  }

  /** No two places hold the wake-up of the same fiber. */
  ghost predicate Unique(s: Sys)
  {
    forall a: Source, b: Source ::
      a != b && TargetAt(s, a).Some? && TargetAt(s, b).Some? ==> TargetAt(s, a) != TargetAt(s, b)
  }

  ghost predicate NoToken(s: Sys, f: nat) { forall a: Source :: TargetAt(s, a) != Some(f) }

  // ----- ownership of fibers -----

  function Subject(pc: Pc): Option<nat>
  {
    match pc
    case Prepared(f, _) => Some(f)
    case Executing(f, _, _) => Some(f)
    case Returned(f, _) => Some(f)
    case Settling(f) => Some(f)
    case _ => None
  }

  predicate Owns(k: Worker, f: nat) { Subject(k.pc) == Some(f) || k.cache == Some(f) }

  /** The worker has switched to the fiber and not yet set it aside. */
  predicate Running(pc: Pc, f: nat) { !pc.Prepared? && Subject(pc) == Some(f) }

  ghost predicate Unowned(s: Sys, f: nat) { forall w :: 0 <= w < |s.workers| ==> !Owns(s.workers[w], f) }

  ghost predicate WorkerOk(s: Sys, k: Worker)
  {
    && (forall f :: Owns(k, f) ==> f in s.fibers)
    && (match k.pc
        case Scanning => true
        case Flushing(_) => true
        case Holding(work) => work.FiberWork? ==> work.f in s.fibers && Unowned(s, work.f)
        case Prepared(f, task) => k.cache == Some(f) && !task.FiberWork? && s.fibers[f].saved && s.fibers[f].state in {INIT, RUNING}
        case Executing(f, _, _) => s.fibers[f] == Fiber(RUNING, false)
        case Returned(f, _) => s.fibers[f].saved && s.fibers[f].state in {RUNING, TERM, EXCEPT}
        case Settling(f) => s.fibers[f].saved && s.fibers[f].state in {RUNING, TERM, EXCEPT})
    && (k.cache.Some? && Subject(k.pc) != k.cache ==> s.fibers[k.cache.value] == Fiber(INIT, true))
  }

  ghost predicate FiberInv(s: Sys)
  {
    && (forall w :: 0 <= w < |s.workers| ==> WorkerOk(s, s.workers[w]))
    && (forall v, w, f :: 0 <= v < w < |s.workers| && Owns(s.workers[v], f) ==> !Owns(s.workers[w], f))
    && (forall f :: f in s.fibers && Unowned(s, f) ==> s.fibers[f].saved && s.fibers[f].state != RUNING)
  }

  /** A fiber whose wake-up is about is known, and if a worker still has it, its state is RUNING. */
  ghost predicate TokenOk(s: Sys, f: nat)
  {
    && f in s.fibers
    && forall w :: 0 <= w < |s.workers| && Owns(s.workers[w], f) ==>
         Running(s.workers[w].pc, f) && s.fibers[f].state == RUNING
  }

  ghost predicate TokenInv(s: Sys) { forall a: Source :: TargetAt(s, a).Some? ==> TokenOk(s, TargetAt(s, a).value) }

  ghost predicate ProtocolInv(s: Sys) { FdEvents.Inv(s.io) && Unique(s) && FiberInv(s) && TokenInv(s) }

  // ----- the steps -----

  /** What one worker can do. */
  datatype Act =
    // the worker loop
    | Take
    | Resume
    | DropDead
    | Prepare(newId: nat)
    | Enter
    | CountDown
    | Settle
    // code running on a fiber
    | RunWake
    | SwapOut
    | Finish(failed: bool)
    | Submit(cb: nat, thread: Option<nat>)
    | ScheduleSelf
    | CallIo(op: Op)
    | StartTimer(t: nat, timer: Timer)
    | CancelTimer(t: nat)
    // an idle worker
    | Deliver(op: Op)
    | Collect(at: nat, rollover: bool, ts: seq<nat>)
    | Flush

  /** What a thread that is no worker can call. */
  datatype Call =
    | Submitting(cb: nat, thread: Option<nat>)
    | CallingIo(op: Op)
    | SettingTimer(t: nat, timer: Timer)
    | CancellingTimer(t: nat)

  datatype Step = By(w: nat, act: Act) | External(call: Call) | Stop | Clock(now: nat)

  function RunningFibers(s: Sys): set<nat> { set f | f in s.fibers && s.fibers[f].state == RUNING }

  predicate Dead(x: Fiber) { x.state == TERM || x.state == EXCEPT }

  /** The timers that are due at `at`, or all of them after the clock was set back far, earliest first. */
  ghost predicate Expired(timers: map<nat, Timer>, at: nat, rollover: bool, ts: seq<nat>) {
    && (forall i :: 0 <= i < |ts| ==> ts[i] in timers)
    && (forall i, j :: 0 <= i < j < |ts| ==> ts[i] != ts[j] && timers[ts[i]].next <= timers[ts[j]].next)
    && (forall t :: t in timers ==> (t in ts <==> rollover || timers[t].next <= at))
  }

  function Callbacks(timers: map<nat, Timer>, ts: seq<nat>): seq<Work>
    requires forall i :: 0 <= i < |ts| ==> ts[i] in timers
  {
    seq(|ts|, i requires 0 <= i < |ts| => TimerWork(timers[ts[i]]))
  }

  /** The timers left when those in `ts` were taken at `at`: a recurring one is set again. */
  function Rest(timers: map<nat, Timer>, at: nat, ts: seq<nat>): map<nat, Timer> {
    map t | t in timers && (t !in ts || timers[t].Every?) ::
      if t in ts then timers[t].(next := (at + timers[t].ms) % WORD) else timers[t]
  }

  ghost predicate CanAct(s: Sys, w: nat, act: Act)
    requires w < |s.workers|
  {
    var pc := s.workers[w].pc;
    match act
    case Take => pc.Scanning? && FirstEligible(s.queue, w, RunningFibers(s)) < |s.queue|
    case Resume => pc.Holding? && pc.work.FiberWork? && pc.work.f in s.fibers && !Dead(s.fibers[pc.work.f])
    case DropDead => pc.Holding? && pc.work.FiberWork? && pc.work.f in s.fibers && Dead(s.fibers[pc.work.f])
    case Prepare(newId) => pc.Holding? && !pc.work.FiberWork? && newId !in s.fibers
    case Enter => pc.Prepared? && pc.f in s.fibers
    case CountDown => pc.Returned?
    case Settle => pc.Settling? && pc.f in s.fibers
    case RunWake => pc.Executing? && pc.wake.Some?
    // A callback that carries a wake-up schedules it before anything else.
    case SwapOut => pc.Executing? && pc.wake.None? && pc.f in s.fibers
    // The discipline: a fiber arranges at most one wake-up, and does not end with one pending.
    case Finish(_) => pc.Executing? && pc.wake.None? && pc.f in s.fibers && NoToken(s, pc.f)
    case Submit(_, _) => pc.Executing? && pc.wake.None?
    case ScheduleSelf => pc.Executing? && pc.wake.None? && NoToken(s, pc.f)
    case CallIo(op) => pc.Executing? && pc.wake.None? && !op.Reported? && Safe(s.io, op)
                       && (op.AddEvent? && op.req.CurrentFiber? ==> op.req.f == pc.f && NoToken(s, pc.f))
    case StartTimer(t, timer) => pc.Executing? && pc.wake.None? && t !in s.timers && timer.next < WORD
                                 && !TimerWork(timer).FiberWork?
                                 && (TimerWork(timer).WakeWork? ==> timer.work.f == pc.f && NoToken(s, pc.f))
    case CancelTimer(t) => pc.Executing? && pc.wake.None?
    case Deliver(op) => pc.Scanning? && op.Reported? && Safe(s.io, op)
    // The clock is read first; then the expired timers are taken under the timers' lock, and their
    // callbacks are queued under the scheduler's.
    case Collect(at, rollover, ts) => pc.Scanning? && ts != [] && Expired(s.timers, at, rollover, ts)
    case Flush => pc.Flushing?
  }

  /** A thread that is no worker has no fiber to be woken: it brings callbacks. */
  ghost predicate CanCall(s: Sys, call: Call) {
    match call
    case Submitting(_, _) => true
    case CallingIo(op) => FdEvents.Inv(s.io) && !op.Reported? && Safe(s.io, op) && (op.AddEvent? ==> op.req.Callback?)
    case SettingTimer(t, timer) => t !in s.timers && timer.next < WORD && TimerWork(timer).CbWork?
    case CancellingTimer(_) => true
  }

  ghost predicate Enabled(s: Sys, e: Step) {
    match e
    case By(w, act) => w < |s.workers| && CanAct(s, w, act)
    case External(call) => CanCall(s, call)
    case Stop => true
    case Clock(now) => now < WORD
  }

  function SetPc(s: Sys, w: nat, pc: Pc): Sys
    requires w < |s.workers|
  {
    s.(workers := s.workers[w := s.workers[w].(pc := pc)])
  }

  function SetFiber(s: Sys, f: nat, x: Fiber): Sys { s.(fibers := s.fibers[f := x]) }

  function Push(s: Sys, ts: seq<Task>): Sys
  {
    s.(queue := s.queue + ts, pushed := s.pushed + multiset(Works(ts)))
  }

  function Works(ts: seq<Task>): seq<Work> { seq(|ts|, i requires 0 <= i < |ts| => ts[i].work) }

  function DoIo(s: Sys, op: Op): Sys
    requires FdEvents.Inv(s.io) && Safe(s.io, op)
  {
    var (io, ws) := Apply(s.io, op);
    Push(s.(io := io), Unpinned(ws))
  }

  /** The end of both execution branches of `run`. */
  function SetAside(s: Sys, w: nat, f: nat): Sys
    requires w < |s.workers| && f in s.fibers
  {
    var isCb := s.workers[w].cache == Some(f);
    var t := SetPc(s, w, Scanning);
    if s.fibers[f].state == READY then
      var u := Push(t, [Task(FiberWork(f), None)]);
      if isCb then u.(workers := u.workers[w := Worker(Scanning, None)]) else u
    else if Dead(s.fibers[f]) then
      if isCb then SetFiber(t, f, Fiber(INIT, true)) else t
    else
      var u := SetFiber(t, f, s.fibers[f].(state := HOLD));
      if isCb then u.(workers := u.workers[w := Worker(Scanning, None)]) else u
  }

  ghost function Do(s: Sys, w: nat, act: Act): Sys
    requires FdEvents.Inv(s.io) && w < |s.workers| && CanAct(s, w, act)
  {
    match act
    case Take =>
      var i := FirstEligible(s.queue, w, RunningFibers(s));
      SetPc(s.(queue := RemoveAt(s.queue, i), active := s.active + 1), w, Holding(s.queue[i].work))
    case Resume =>
      var work := s.workers[w].pc.work;
      SetPc(SetFiber(s, work.f, Fiber(RUNING, false)), w, Executing(work.f, None, work))
    case DropDead =>
      SetPc(s.(active := s.active - 1, done := s.done + multiset{s.workers[w].pc.work}), w, Scanning)
    case Prepare(newId) =>
      var k := s.workers[w];
      if k.cache.Some? then SetPc(SetFiber(s, k.cache.value, Fiber(INIT, true)), w, Prepared(k.cache.value, k.pc.work))
      else
        SetFiber(s, newId, Fiber(RUNING, true)).(workers := s.workers[w := Worker(Prepared(newId, k.pc.work), Some(newId))])
    case Enter =>
      var pc := s.workers[w].pc;
      SetPc(SetFiber(s, pc.f, Fiber(RUNING, false)), w, Executing(pc.f, Target(pc.task), pc.task))
    case CountDown =>
      var pc := s.workers[w].pc;
      SetPc(s.(active := s.active - 1, done := s.done + multiset{pc.task}), w, Settling(pc.f))
    case Settle => SetAside(s, w, s.workers[w].pc.f)
    case RunWake =>
      var pc := s.workers[w].pc;
      SetPc(Push(s, [Task(FiberWork(pc.wake.value), None)]), w, pc.(wake := None))
    case SwapOut =>
      var pc := s.workers[w].pc;
      SetPc(SetFiber(s, pc.f, s.fibers[pc.f].(saved := true)), w, Returned(pc.f, pc.task))
    case Finish(failed) =>
      var pc := s.workers[w].pc;
      SetPc(SetFiber(s, pc.f, Fiber(if failed then EXCEPT else TERM, true)), w, Returned(pc.f, pc.task))
    case Submit(cb, thread) => Push(s, [Task(CbWork(cb), thread)])
    case ScheduleSelf => Push(s, [Task(FiberWork(s.workers[w].pc.f), None)])
    case CallIo(op) => DoIo(s, op)
    case StartTimer(t, timer) => s.(timers := s.timers[t := timer])
    case CancelTimer(t) => s.(timers := s.timers - {t})
    case Deliver(op) => DoIo(s, op)
    case Collect(at, _, ts) => SetPc(s.(timers := Rest(s.timers, at, ts)), w, Flushing(Callbacks(s.timers, ts)))
    case Flush => SetPc(Push(s, Unpinned(s.workers[w].pc.batch)), w, Scanning)
  }

  ghost function Called(s: Sys, call: Call): Sys
    requires FdEvents.Inv(s.io) && CanCall(s, call)
  {
    match call
    case Submitting(cb, thread) => Push(s, [Task(CbWork(cb), thread)])
    case CallingIo(op) => DoIo(s, op)
    case SettingTimer(t, timer) => s.(timers := s.timers[t := timer])
    case CancellingTimer(t) => s.(timers := s.timers - {t})
  }

  ghost function Next(s: Sys, e: Step): Sys
    requires FdEvents.Inv(s.io) && Enabled(s, e)
  {
    match e
    case By(w, act) => Do(s, w, act)
    case External(call) => Called(s, call)
    case Stop => s.(stopRequested := true)
    case Clock(now) => s.(clock := now)
  }
}
