/** Runs of the protocol joined together, with or without work from outside; and how workers and list are drained:
    whatever a worker is at, it can be brought back to the top of its loop by its own steps alone. */
module FiberPaths {
  import opened Bytes
  import opened FdEvents
  import opened Scheduling
  import opened FiberProtocol
  import opened FiberSafety
  import opened FiberAccounting

  /** A thread that is no worker brings work: a task, a timer or a registration. */
  predicate BringsWork(e: Step) {
    e.External? &&
    match e.call
    case Submitting(_, _) => true
    case CallingIo(op) => op.AddEvent? && op.ok
    case SettingTimer(_, _) => true
    case CancellingTimer(_) => false
  }

  predicate NoWork(es: seq<Step>) { forall i :: 0 <= i < |es| ==> !BringsWork(es[i]) }

  lemma Unfold(es: seq<Step>)
    requires es != []
    ensures NoWork(es) <==> !BringsWork(es[0]) && NoWork(es[1..])
  {
    assert forall i :: 1 <= i < |es| ==> es[i] == es[1..][i - 1];
    assert forall i :: 0 <= i < |es| - 1 ==> es[1..][i] == es[i + 1];
  }

  /** Some run leads from `s` to `t`; an inner one gets no work from outside. */
  ghost predicate Reaches(s: Sys, t: Sys, inner: bool)
    requires ProtocolInv(s)
  {
    exists es :: RunOk(s, es) && (inner ==> NoWork(es)) && RunFrom(s, es) == t
  }

  lemma ReachesSelf(s: Sys)
    requires ProtocolInv(s)
    ensures Reaches(s, s, true)
  {
    assert RunOk(s, []) && NoWork([]) && RunFrom(s, []) == s;
  }

  lemma ReachesStep(s: Sys, e: Step, t: Sys, inner: bool)
    requires ProtocolInv(s) && Enabled(s, e) && ProtocolInv(Next(s, e)) && Reaches(Next(s, e), t, inner)
    requires inner ==> !BringsWork(e)
    ensures Reaches(s, t, inner)
  {
    var u := Next(s, e);
    var es :| RunOk(u, es) && (inner ==> NoWork(es)) && RunFrom(u, es) == t;
    var all := [e] + es;
    assert all[0] == e && all[1..] == es;
    Unfold(all);
    assert RunOk(s, all) && RunFrom(s, all) == t;
  }

  lemma ReachesTrans(s: Sys, t: Sys, u: Sys, inner: bool)
    requires ProtocolInv(s) && ProtocolInv(t) && Reaches(s, t, inner) && Reaches(t, u, inner)
    ensures Reaches(s, u, inner)
  {
    var es :| RunOk(s, es) && (inner ==> NoWork(es)) && RunFrom(s, es) == t;
    FromReached(s, es, u, inner);
  }

  lemma {:induction false} FromReached(s: Sys, es: seq<Step>, u: Sys, inner: bool)
    requires ProtocolInv(s) && RunOk(s, es) && (inner ==> NoWork(es))
    requires ProtocolInv(RunFrom(s, es)) && Reaches(RunFrom(s, es), u, inner)
    ensures Reaches(s, u, inner)
    decreases |es|
  {
    if es != [] {
      StepKeeps(s, es[0]);
      Unfold(es);
      FromReached(Next(s, es[0]), es[1..], u, inner);
      ReachesStep(s, es[0], u, inner);
    }
  }

  lemma OneReaches(s: Sys, e: Step) returns (t: Sys)
    requires ProtocolInv(s) && Enabled(s, e)
    ensures t == Next(s, e) && ProtocolInv(t) && Reaches(s, t, !BringsWork(e))
  {
    t := Next(s, e);
    StepKeeps(s, e);
    assert RunOk(t, []) && NoWork([]) && RunFrom(t, []) == t;
    ReachesStep(s, e, t, !BringsWork(e));
  }

  lemma ReachedInv(s: Sys, t: Sys)
    requires ProtocolInv(s) && Reaches(s, t, false)
    ensures ProtocolInv(t)
    ensures AccountInv(s) ==> AccountInv(t)
  {
    var es :| RunOk(s, es) && RunFrom(s, es) == t;
    RunKeeps(s, es);
    if AccountInv(s) { RunAccount(s, es); }
  }

  lemma InnerReaches(s: Sys, t: Sys)
    requires ProtocolInv(s) && Reaches(s, t, true)
    ensures Reaches(s, t, false)
  {
    var es :| RunOk(s, es) && NoWork(es) && RunFrom(s, es) == t;
  }

  // ----- one step of a worker on its way back -----

  /** How far a worker is from the top of its loop. */
  function Rank(pc: Pc): nat {
    match pc
    case Scanning => 0
    case Settling(_) => 1
    case Flushing(_) => 1
    case Returned(_, _) => 2
    case Executing(_, wake, _) => if wake.Some? then 4 else 3
    case Prepared(_, _) => 5
    case Holding(_) => 6
  }

  /** How many tasks of a list still wake a fiber by running a callback first. */
  function Wakers(ts: seq<Task>): nat { if ts == [] then 0 else One(ts[0].work.WakeWork?) + Wakers(ts[1..]) }

  lemma {:induction false} WakersAppend(a: seq<Task>, b: seq<Task>)
    ensures Wakers(a + b) == Wakers(a) + Wakers(b)
  {
    if a == [] {
      assert a + b == b;
    } else {
      WakersAppend(a[1..], b);
      assert (a + b)[1..] == a[1..] + b;
    }
  }

  predicate AnyThread(ts: seq<Task>) { forall i :: 0 <= i < |ts| ==> ts[i].thread == None }

  /** What a worker may put on the list on its way back. */
  function Owed(pc: Pc): seq<Task> {
    match pc
    case Flushing(batch) => Unpinned(batch)
    case Executing(_, wake, _) => if wake.Some? then [Task(FiberWork(wake.value), None)] else []
    case Prepared(_, task) => if task.WakeWork? then [Task(FiberWork(task.f), None)] else []
    case Holding(work) => if work.WakeWork? then [Task(FiberWork(work.f), None)] else []
    case _ => []
  }

  /** A fiber that was never made. */
  lemma NewFiber(fibers: map<nat, Fiber>) returns (f: nat)
    ensures f !in fibers
  {
    var keys := fibers.Keys;
    f := 0;
    while keys != {}
      invariant forall k :: k in fibers && k !in keys ==> k < f
      decreases keys
    {
      var k :| k in keys;
      keys := keys - {k};
      if k >= f { f := k + 1; }
    }
  }

  /** Only worker `w` moved, nearer to the top of its loop; what it owed is on the list or still owed; timers and
      manager are as they were. */
  ghost predicate Nearer(s: Sys, t: Sys, w: nat) {
    && w < |s.workers| == |t.workers| && (forall v :: 0 <= v < |s.workers| && v != w ==> t.workers[v] == s.workers[v])
    && t.timers == s.timers && t.io == s.io && t.clock == s.clock && t.stopRequested == s.stopRequested
    && t.queue + Owed(t.workers[w].pc) == s.queue + Owed(s.workers[w].pc)
    && Rank(t.workers[w].pc) < Rank(s.workers[w].pc)
  }

  /** The step that takes a worker nearer. */
  function BackStep(s: Sys, w: nat, newId: nat): Act
    requires w < |s.workers|
  {
    match s.workers[w].pc
    case Scanning => Act.Take
    case Settling(_) => Act.Settle
    case Flushing(_) => Act.Flush
    case Returned(_, _) => Act.CountDown
    case Executing(_, wake, _) => if wake.Some? then Act.RunWake else Act.SwapOut
    case Prepared(_, _) => Act.Enter
    case Holding(work) =>
      if !work.FiberWork? then Act.Prepare(newId)
      else if work.f in s.fibers && Dead(s.fibers[work.f]) then Act.DropDead
      else Act.Resume
  }

  lemma BackStepCan(s: Sys, w: nat, newId: nat)
    requires ProtocolInv(s) && w < |s.workers| && !s.workers[w].pc.Scanning? && newId !in s.fibers
    ensures CanAct(s, w, BackStep(s, w, newId))
  {
    assert WorkerOk(s, s.workers[w]);
    if Subject(s.workers[w].pc).Some? { assert Owns(s.workers[w], Subject(s.workers[w].pc).value); }
  }

  /** From the list into a fiber. */
  lemma EnteringNearer(s: Sys, w: nat, act: Act)
    requires ProtocolInv(s) && w < |s.workers| && CanAct(s, w, act)
    requires act.Prepare? || act.Resume? || act.Enter? || act.DropDead?
    ensures Nearer(s, Do(s, w, act), w)
  {
    assert WorkerOk(s, s.workers[w]);
  }

  /** Out of a fiber. */
  lemma LeavingNearer(s: Sys, w: nat, act: Act)
    requires ProtocolInv(s) && w < |s.workers| && CanAct(s, w, act)
    requires act.RunWake? || act.SwapOut? || act.CountDown? || act.Flush?
    ensures Nearer(s, Do(s, w, act), w)
  {
  }

  lemma SettlingNearer(s: Sys, w: nat)
    requires ProtocolInv(s) && w < |s.workers| && CanAct(s, w, Settle)
    ensures Nearer(s, Do(s, w, Settle), w)
  {
    assert WorkerOk(s, s.workers[w]);
    SetAsideShape(s, w, s.workers[w].pc.f);
  }

  lemma BackStepNearer(s: Sys, w: nat, newId: nat)
    requires ProtocolInv(s) && w < |s.workers| && !s.workers[w].pc.Scanning? && newId !in s.fibers
    requires CanAct(s, w, BackStep(s, w, newId))
    ensures Nearer(s, Do(s, w, BackStep(s, w, newId)), w)
  {
    var act := BackStep(s, w, newId);
    if act.Settle? {
      SettlingNearer(s, w);
    } else if act.RunWake? || act.SwapOut? || act.CountDown? || act.Flush? {
      LeavingNearer(s, w, act);
    } else {
      EnteringNearer(s, w, act);
    }
  }

  /** One step back. */
  lemma StepBack(s: Sys, w: nat) returns (t: Sys)
    requires ProtocolInv(s) && w < |s.workers| && !s.workers[w].pc.Scanning?
    ensures ProtocolInv(t) && Nearer(s, t, w) && Reaches(s, t, true)
    ensures Coding(s, w) && !AtCode(s.workers[w].pc) ==> Coding(t, w)
  {
    var newId := NewFiber(s.fibers);
    var act := BackStep(s, w, newId);
    BackStepCan(s, w, newId);
    BackStepNearer(s, w, newId);
    t := OneReaches(s, By(w, act));
  }

  /** The worker will run code before it is back at the top of its loop. */
  predicate Coding(s: Sys, w: nat)
    requires w < |s.workers|
  {
    match s.workers[w].pc
    case Holding(work) => !(work.FiberWork? && work.f in s.fibers && Dead(s.fibers[work.f]))
    case Prepared(_, _) => true
    case Executing(_, _, _) => true
    case _ => false
  }

  /** It runs the code of a fiber, with nothing to do before. */
  predicate AtCode(pc: Pc) { pc.Executing? && pc.wake.None? }

  /** Several steps of one worker: what it owed is on the list or still owed. */
  ghost predicate Back(s: Sys, t: Sys, w: nat) {
    && w < |s.workers| == |t.workers| && (forall v :: 0 <= v < |s.workers| && v != w ==> t.workers[v] == s.workers[v])
    && t.timers == s.timers && t.io == s.io && t.clock == s.clock && t.stopRequested == s.stopRequested
    && t.queue + Owed(t.workers[w].pc) == s.queue + Owed(s.workers[w].pc)
  }

  /** A worker can be brought back. */
  lemma {:induction false} DrainWorker(s: Sys, w: nat) returns (t: Sys)
    requires ProtocolInv(s) && w < |s.workers|
    ensures ProtocolInv(t) && Back(s, t, w) && Reaches(s, t, true)
    ensures t.workers[w].pc.Scanning? && t.queue == s.queue + Owed(s.workers[w].pc)
    decreases Rank(s.workers[w].pc)
  {
    if s.workers[w].pc.Scanning? {
      t := s;
      ReachesSelf(s);
    } else {
      var u := StepBack(s, w);
      t := DrainWorker(u, w);
      ReachesTrans(s, u, t, true);
    }
    assert t.queue + [] == t.queue;
  }

  /** A worker that will run code can be brought to where it runs it. */
  lemma {:induction false} BringToCode(s: Sys, w: nat) returns (t: Sys)
    requires ProtocolInv(s) && w < |s.workers| && Coding(s, w)
    ensures ProtocolInv(t) && Back(s, t, w) && Reaches(s, t, true) && AtCode(t.workers[w].pc)
    decreases Rank(s.workers[w].pc)
  {
    if AtCode(s.workers[w].pc) {
      t := s;
      ReachesSelf(s);
    } else {
      var u := StepBack(s, w);
      t := BringToCode(u, w);
      ReachesTrans(s, u, t, true);
    }
  }

  // ----- all workers, and then the list -----

  predicate AllScanning(s: Sys, n: nat) { n <= |s.workers| && forall v :: 0 <= v < n ==> s.workers[v].pc.Scanning? }

  /** Timers and manager are as they were, and only tasks for any thread were put on the list. */
  ghost predicate OnlyTasks(s: Sys, t: Sys) {
    && |t.workers| == |s.workers| && t.timers == s.timers && t.io == s.io && t.clock == s.clock
    && t.stopRequested == s.stopRequested && (AnyThread(s.queue) ==> AnyThread(t.queue))
  }

  lemma OwedAnyThread(q: seq<Task>, pc: Pc)
    ensures AnyThread(q) ==> AnyThread(q + Owed(pc))
  {
    var more := Owed(pc);
    assert AnyThread(more);
    if AnyThread(q) {
      assert forall i :: 0 <= i < |q + more| ==> (q + more)[i] == if i < |q| then q[i] else more[i - |q|];
    }
  }

  lemma BackOnlyTasks(s: Sys, t: Sys, w: nat)
    requires Back(s, t, w) && t.queue == s.queue + Owed(s.workers[w].pc)
    ensures OnlyTasks(s, t)
  {
    OwedAnyThread(s.queue, s.workers[w].pc);
  }

  lemma OnlyTasksTrans(s: Sys, t: Sys, u: Sys)
    requires OnlyTasks(s, t) && OnlyTasks(t, u)
    ensures OnlyTasks(s, u)
  {
  }

  lemma {:induction false} DrainWorkers(s: Sys, n: nat) returns (t: Sys)
    requires ProtocolInv(s) && n <= |s.workers|
    ensures ProtocolInv(t) && OnlyTasks(s, t) && AllScanning(t, n) && Reaches(s, t, true)
    ensures forall v :: n <= v < |s.workers| ==> t.workers[v] == s.workers[v]
  {
    if n == 0 {
      t := s;
      ReachesSelf(s);
    } else {
      var u := DrainWorkers(s, n - 1);
      t := DrainWorker(u, n - 1);
      BackOnlyTasks(u, t, n - 1);
      OnlyTasksTrans(s, u, t);
      ReachesTrans(s, u, t, true);
    }
  }

  /** While every worker is at the top of its loop, nobody runs a fiber. */
  lemma NobodyRuns(s: Sys)
    requires ProtocolInv(s) && AllScanning(s, |s.workers|)
    ensures RunningFibers(s) == {}
  {
    forall f | f in s.fibers ensures s.fibers[f].state != RUNING
    {
      if !Unowned(s, f) {
        var w :| 0 <= w < |s.workers| && Owns(s.workers[w], f);
        assert WorkerOk(s, s.workers[w]);
      }
    }
  }

  /** The first worker takes the first task. */
  lemma TakeFirst(s: Sys) returns (t: Sys)
    requires ProtocolInv(s) && AllScanning(s, |s.workers|) && s.workers != [] && s.queue != [] && AnyThread(s.queue)
    ensures ProtocolInv(t) && OnlyTasks(s, t) && Reaches(s, t, true) && t.queue == s.queue[1..]
    ensures t.workers == s.workers[0 := s.workers[0].(pc := Holding(s.queue[0].work))]
  {
    NobodyRuns(s);
    assert FirstEligible(s.queue, 0, RunningFibers(s)) == 0;
    t := OneReaches(s, By(0, Act.Take));
    assert t.queue == s.queue[1..];
  }

  /** A task that wakes a fiber leaves one that does not. */
  lemma OwedLess(q: seq<Task>)
    requires q != []
    ensures var r := q[1..] + Owed(Holding(q[0].work)); |r| + Wakers(r) < |q| + Wakers(q)
  {
    var owed := Owed(Holding(q[0].work));
    WakersAppend(q[1..], owed);
    assert owed != [] ==> owed[1..] == [];
  }

  /** ... and sees it through. */
  lemma OneTask(s: Sys) returns (t: Sys)
    requires ProtocolInv(s) && AllScanning(s, |s.workers|) && s.workers != [] && s.queue != [] && AnyThread(s.queue)
    ensures ProtocolInv(t) && OnlyTasks(s, t) && AllScanning(t, |t.workers|) && Reaches(s, t, true)
    ensures |t.queue| + Wakers(t.queue) < |s.queue| + Wakers(s.queue)
  {
    var u := TakeFirst(s);
    t := DrainWorker(u, 0);
    ReachesTrans(s, u, t, true);
    OwedLess(s.queue);
    OwedAnyThread(u.queue, u.workers[0].pc);
  }

  lemma {:induction false} DrainQueue(s: Sys) returns (t: Sys)
    requires ProtocolInv(s) && AllScanning(s, |s.workers|) && s.workers != [] && AnyThread(s.queue)
    ensures ProtocolInv(t) && OnlyTasks(s, t) && AllScanning(t, |t.workers|) && Reaches(s, t, true) && t.queue == []
    decreases |s.queue| + Wakers(s.queue)
  {
    if s.queue == [] {
      t := s;
      ReachesSelf(s);
    } else {
      var u := OneTask(s);
      t := DrainQueue(u);
      ReachesTrans(s, u, t, true);
    }
  }

  /** Whatever the workers are at, they can come to rest with nothing on the list, with the timers as they were
      and no work from outside. */
  lemma Drain(s: Sys) returns (t: Sys)
    requires ProtocolInv(s) && AccountInv(s) && s.workers != [] && AnyThread(s.queue)
    ensures ProtocolInv(t) && AccountInv(t) && OnlyTasks(s, t) && Reaches(s, t, true)
    ensures AllScanning(t, |t.workers|) && t.queue == [] && t.active == 0
  {
    var u := DrainWorkers(s, |s.workers|);
    t := DrainQueue(u);
    ReachesTrans(s, u, t, true);
    InnerReaches(s, t);
    ReachedInv(s, t);
    NobodyBusy(t.workers, CbWork(0));
  }
}
