/** What each step submits, completes and does to the timers, told from the step alone; and that over every run
    nothing submitted is lost or done twice. */
module Submissions {
  import opened Bytes
  import opened FdEvents
  import opened FdSlots
  import opened Scheduling
  import opened FiberProtocol
  import opened FiberSafety
  import opened FiberAccounting

  function ForAnyThread(ws: seq<Work>): seq<Task> {
    if ws == [] then [] else [Task(ws[0], None)] + ForAnyThread(ws[1..])
  }

  /** The tasks a step submits. */
  function Submitted(s: Sys, e: Step): seq<Task>
  {
    match e
    case By(w, act) => if w < |s.workers| then SubmittedBy(s.io, s.workers[w].pc, act) else []
    case External(Submitting(cb, thread)) => [Task(CbWork(cb), thread)]
    case External(CallingIo(op)) => ForAnyThread(Bang(s.io, op))
    case _ => []
  }

  /** A callback, the fiber that schedules itself, the fiber a timer wakes, the callbacks taken off the timers, or
      what goes off in the IO manager. */
  function SubmittedBy(io: Io, pc: Pc, act: Act): seq<Task>
  {
    match act
    case Submit(cb, thread) => [Task(CbWork(cb), thread)]
    case ScheduleSelf => if pc.Executing? then [Task(FiberWork(pc.f), None)] else []
    case RunWake => if pc.Executing? && pc.wake.Some? then [Task(FiberWork(pc.wake.value), None)] else []
    case Flush => if pc.Flushing? then ForAnyThread(pc.batch) else []
    case CallIo(op) => ForAnyThread(Bang(io, op))
    case Deliver(op) => ForAnyThread(Bang(io, op))
    case _ => []
  }

  /** The task a step completes: its fiber is back, or was dead. */
  function Completed(s: Sys, e: Step): multiset<Work>
  {
    if e.By? && e.w < |s.workers| then
      match (e.act, s.workers[e.w].pc)
      case (CountDown, Returned(_, task)) => multiset{task}
      case (DropDead, Holding(work)) => multiset{work}
      case _ => multiset{}
    else multiset{}
  }

  lemma {:induction false} AnyThreadUnpinned(ws: seq<Work>)
    ensures ForAnyThread(ws) == Unpinned(ws)
  {
    if ws != [] {
      AnyThreadUnpinned(ws[1..]);
      assert Unpinned(ws) == [Unpinned(ws)[0]] + Unpinned(ws[1..]);
    }
  }

  lemma IoSubmits(s: Sys, op: Op)
    requires FdEvents.Inv(s.io) && Safe(s.io, op)
    ensures DoIo(s, op).queue == s.queue + ForAnyThread(Bang(s.io, op))
    ensures DoIo(s, op).pushed == s.pushed + multiset(Works(ForAnyThread(Bang(s.io, op))))
  {
    WorkMeaning(s.io, op);
    AnyThreadUnpinned(Bang(s.io, op));
  }

  lemma ActSubmits(s: Sys, w: nat, act: Act)
    requires ProtocolInv(s) && w < |s.workers| && CanAct(s, w, act) && !act.Take?
    ensures var t, more := Do(s, w, act), SubmittedBy(s.io, s.workers[w].pc, act);
            t.queue == s.queue + more && t.pushed == s.pushed + multiset(Works(more))
  {
    assert s.queue + [] == s.queue && Works([]) == [];
    if act.CallIo? || act.Deliver? {
      IoSubmits(s, act.op);
    } else if act.Flush? {
      AnyThreadUnpinned(s.workers[w].pc.batch);
    } else if act.Settle? {
      assert WorkerOk(s, s.workers[w]);
      SetAsideShape(s, w, s.workers[w].pc.f);
    }
  }

  /** Unless it takes a task, a step leaves the list as it was, followed by exactly the tasks it submits. */
  lemma SubmitMeaning(s: Sys, e: Step)
    requires ProtocolInv(s) && Enabled(s, e) && !(e.By? && e.act.Take?)
    ensures Next(s, e).queue == s.queue + Submitted(s, e)
    ensures Next(s, e).pushed == s.pushed + multiset(Works(Submitted(s, e)))
  {
    assert s.queue + [] == s.queue && Works([]) == [];
    if e.By? {
      ActSubmits(s, e.w, e.act);
    } else if e.External? && e.call.CallingIo? {
      IoSubmits(s, e.call.op);
    }
  }

  /** A worker takes one task: the first that is for any thread or for its own, and is no fiber that still runs; the
      others keep their order. */
  lemma TakeMeaning(s: Sys, w: nat) returns (i: nat)
    requires ProtocolInv(s) && w < |s.workers| && CanAct(s, w, Act.Take)
    ensures i < |s.queue| && Do(s, w, Act.Take).queue == s.queue[..i] + s.queue[i + 1..]
    ensures Do(s, w, Act.Take).workers[w].pc == Holding(s.queue[i].work) && Do(s, w, Act.Take).pushed == s.pushed
    ensures s.queue[i].thread == None || s.queue[i].thread == Some(w)
    ensures forall f :: s.queue[i].work == FiberWork(f) && f in s.fibers ==> s.fibers[f].state != RUNING
    ensures forall j :: 0 <= j < i ==>
              || (exists v :: v != w && s.queue[j].thread == Some(v))
              || (exists f :: s.queue[j].work == FiberWork(f) && f in s.fibers && s.fibers[f].state == RUNING)
  {
    i := FirstEligible(s.queue, w, RunningFibers(s));
    FirstEligibleBounds(s.queue, w, RunningFibers(s));
    forall j | 0 <= j < i
      ensures || (exists v :: v != w && s.queue[j].thread == Some(v))
              || (exists f :: s.queue[j].work == FiberWork(f) && f in s.fibers && s.fibers[f].state == RUNING)
    {
      assert !Eligible(s.queue[j], w, RunningFibers(s));
      if s.queue[j].thread.Some? && s.queue[j].thread.value != w { assert s.queue[j].thread == Some(s.queue[j].thread.value); }
    }
  }

  // ----- over runs -----

  ghost function SubmittedIn(s: Sys, es: seq<Step>): multiset<Work>
    requires ProtocolInv(s) && RunOk(s, es)
    decreases |es|
  {
    if es == [] then multiset{}
    else
      StepKeeps(s, es[0]);
      multiset(Works(Submitted(s, es[0]))) + SubmittedIn(Next(s, es[0]), es[1..])
  }

  ghost function CompletedIn(s: Sys, es: seq<Step>): multiset<Work>
    requires ProtocolInv(s) && RunOk(s, es)
    decreases |es|
  {
    if es == [] then multiset{}
    else
      StepKeeps(s, es[0]);
      Completed(s, es[0]) + CompletedIn(Next(s, es[0]), es[1..])
  }

  lemma IoCompletes(s: Sys, op: Op)
    requires FdEvents.Inv(s.io) && Safe(s.io, op)
    ensures DoIo(s, op).done == s.done
  {
  }

  lemma LoopCompletes(s: Sys, w: nat, act: Act)
    requires ProtocolInv(s) && w < |s.workers| && CanAct(s, w, act) && OfLoop(act)
    ensures Do(s, w, act).done == s.done + Completed(s, By(w, act))
  {
    if act.Settle? {
      assert WorkerOk(s, s.workers[w]);
      SetAsideShape(s, w, s.workers[w].pc.f);
    } else if act.Deliver? {
      IoCompletes(s, act.op);
    }
  }

  lemma CodeCompletes(s: Sys, w: nat, act: Act)
    requires ProtocolInv(s) && w < |s.workers| && CanAct(s, w, act) && !OfLoop(act)
    ensures Do(s, w, act).done == s.done && Completed(s, By(w, act)) == multiset{}
  {
    if act.CallIo? { IoCompletes(s, act.op); }
  }

  lemma CallCompletes(s: Sys, call: Call)
    requires FdEvents.Inv(s.io) && CanCall(s, call)
    ensures Called(s, call).done == s.done
  {
    if call.CallingIo? { IoCompletes(s, call.op); }
  }

  /** A step adds what it completes to the work done. */
  lemma CompleteMeaning(s: Sys, e: Step)
    requires ProtocolInv(s) && Enabled(s, e)
    ensures Next(s, e).done == s.done + Completed(s, e)
  {
    match e
    case By(w, act) => if OfLoop(act) { LoopCompletes(s, w, act); } else { CodeCompletes(s, w, act); }
    case External(call) => CallCompletes(s, call);
    case Stop =>
    case Clock(_) =>
  }

  /** The histories count what the steps submit and complete. */
  lemma StepCounts(s: Sys, e: Step)
    requires ProtocolInv(s) && Enabled(s, e)
    ensures Next(s, e).pushed == s.pushed + multiset(Works(Submitted(s, e)))
    ensures Next(s, e).done == s.done + Completed(s, e)
  {
    CompleteMeaning(s, e);
    if e.By? && e.act.Take? {
      TakeSubmitsNothing(s, e.w);
    } else {
      SubmitMeaning(s, e);
    }
  }

  lemma TakeSubmitsNothing(s: Sys, w: nat)
    requires ProtocolInv(s) && w < |s.workers| && CanAct(s, w, Act.Take)
    ensures Do(s, w, Act.Take).pushed == s.pushed && Works(Submitted(s, By(w, Act.Take))) == []
  {
  }

  lemma {:induction false} RunCounts(s: Sys, es: seq<Step>)
    requires ProtocolInv(s) && RunOk(s, es)
    ensures RunFrom(s, es).pushed == s.pushed + SubmittedIn(s, es)
    ensures RunFrom(s, es).done == s.done + CompletedIn(s, es)
    decreases |es|
  {
    if es != [] {
      StepKeeps(s, es[0]);
      StepCounts(s, es[0]);
      RunCounts(Next(s, es[0]), es[1..]);
    }
  }

  /** How many tasks of a list are `x`. */
  function Listed(q: seq<Task>, x: Work): nat { if q == [] then 0 else One(q[0].work == x) + Listed(q[1..], x) }

  lemma {:induction false} ListedWorks(q: seq<Task>, x: Work)
    ensures multiset(Works(q))[x] == Listed(q, x)
  {
    if q != [] {
      ListedWorks(q[1..], x);
      assert Works(q) == [q[0].work] + Works(q[1..]);
    }
  }

  /** From a started manager, in every run: whatever was submitted is on the list, with one worker, or completed, as
      often as it was submitted. */
  lemma NothingLost(n: nat, slots: nat, es: seq<Step>, x: Work)
    requires slots >= 32
    ensures ProtocolInv(StartSys(n, slots))
    ensures RunOk(StartSys(n, slots), es) ==>
              var s := RunFrom(StartSys(n, slots), es);
              SubmittedIn(StartSys(n, slots), es)[x] == Listed(s.queue, x) + Held(s.workers, x) + CompletedIn(StartSys(n, slots), es)[x]
  {
    StartKeeps(n, slots);
    StartAccount(n, slots);
    if RunOk(StartSys(n, slots), es) {
      RunAccount(StartSys(n, slots), es);
      RunCounts(StartSys(n, slots), es);
      ListedWorks(RunFrom(StartSys(n, slots), es).queue, x);
    }
  }

  // ----- timers -----

  /** The steps that touch the timers. */
  predicate OnTimers(e: Step) {
    || (e.By? && (e.act.StartTimer? || e.act.CancelTimer? || e.act.Collect?))
    || (e.External? && (e.call.SettingTimer? || e.call.CancellingTimer?))
  }

  lemma IoKeepsTimers(s: Sys, op: Op)
    requires FdEvents.Inv(s.io) && Safe(s.io, op)
    ensures DoIo(s, op).timers == s.timers
  {
  }

  lemma SettleKeepsTimers(s: Sys, w: nat)
    requires ProtocolInv(s) && w < |s.workers| && CanAct(s, w, Act.Settle)
    ensures Do(s, w, Act.Settle).timers == s.timers
  {
    assert WorkerOk(s, s.workers[w]);
    SetAsideShape(s, w, s.workers[w].pc.f);
  }

  lemma TaskKeepsTimers(s: Sys, w: nat, act: Act)
    requires ProtocolInv(s) && w < |s.workers| && CanAct(s, w, act)
    requires act.Take? || act.Resume? || act.DropDead? || act.Prepare? || act.Enter? || act.CountDown? || act.Flush?
    ensures Do(s, w, act).timers == s.timers
  {
  }

  lemma LoopKeepsTimers(s: Sys, w: nat, act: Act)
    requires ProtocolInv(s) && w < |s.workers| && CanAct(s, w, act) && OfLoop(act) && !act.Collect?
    ensures Do(s, w, act).timers == s.timers
  {
    match act
    case Settle => SettleKeepsTimers(s, w);
    case Deliver(op) => IoKeepsTimers(s, op);
    case _ => TaskKeepsTimers(s, w, act);
  }

  lemma CodeKeepsTimers(s: Sys, w: nat, act: Act)
    requires ProtocolInv(s) && w < |s.workers| && CanAct(s, w, act) && !OfLoop(act) && !act.StartTimer? && !act.CancelTimer?
    ensures Do(s, w, act).timers == s.timers
  {
    if act.CallIo? { IoKeepsTimers(s, act.op); }
  }

  lemma OthersKeepTimers(s: Sys, e: Step)
    requires ProtocolInv(s) && Enabled(s, e) && !OnTimers(e)
    ensures Next(s, e).timers == s.timers
  {
    match e
    case By(w, act) => if OfLoop(act) { LoopKeepsTimers(s, w, act); } else { CodeKeepsTimers(s, w, act); }
    case External(call) => if call.CallingIo? { IoKeepsTimers(s, call.op); }
    case Stop =>
    case Clock(_) =>
  }

  /** What a step does to a timer that is set: nothing, unless it cancels it or takes it; taken, a timer that runs once
      is gone, and one that recurs is set again, as far ahead of the clock reading as its interval. */
  lemma TimerMeaning(s: Sys, e: Step, t: nat)
    requires ProtocolInv(s) && Enabled(s, e) && t in s.timers
    ensures var cancelled := (e.By? && e.act == Act.CancelTimer(t)) || e == External(CancellingTimer(t));
            var taken := e.By? && e.act.Collect? && (e.act.rollover || s.timers[t].next <= e.act.at);
            && (t in Next(s, e).timers <==> !cancelled && !(taken && s.timers[t].Once?))
            && (t in Next(s, e).timers ==>
                  Next(s, e).timers[t] ==
                  if taken then Every(s.timers[t].cb, (e.act.at + s.timers[t].ms) % WORD, s.timers[t].ms) else s.timers[t])
  {
    if !OnTimers(e) { OthersKeepTimers(s, e); }
  }

  /** A timer that was not set is set exactly by a step that sets it. */
  lemma NewTimerMeaning(s: Sys, e: Step, t: nat)
    requires ProtocolInv(s) && Enabled(s, e) && t !in s.timers
    ensures t in Next(s, e).timers <==>
            (e.By? && e.act.StartTimer? && e.act.t == t) || (e.External? && e.call.SettingTimer? && e.call.t == t)
    ensures t in Next(s, e).timers ==> Next(s, e).timers[t] == if e.By? then e.act.timer else e.call.timer
  {
    if !OnTimers(e) { OthersKeepTimers(s, e); }
  }

  /** Taking timers leaves the worker with the work of exactly those that are due, in the order in which they are. */
  lemma BatchMeaning(s: Sys, w: nat, act: Act)
    requires ProtocolInv(s) && w < |s.workers| && act.Collect? && CanAct(s, w, act)
    ensures var t := Do(s, w, act);
            && t.workers[w].pc.Flushing? && |t.workers[w].pc.batch| == |act.ts|
            && (forall i :: 0 <= i < |act.ts| ==>
                  var x := s.timers[act.ts[i]];
                  t.workers[w].pc.batch[i] == if x.Once? then x.work else CbWork(x.cb))
            && (forall x :: x in s.timers && (act.rollover || s.timers[x].next <= act.at) ==> x in act.ts)
            && (forall i, j :: 0 <= i < j < |act.ts| ==> s.timers[act.ts[i]].next <= s.timers[act.ts[j]].next)
  {
  }

  // ----- what is always possible -----

  /** Code on a fiber may submit work, set a timer, cancel any, call the manager and switch out, whatever else happened. */
  lemma CodeMay(s: Sys, w: nat, cb: nat, thread: Option<nat>, t: nat, next: nat, x: Slot, ok: bool)
    requires ProtocolInv(s) && w < |s.workers| && s.workers[w].pc.Executing? && s.workers[w].pc.wake.None?
    ensures Enabled(s, By(w, Submit(cb, thread))) && Enabled(s, By(w, Act.CancelTimer(t))) && Enabled(s, By(w, SwapOut))
    ensures t !in s.timers && next < WORD ==> Enabled(s, By(w, Act.StartTimer(t, Once(CbWork(cb), next))))
    ensures Enabled(s, By(w, CallIo(CancelEvent(x.fd, x.ev, ok)))) && Enabled(s, By(w, CallIo(CancelAllEvents(x.fd, ok))))
    ensures Enabled(s, By(w, CallIo(DelEvent(x.fd, x.ev, ok))))
    ensures x.fd < |s.io.ctxs| ==> Enabled(s, By(w, CallIo(AddEvent(x.fd, x.ev, Callback(cb), ok))))
  {
    assert WorkerOk(s, s.workers[w]);
  }

  /** So may any other thread. */
  lemma AnyoneMay(s: Sys, cb: nat, thread: Option<nat>, t: nat, next: nat, x: Slot, ok: bool)
    requires ProtocolInv(s)
    ensures Enabled(s, External(Submitting(cb, thread))) && Enabled(s, External(CancellingTimer(t)))
    ensures t !in s.timers && next < WORD ==> Enabled(s, External(SettingTimer(t, Once(CbWork(cb), next))))
    ensures Enabled(s, External(CallingIo(CancelEvent(x.fd, x.ev, ok)))) && Enabled(s, External(CallingIo(CancelAllEvents(x.fd, ok))))
    ensures Enabled(s, External(CallingIo(DelEvent(x.fd, x.ev, ok))))
    ensures x.fd < |s.io.ctxs| ==> Enabled(s, External(CallingIo(AddEvent(x.fd, x.ev, Callback(cb), ok))))
  {
  }

  /** An idle worker may deliver any report that names registered events, or an error or a hang-up alone. */
  lemma IdleMay(s: Sys, w: nat, fd: nat, r: Report, ok: bool)
    requires ProtocolInv(s) && w < |s.workers| && s.workers[w].pc.Scanning?
    requires forall ev :: Named(r, ev) ==> On(s.io, Slot(fd, ev))
    ensures Enabled(s, By(w, Act.Deliver(Reported(fd, r, ok))))
  {
    FaultMeaning(s.io, fd, r, ok);
  }
}
