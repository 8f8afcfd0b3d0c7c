/** Whether a fiber that waits for an event is ever run again. */
module FiberWaits {
  import opened Bytes
  import opened FdEvents
  import opened Scheduling
  import opened FiberProtocol
  import opened FiberSafety

  /** Nobody has the fiber, and no place holds its wake-up. */
  ghost predicate Lost(s: Sys, f: nat) { f in s.fibers && Unowned(s, f) && NoToken(s, f) }

  lemma NotOwned(s: Sys, w: nat, f: nat)
    requires Unowned(s, f) && w < |s.workers|
    ensures !Owns(s.workers[w], f)
  {
  }

  /** Worker `w` changed to `k`, no place gained a token, and nothing else moved. */
  predicate OnlyWorker(s: Sys, t: Sys, w: nat, k: Worker) {
    && w < |s.workers| && t.workers == s.workers[w := k]
    && t.io == s.io && t.queue == s.queue && t.timers == s.timers
    && PcTarget(k.pc) in {None, PcTarget(s.workers[w].pc)} && Batch(k.pc) == []
  }

  lemma OnlyWorkerTokens(s: Sys, t: Sys, w: nat, k: Worker, f: nat)
    requires OnlyWorker(s, t, w, k) && NoToken(s, f)
    ensures NoToken(t, f)
  {
    forall a: Source ensures TargetAt(t, a) != Some(f)
    {
      assert TargetAt(s, a) != Some(f);
    }
  }

  lemma OnlyWorkerLost(s: Sys, t: Sys, w: nat, k: Worker, f: nat)
    requires OnlyWorker(s, t, w, k) && Lost(s, f) && f in t.fibers && !Owns(k, f)
    ensures Lost(t, f)
  {
    OnlyWorkerTokens(s, t, w, k, f);
    forall v | 0 <= v < |t.workers| ensures !Owns(t.workers[v], f)
    {
      NotOwned(s, v, f);
    }
  }

  /** The worker loop gives a lost fiber to nobody. */
  lemma StartLost(s: Sys, w: nat, act: Act, f: nat)
    requires ProtocolInv(s) && w < |s.workers| && CanAct(s, w, act) && Lost(s, f)
    requires act.Resume? || act.Prepare? || act.Enter?
    ensures Lost(Do(s, w, act), f)
  {
    var t := Do(s, w, act);
    NotOwned(s, w, f);
    assert TargetAt(s, AtWorker(w)) != Some(f);
    OnlyWorkerLost(s, t, w, t.workers[w], f);
  }

  lemma EndLost(s: Sys, w: nat, act: Act, f: nat)
    requires ProtocolInv(s) && w < |s.workers| && CanAct(s, w, act) && Lost(s, f)
    requires act.DropDead? || act.CountDown? || act.SwapOut? || act.Finish?
    ensures Lost(Do(s, w, act), f)
  {
    var t := Do(s, w, act);
    NotOwned(s, w, f);
    OnlyWorkerLost(s, t, w, t.workers[w], f);
  }

  lemma SettleLost(s: Sys, w: nat, f: nat)
    requires ProtocolInv(s) && w < |s.workers| && CanAct(s, w, Settle) && Lost(s, f)
    ensures Lost(Do(s, w, Settle), f)
  {
    var t := Do(s, w, Settle);
    assert WorkerOk(s, s.workers[w]);
    NotOwned(s, w, f);
    SetAsideShape(s, w, s.workers[w].pc.f);
    OnlyWorkerLost(s, t, w, t.workers[w], f);
  }

  /** Tokens only move. */
  lemma ShiftLost(s: Sys, w: nat, act: Act, f: nat)
    requires ProtocolInv(s) && w < |s.workers| && CanAct(s, w, act) && Lost(s, f)
    requires act.Take? || act.RunWake? || act.Collect? || act.Flush?
    ensures Lost(Do(s, w, act), f)
  {
    var t := Do(s, w, act);
    SamePeople(s, t);
    forall a: Source ensures TargetAt(t, a) != Some(f)
    {
      if TargetAt(t, a).Some? {
        match act
        case Take => TakePulls(s, w, a);
        case RunWake => WakePulls(s, w, a);
        case Collect(_, _, _) => CollectPulls(s, w, act, a);
        case Flush => FlushPulls(s, w, a);
      }
    }
  }

  /** What an operation that triggers nothing makes of the slots. */
  lemma QuietSlots(io: Io, op: Op, f: nat, fd: nat, ev: Event)
    requires FdEvents.Inv(io) && Safe(io, op) && !Triggers(op)
    requires op.AddEvent? && op.req.CurrentFiber? ==> op.req.f != f
    ensures SlotWork(Apply(io, op).0, fd, ev) == Some(FiberWork(f)) ==> SlotWork(io, fd, ev) == Some(FiberWork(f))
  {
    if op.AddEvent? {
      SlotsAfterAdd(io, op, fd, ev);
    } else {
      SlotAfter(io, op, Slot(fd, ev));
    }
  }

  lemma IoLost(s: Sys, op: Op, f: nat)
    requires ProtocolInv(s) && Safe(s.io, op) && Lost(s, f)
    requires op.AddEvent? && op.req.CurrentFiber? ==> op.req.f != f
    ensures Lost(DoIo(s, op), f)
  {
    var t := DoIo(s, op);
    SamePeople(s, t);
    StepBalance(s.io, op, Slot(0, READ));
    forall a: Source ensures TargetAt(t, a) != Some(f)
    {
      assert TargetAt(s, a) != Some(f);
      if Triggers(op) {
        if TargetAt(t, a).Some? { FirePulls(s, op, a); }
      } else if a.AtSlot? {
        QuietSlots(s.io, op, f, a.fd, a.ev);
        NoWakeWork(t.io, a.fd, a.ev);
      }
    }
  }

  /** A slot holds a fiber or a callback. */
  lemma NoWakeWork(io: Io, fd: nat, ev: Event)
    ensures SlotWork(io, fd, ev).Some? ==> !SlotWork(io, fd, ev).value.WakeWork?
  {
  }

  lemma StepLost(s: Sys, e: Step, f: nat)
    requires ProtocolInv(s) && Enabled(s, e) && Lost(s, f)
    ensures Lost(Next(s, e), f)
  {
    if e.By? {
      var w, act := e.w, e.act;
      NotOwned(s, w, f);
      if act.CallIo? || act.Deliver? {
        IoLost(s, act.op, f);
      } else if act.Take? || act.RunWake? || act.Collect? || act.Flush? {
        ShiftLost(s, w, act, f);
      } else if act.DropDead? || act.CountDown? || act.SwapOut? || act.Finish? {
        EndLost(s, w, act, f);
      } else if act.Settle? {
        SettleLost(s, w, f);
      } else if act.Submit? || act.ScheduleSelf? || act.StartTimer? || act.CancelTimer? {
        CodeLost(s, w, act, f);
      } else {
        StartLost(s, w, act, f);
      }
    } else if e.External? {
      CalledLost(s, e.call, f);
    } else {
      StopLost(s, Next(s, e), f);
    }
  }

  lemma CalledLost(s: Sys, call: Call, f: nat)
    requires ProtocolInv(s) && CanCall(s, call) && Lost(s, f)
    ensures Lost(Called(s, call), f)
  {
    match call
    case Submitting(cb, thread) => PushLost(s, Task(CbWork(cb), thread), f);
    case CallingIo(op) => IoLost(s, op, f);
    case SettingTimer(id, timer) => TimersLost(s, s.timers[id := timer], f);
    case CancellingTimer(id) => TimersLost(s, s.timers - {id}, f);
  }

  lemma StopLost(s: Sys, t: Sys, f: nat)
    requires Lost(s, f) && t == s.(stopRequested := t.stopRequested, clock := t.clock)
    ensures Lost(t, f)
  {
    SamePeople(s, t);
    forall a: Source ensures TargetAt(t, a) != Some(f)
    {
      assert TargetAt(s, a) != Some(f);
    }
  }

  /** A task on the list or a timer that is not for the fiber. */
  lemma PushLost(s: Sys, task: Task, f: nat)
    requires Lost(s, f) && Target(task.work) != Some(f)
    ensures Lost(Push(s, [task]), f)
  {
    var t := Push(s, [task]);
    SamePeople(s, t);
    forall a: Source ensures TargetAt(t, a) != Some(f)
    {
      assert TargetAt(s, a) != Some(f);
    }
  }

  lemma TimersLost(s: Sys, timers: map<nat, Timer>, f: nat)
    requires Lost(s, f)
    requires forall t :: t in timers ==> (t in s.timers && timers[t] == s.timers[t]) || Target(TimerWork(timers[t])) != Some(f)
    ensures Lost(s.(timers := timers), f)
  {
    var t := s.(timers := timers);
    SamePeople(s, t);
    forall a: Source ensures TargetAt(t, a) != Some(f)
    {
      assert TargetAt(s, a) != Some(f);
    }
  }

  lemma CodeLost(s: Sys, w: nat, act: Act, f: nat)
    requires ProtocolInv(s) && w < |s.workers| && CanAct(s, w, act) && Lost(s, f)
    requires act.Submit? || act.ScheduleSelf? || act.StartTimer? || act.CancelTimer?
    ensures Lost(Do(s, w, act), f)
  {
    NotOwned(s, w, f);
    match act
    case Submit(cb, thread) => PushLost(s, Task(CbWork(cb), thread), f);
    case ScheduleSelf => PushLost(s, Task(FiberWork(s.workers[w].pc.f), None), f);
    case StartTimer(id, timer) => TimersLost(s, s.timers[id := timer], f);
    case CancelTimer(id) => TimersLost(s, s.timers - {id}, f);
  }

  /** A fiber that nobody has and whose wake-up is nowhere stays so in every run: it never runs again. */
  lemma {:induction false} LostForever(s: Sys, es: seq<Step>, f: nat)
    requires ProtocolInv(s) && RunOk(s, es) && Lost(s, f)
    ensures Lost(RunFrom(s, es), f)
    decreases |es|
  {
    if es != [] {
      StepKeeps(s, es[0]);
      StepLost(s, es[0], f);
      LostForever(Next(s, es[0]), es[1..], f);
    }
  }

  /** The fiber's wake-up is on the list. */
  predicate Queued(s: Sys, f: nat) { exists i :: 0 <= i < |s.queue| && Target(s.queue[i].work) == Some(f) }

  ghost predicate CanBeQueued(s: Sys, f: nat)
    requires ProtocolInv(s)
  {
    exists es :: RunOk(s, es) && Queued(RunFrom(s, es), f)
  }

  lemma LostIsNotQueued(s: Sys, f: nat)
    requires ProtocolInv(s) && Lost(s, f)
    ensures !CanBeQueued(s, f)
  {
    forall es | RunOk(s, es) ensures !Queued(RunFrom(s, es), f)
    {
      LostForever(s, es, f);
      var t := RunFrom(s, es);
      forall i | 0 <= i < |t.queue| ensures Target(t.queue[i].work) != Some(f)
      {
        assert TargetAt(t, InQueue(i)) != Some(f);
      }
    }
  }

  /** A scanning worker that is handed a report of the event queues what the slot holds. */
  lemma ReportQueues(s: Sys, w: nat, fd: nat, ev: Event, f: nat)
    requires ProtocolInv(s) && w < |s.workers| && s.workers[w].pc.Scanning?
    requires SlotWork(s.io, fd, ev) == Some(FiberWork(f))
    ensures CanBeQueued(s, f)
  {
    var op := Reported(fd, Report(ev == READ, ev == WRITE, false), true);
    var e := By(w, Deliver(op));
    StaleReport(s.io, fd, op.report, true);
    assert RealEvents(s.io.ctxs[fd], op.report) == {ev};
    assert ev in Fired(s.io, op);
    FiredWork(s.io, op);
    StepKeeps(s, e);
    var t, ws := Next(s, e), Apply(s.io, op).1;
    var i := |s.queue| + if ev.READ? then 0 else |ws| - 1;
    assert t.queue[i].work == FiberWork(f);
    assert [e][1..] == [];
    assert RunOk(t, []) && RunFrom(t, []) == t;
    assert RunOk(s, [e]) && RunFrom(s, [e]) == t;
  }

  /** Switching out, counting down and setting aside, with no other step between. */
  ghost predicate Leads(s: Sys, w: nat, t: Sys) {
    && FdEvents.Inv(s.io) && w < |s.workers| && CanAct(s, w, SwapOut)
    && var a := Do(s, w, SwapOut);
    w < |a.workers| && FdEvents.Inv(a.io) && CanAct(a, w, CountDown) && var b := Do(a, w, CountDown);
    w < |b.workers| && FdEvents.Inv(b.io) && CanAct(b, w, Settle) && t == Do(b, w, Settle)
  }

  lemma LeadsBy(s: Sys, w: nat, a: Sys, b: Sys, t: Sys)
    requires FdEvents.Inv(s.io) && w < |s.workers| && CanAct(s, w, SwapOut) && a == Do(s, w, SwapOut)
    requires w < |a.workers| && FdEvents.Inv(a.io) && CanAct(a, w, CountDown) && b == Do(a, w, CountDown)
    requires w < |b.workers| && FdEvents.Inv(b.io) && CanAct(b, w, Settle) && t == Do(b, w, Settle)
    ensures Leads(s, w, t)
  {
  }

  /** The fiber switches out. */
  lemma Away(s: Sys, w: nat) returns (t: Sys)
    requires ProtocolInv(s) && w < |s.workers| && s.workers[w].pc.Executing? && s.workers[w].pc.wake.None?
    ensures var f := s.workers[w].pc.f;
            && CanAct(s, w, SwapOut) && t == Do(s, w, SwapOut) && ProtocolInv(t) && w < |t.workers| && t.io == s.io
            && t.workers[w].pc.Returned? && t.workers[w].pc.f == f && f in t.fibers && t.fibers[f].state == RUNING
            && (NoToken(s, f) ==> NoToken(t, f))
  {
    var f := s.workers[w].pc.f;
    assert WorkerOk(s, s.workers[w]);
    t := Do(s, w, SwapOut);
    StepKeeps(s, By(w, SwapOut));
    if NoToken(s, f) { OnlyWorkerTokens(s, t, w, t.workers[w], f); }
  }

  /** It is counted down. */
  lemma Counted(s: Sys, w: nat) returns (t: Sys)
    requires ProtocolInv(s) && w < |s.workers| && s.workers[w].pc.Returned?
    ensures var f := s.workers[w].pc.f;
            && t == Do(s, w, CountDown) && ProtocolInv(t) && w < |t.workers| && t.io == s.io && t.fibers == s.fibers
            && t.workers[w].pc == Settling(f)
            && (NoToken(s, f) ==> NoToken(t, f))
  {
    var f := s.workers[w].pc.f;
    t := Do(s, w, CountDown);
    StepKeeps(s, By(w, CountDown));
    if NoToken(s, f) { OnlyWorkerTokens(s, t, w, t.workers[w], f); }
  }

  /** It is set aside. */
  lemma Aside(s: Sys, w: nat) returns (t: Sys)
    requires ProtocolInv(s) && w < |s.workers| && s.workers[w].pc.Settling? && s.workers[w].pc.f in s.fibers
    requires s.fibers[s.workers[w].pc.f].state == RUNING
    ensures var f := s.workers[w].pc.f;
            && t == Do(s, w, Settle) && ProtocolInv(t) && w < |t.workers| && t.io == s.io
            && t.workers[w].pc.Scanning? && f in t.fibers && Unowned(t, f)
            && (NoToken(s, f) ==> NoToken(t, f))
  {
    var f := s.workers[w].pc.f;
    OwnerAlone(s, w, f);
    t := Do(s, w, Settle);
    StepKeeps(s, By(w, Settle));
    assert t.workers == s.workers[w := t.workers[w]];
    forall v | 0 <= v < |t.workers| ensures !Owns(t.workers[v], f)
    {
      if v != w { assert !Owns(s.workers[v], f); }
    }
    if NoToken(s, f) { OnlyWorkerTokens(s, t, w, t.workers[w], f); }
  }

  lemma SetAsideAfter(s: Sys, w: nat) returns (t: Sys)
    requires ProtocolInv(s) && w < |s.workers| && s.workers[w].pc.Executing? && s.workers[w].pc.wake.None?
    ensures var f := s.workers[w].pc.f;
            && ProtocolInv(t) && w < |t.workers| && t.workers[w].pc.Scanning? && t.io == s.io
            && f in t.fibers && Unowned(t, f) && (NoToken(s, f) ==> NoToken(t, f))
    ensures Leads(s, w, t)
  {
    var a := Away(s, w);
    var b := Counted(a, w);
    t := Aside(b, w);
    LeadsBy(s, w, a, b, t);
  }

  /** Registering on a slot with a callback gives the fiber no wake-up. */
  lemma ShadowedToken(s: Sys, op: Op, f: nat)
    requires ProtocolInv(s) && NoToken(s, f) && op.AddEvent? && Safe(s.io, op) && op.ok && op.req == CurrentFiber(f)
    requires GetContext(s.io.ctxs[op.fd], op.ev).cb.Some?
    ensures NoToken(DoIo(s, op), f)
  {
    TriggerRunsWhatWasAsked(s.io, op.fd, op.ev, op.req);
    forall a: Source ensures TargetAt(DoIo(s, op), a) != Some(f)
    {
      assert TargetAt(s, a) != Some(f);
      if a.AtSlot? { SlotsAfterAdd(s.io, op, a.fd, a.ev); }
    }
  }

  /** A running fiber registers for an event nobody is registered for, switches out and is set aside: its wake-up
      can ever reach the list exactly if the slot held no callback when it registered. */
  lemma WaiterIsQueuedIff(s: Sys, w: nat, fd: nat, ev: Event) returns (t: Sys)
    requires ProtocolInv(s) && w < |s.workers| && s.workers[w].pc.Executing?
    requires CanAct(s, w, CallIo(AddEvent(fd, ev, CurrentFiber(s.workers[w].pc.f), true)))
    requires !Armed(s.io, Slot(fd, ev))
    ensures Leads(Do(s, w, CallIo(AddEvent(fd, ev, CurrentFiber(s.workers[w].pc.f), true))), w, t) && ProtocolInv(t)
    ensures CanBeQueued(t, s.workers[w].pc.f) <==> GetContext(s.io.ctxs[fd], ev).cb.None?
  {
    var f := s.workers[w].pc.f;
    var op := AddEvent(fd, ev, CurrentFiber(f), true);
    var u := Do(s, w, CallIo(op));
    StepKeeps(s, By(w, CallIo(op)));
    TriggerRunsWhatWasAsked(s.io, fd, ev, op.req);
    t := SetAsideAfter(u, w);
    if GetContext(s.io.ctxs[fd], ev).cb.None? {
      SlotAfter(s.io, op, Slot(fd, ev));
      ReportQueues(t, w, fd, ev, f);
    } else {
      ShadowedToken(s, op, f);
      LostIsNotQueued(t, f);
    }
  }

  // ----- what others do to a waiter's registration -----

  /** The fiber is set aside, and its wake-up is in the slot. */
  ghost predicate WaitsAt(s: Sys, x: Slot, f: nat) { f in s.fibers && Unowned(s, f) && SlotWork(s.io, x.fd, x.ev) == Some(FiberWork(f)) }

  /** Somebody, inside or outside, calls the manager. */
  predicate Calls(e: Step, op: Op) {
    (e.By? && e.act == CallIo(op)) || (e.External? && e.call == CallingIo(op))
  }

  lemma CallingState(s: Sys, e: Step, op: Op)
    requires ProtocolInv(s) && Enabled(s, e) && Calls(e, op)
    ensures Safe(s.io, op) && Next(s, e) == DoIo(s, op) && ProtocolInv(DoIo(s, op))
  {
    StepKeeps(s, e);
  }

  /** A fiber that waits is not the one that calls. */
  lemma NotTheCaller(s: Sys, e: Step, op: Op, f: nat)
    requires ProtocolInv(s) && Enabled(s, e) && Calls(e, op) && Unowned(s, f)
    ensures op.AddEvent? && op.req.CurrentFiber? ==> op.req.f != f
  {
    if e.By? { NotOwned(s, e.w, f); }
  }

  lemma OnlyToken(s: Sys, x: Slot, f: nat, a: Source)
    requires ProtocolInv(s) && SlotWork(s.io, x.fd, x.ev) == Some(FiberWork(f)) && a != AtSlot(x.fd, x.ev)
    ensures TargetAt(s, a) != Some(f)
  {
    assert TargetAt(s, AtSlot(x.fd, x.ev)) == Some(f);
  }

  /** After a registration on top of it, or a deletion, no place holds its wake-up. */
  lemma SpoiledToken(s: Sys, op: Op, x: Slot, f: nat, a: Source)
    requires ProtocolInv(s) && Safe(s.io, op) && SlotWork(s.io, x.fd, x.ev) == Some(FiberWork(f))
    requires Registers(op, x) || Deletes(s.io, op, x)
    requires op.AddEvent? && op.req.CurrentFiber? ==> op.req.f != f
    ensures TargetAt(DoIo(s, op), a) != Some(f)
  {
    if a != AtSlot(x.fd, x.ev) { OnlyToken(s, x, f, a); }
    if op.AddEvent? {
      AddTokens(s, op, a);
    } else if a.AtSlot? {
      SlotAfter(s.io, op, Slot(a.fd, a.ev));
    }
  }

  /** Registering on top of it, or deleting its registration, leaves it no wake-up. */
  lemma SpoiledIsLost(s: Sys, e: Step, op: Op, x: Slot, f: nat)
    requires ProtocolInv(s) && Enabled(s, e) && Calls(e, op) && WaitsAt(s, x, f)
    requires Registers(op, x) || Deletes(s.io, op, x)
    ensures ProtocolInv(Next(s, e)) && Lost(Next(s, e), f)
  {
    CallingState(s, e, op);
    NotTheCaller(s, e, op, f);
    var t := Next(s, e);
    SamePeople(s, t);
    forall a: Source ensures TargetAt(t, a) != Some(f) { SpoiledToken(s, op, x, f, a); }
  }

  /** Firing its slot queues it. */
  lemma FiredIsQueued(s: Sys, op: Op, x: Slot, f: nat)
    requires ProtocolInv(s) && Safe(s.io, op) && SlotWork(s.io, x.fd, x.ev) == Some(FiberWork(f)) && Fires(s.io, op, x)
    ensures Queued(DoIo(s, op), f)
  {
    FiredWork(s.io, op);
    var t, ws := DoIo(s, op), Apply(s.io, op).1;
    var i := |s.queue| + if x.ev.READ? then 0 else |ws| - 1;
    assert t.queue[i].work == FiberWork(f);
  }

  lemma QueuedNow(s: Sys, f: nat)
    requires ProtocolInv(s) && Queued(s, f)
    ensures CanBeQueued(s, f)
  {
    assert RunOk(s, []) && RunFrom(s, []) == s;
  }

  lemma QueuedNext(s: Sys, e: Step, f: nat)
    requires ProtocolInv(s) && Enabled(s, e) && ProtocolInv(Next(s, e)) && Queued(Next(s, e), f)
    ensures CanBeQueued(s, f)
  {
    assert [e][1..] == [];
    assert RunOk(Next(s, e), []) && RunFrom(Next(s, e), []) == Next(s, e);
    assert RunOk(s, [e]) && RunFrom(s, [e]) == Next(s, e);
  }

  /** As long as its wake-up is in the slot it can be queued: anybody may cancel the event. */
  lemma WaitsQueues(s: Sys, x: Slot, f: nat)
    requires ProtocolInv(s) && SlotWork(s.io, x.fd, x.ev) == Some(FiberWork(f))
    ensures CanBeQueued(s, f)
  {
    var op := CancelEvent(x.fd, x.ev, true);
    var e := External(CallingIo(op));
    CallingState(s, e, op);
    FiredIsQueued(s, op, x, f);
    QueuedNext(s, e, f);
  }

  /** After a call of anybody a waiting fiber can still be queued exactly if the call did not register on top of its
      registration, which is only logged, or delete it. */
  lemma WaiterSurvivesIff(s: Sys, e: Step, op: Op, x: Slot, f: nat)
    requires ProtocolInv(s) && Enabled(s, e) && Calls(e, op) && WaitsAt(s, x, f)
    ensures ProtocolInv(Next(s, e))
    ensures CanBeQueued(Next(s, e), f) <==> !Registers(op, x) && !Deletes(s.io, op, x)
  {
    CallingState(s, e, op);
    if Registers(op, x) || Deletes(s.io, op, x) {
      SpoiledIsLost(s, e, op, x, f);
      LostIsNotQueued(Next(s, e), f);
    } else if Fires(s.io, op, x) {
      FiredIsQueued(s, op, x, f);
      QueuedNow(Next(s, e), f);
    } else {
      SlotAfter(s.io, op, x);
      WaitsQueues(Next(s, e), x, f);
    }
  }
}
