/** Where every submitted task is, and what the active counter counts. */
module FiberAccounting {
  import opened Bytes
  import opened FdEvents
  import opened Scheduling
  import opened FiberProtocol
  import opened FiberSafety

  /** The task a worker is busy with, from taking it off the list to counting it down. */
  function HeldWork(pc: Pc): Option<Work>
  {
    match pc
    case Holding(work) => Some(work)
    case Prepared(_, task) => Some(task)
    case Executing(_, _, task) => Some(task)
    case Returned(_, task) => Some(task)
    case _ => None
  }

  /** How many workers are busy with `x`. */
  function Held(ks: seq<Worker>, x: Work): nat
  {
    if ks == [] then 0 else One(HeldWork(ks[0].pc) == Some(x)) + Held(ks[1..], x)
  }

  /** How many workers are busy. */
  function Busy(ks: seq<Worker>): nat
  {
    if ks == [] then 0 else One(HeldWork(ks[0].pc).Some?) + Busy(ks[1..])
  }

  lemma {:induction false} HeldUpdate(ks: seq<Worker>, w: nat, k: Worker, x: Work)
    requires w < |ks|
    ensures Held(ks[w := k], x) == Held(ks, x) - One(HeldWork(ks[w].pc) == Some(x)) + One(HeldWork(k.pc) == Some(x))
    ensures Busy(ks[w := k]) == Busy(ks) - One(HeldWork(ks[w].pc).Some?) + One(HeldWork(k.pc).Some?)
  {
    if w == 0 {
      assert ks[0 := k][1..] == ks[1..];
    } else {
      assert ks[w := k][1..] == ks[1..][w - 1 := k];
      HeldUpdate(ks[1..], w - 1, k, x);
    }
  }

  lemma {:induction false} NobodyBusy(ks: seq<Worker>, x: Work)
    ensures Busy(ks) == 0 <==> forall w :: 0 <= w < |ks| ==> HeldWork(ks[w].pc) == None
    ensures Busy(ks) == 0 ==> Held(ks, x) == 0
  {
    if ks != [] {
      NobodyBusy(ks[1..], x);
      assert forall w :: 1 <= w < |ks| ==> ks[w] == ks[1..][w - 1];
    }
  }

  /** Every task submitted is queued, held by one worker, or finished, as often as it was
      submitted; and the counter counts the holders. */
  ghost predicate AccountInv(s: Sys)
  {
    && (forall x: Work :: s.pushed[x] == multiset(Works(s.queue))[x] + Held(s.workers, x) + s.done[x])
    && s.active == Busy(s.workers)
    && s.io.pending >= SetBits(s.io.ctxs)
  }

  lemma WorksAppend(a: seq<Task>, b: seq<Task>)
    ensures multiset(Works(a + b)) == multiset(Works(a)) + multiset(Works(b))
  {
    assert Works(a + b) == Works(a) + Works(b);
  }

  lemma WorksRemove(q: seq<Task>, i: nat)
    requires i < |q|
    ensures multiset(Works(q)) == multiset(Works(RemoveAt(q, i))) + multiset{q[i].work}
  {
    assert Works(q) == Works(q[..i]) + [q[i].work] + Works(q[i + 1..]);
    assert Works(RemoveAt(q, i)) == Works(q[..i]) + Works(q[i + 1..]);
  }

  lemma PushAccount(s: Sys, ts: seq<Task>)
    requires AccountInv(s)
    ensures AccountInv(Push(s, ts))
  {
    WorksAppend(s.queue, ts);
  }

  lemma IoAccount(s: Sys, op: Op)
    requires AccountInv(s) && FdEvents.Inv(s.io) && Safe(s.io, op)
    ensures AccountInv(DoIo(s, op))
  {
    StepBalance(s.io, op, Slot(0, READ));
    var (io, ws) := Apply(s.io, op);
    PushAccount(s.(io := io), Unpinned(ws));
  }

  /** Moving one worker without changing what it is busy with. */
  lemma MoveAccount(s: Sys, t: Sys, w: nat, k: Worker)
    requires AccountInv(s) && w < |s.workers| && t.workers == s.workers[w := k] && HeldWork(k.pc) == HeldWork(s.workers[w].pc)
    requires t.io == s.io && t.queue == s.queue && t.pushed == s.pushed && t.done == s.done && t.active == s.active
    ensures AccountInv(t)
  {
    forall x: Work ensures Held(t.workers, x) == Held(s.workers, x) && Busy(t.workers) == Busy(s.workers)
    {
      HeldUpdate(s.workers, w, k, x);
    }
    HeldUpdate(s.workers, w, k, CbWork(0));
  }

  lemma TakeAccount(s: Sys, w: nat)
    requires AccountInv(s) && FdEvents.Inv(s.io) && w < |s.workers| && CanAct(s, w, Take)
    ensures AccountInv(Do(s, w, Take))
  {
    var i := FirstEligible(s.queue, w, RunningFibers(s));
    var t, work := Do(s, w, Take), s.queue[i].work;
    WorksRemove(s.queue, i);
    forall x: Work ensures Held(t.workers, x) == Held(s.workers, x) + One(x == work)
    {
      HeldUpdate(s.workers, w, s.workers[w].(pc := Holding(work)), x);
    }
    HeldUpdate(s.workers, w, s.workers[w].(pc := Holding(work)), work);
  }

  /** Counting a task down moves it to the finished ones. */
  lemma DoneAccount(s: Sys, t: Sys, w: nat, pc: Pc, work: Work)
    requires AccountInv(s) && w < |s.workers| && t.workers == s.workers[w := s.workers[w].(pc := pc)]
    requires HeldWork(s.workers[w].pc) == Some(work) && HeldWork(pc) == None
    requires t.done == s.done + multiset{work} && t.active == s.active - 1
    requires t.io == s.io && t.queue == s.queue && t.pushed == s.pushed
    ensures AccountInv(t)
  {
    forall x: Work ensures Held(t.workers, x) == Held(s.workers, x) - One(x == work)
    {
      HeldUpdate(s.workers, w, s.workers[w].(pc := pc), x);
    }
    HeldUpdate(s.workers, w, s.workers[w].(pc := pc), work);
  }

  lemma SettleAccount(s: Sys, w: nat)
    requires ProtocolInv(s) && AccountInv(s) && w < |s.workers| && CanAct(s, w, Settle)
    ensures AccountInv(Do(s, w, Settle))
  {
    var f, k := s.workers[w].pc.f, s.workers[w];
    assert WorkerOk(s, k);
    var last := if k.cache == Some(f) && !Dead(s.fibers[f]) then Worker(Scanning, None) else k.(pc := Scanning);
    assert s.workers[w := k.(pc := Scanning)][w := last] == s.workers[w := last];
    MoveAccount(s, Do(s, w, Settle), w, last);
  }

  lemma FlushAccount(s: Sys, w: nat)
    requires AccountInv(s) && FdEvents.Inv(s.io) && w < |s.workers| && CanAct(s, w, Flush)
    ensures AccountInv(Do(s, w, Flush))
  {
    var ts := Unpinned(s.workers[w].pc.batch);
    PushAccount(s, ts);
    MoveAccount(Push(s, ts), Do(s, w, Flush), w, s.workers[w].(pc := Scanning));
  }

  lemma RunWakeAccount(s: Sys, w: nat)
    requires AccountInv(s) && FdEvents.Inv(s.io) && w < |s.workers| && CanAct(s, w, RunWake)
    ensures AccountInv(Do(s, w, RunWake))
  {
    var pc := s.workers[w].pc;
    var ts := [Task(FiberWork(pc.wake.value), None)];
    PushAccount(s, ts);
    MoveAccount(Push(s, ts), Do(s, w, RunWake), w, s.workers[w].(pc := pc.(wake := None)));
  }

  /** Starting, entering and leaving a fiber keep the worker busy with the same task. */
  lemma EnterAccount(s: Sys, w: nat, act: Act)
    requires AccountInv(s) && FdEvents.Inv(s.io) && w < |s.workers| && CanAct(s, w, act)
    requires act.Resume? || act.Prepare? || act.Enter?
    ensures AccountInv(Do(s, w, act))
  {
    var t, k := Do(s, w, act), s.workers[w];
    match act
    case Resume => MoveAccount(s, t, w, k.(pc := Executing(k.pc.work.f, None, k.pc.work)));
    case Enter => MoveAccount(s, t, w, k.(pc := Executing(k.pc.f, Target(k.pc.task), k.pc.task)));
    case Prepare(newId) =>
      var f := if k.cache.Some? then k.cache.value else newId;
      MoveAccount(s, t, w, Worker(Prepared(f, k.pc.work), Some(f)));
  }

  lemma LeaveAccount(s: Sys, w: nat, act: Act)
    requires AccountInv(s) && FdEvents.Inv(s.io) && w < |s.workers| && CanAct(s, w, act)
    requires act.SwapOut? || act.Finish?
    ensures AccountInv(Do(s, w, act))
  {
    var t := Do(s, w, act);
    var k := t.workers[w];
    assert t.workers == s.workers[w := k];
    MoveAccount(s, t, w, k);
  }

  /** From the list to a worker, and from there to the finished ones. */
  lemma TaskAccount(s: Sys, w: nat, act: Act)
    requires ProtocolInv(s) && AccountInv(s) && w < |s.workers| && CanAct(s, w, act)
    requires act.Take? || act.DropDead? || act.CountDown?
    ensures AccountInv(Do(s, w, act))
  {
    var pc := s.workers[w].pc;
    match act
    case Take => TakeAccount(s, w);
    case DropDead => DoneAccount(s, Do(s, w, act), w, Scanning, pc.work);
    case CountDown => DoneAccount(s, Do(s, w, act), w, Settling(pc.f), pc.task);
  }

  lemma LoopAccount(s: Sys, w: nat, act: Act)
    requires ProtocolInv(s) && AccountInv(s) && w < |s.workers| && CanAct(s, w, act)
    requires act.Settle? || act.RunWake? || act.Collect? || act.Flush?
    ensures AccountInv(Do(s, w, act))
  {
    match act
    case Settle => SettleAccount(s, w);
    case RunWake => RunWakeAccount(s, w);
    case Collect(_, _, ts) => MoveAccount(s, Do(s, w, act), w, s.workers[w].(pc := Flushing(Callbacks(s.timers, ts))));
    case Flush => FlushAccount(s, w);
  }

  lemma CodeAccount(s: Sys, w: nat, act: Act)
    requires ProtocolInv(s) && AccountInv(s) && w < |s.workers| && CanAct(s, w, act)
    requires act.Submit? || act.ScheduleSelf? || act.CallIo? || act.Deliver? || act.StartTimer? || act.CancelTimer?
    ensures AccountInv(Do(s, w, act))
  {
    match act
    case Submit(cb, thread) => PushAccount(s, [Task(CbWork(cb), thread)]);
    case ScheduleSelf => PushAccount(s, [Task(FiberWork(s.workers[w].pc.f), None)]);
    case CallIo(op) => IoAccount(s, op);
    case Deliver(op) => IoAccount(s, op);
    case StartTimer(_, _) =>
    case CancelTimer(_) =>
  }

  lemma StepAccount(s: Sys, e: Step)
    requires ProtocolInv(s) && AccountInv(s) && Enabled(s, e)
    ensures AccountInv(Next(s, e))
  {
    if e.External? {
      match e.call
      case Submitting(cb, thread) => PushAccount(s, [Task(CbWork(cb), thread)]);
      case CallingIo(op) => IoAccount(s, op);
      case SettingTimer(_, _) =>
      case CancellingTimer(_) =>
    } else if e.By? {
      var act := e.act;
      if act.Resume? || act.Prepare? || act.Enter? { EnterAccount(s, e.w, act); }
      else if act.SwapOut? || act.Finish? { LeaveAccount(s, e.w, act); }
      else if act.Take? || act.DropDead? || act.CountDown? { TaskAccount(s, e.w, act); }
      else if act.Submit? || act.ScheduleSelf? || act.CallIo? || act.Deliver? || act.StartTimer? || act.CancelTimer? {
        CodeAccount(s, e.w, act);
      } else {
        LoopAccount(s, e.w, act);
      }
    }
  }

  lemma StartAccount(n: nat, slots: nat)
    requires slots >= 32
    ensures AccountInv(StartSys(n, slots))
  {
    StartOk(slots);
    var s := StartSys(n, slots);
    assert Works(s.queue) == [];
    forall x: Work ensures Held(s.workers, x) == 0 { NobodyBusy(s.workers, x); }
    NobodyBusy(s.workers, CbWork(0));
  }

  /** Over every run: nothing is lost or done twice. */
  lemma {:induction false} RunAccount(s: Sys, es: seq<Step>)
    requires ProtocolInv(s) && AccountInv(s) && RunOk(s, es)
    ensures AccountInv(RunFrom(s, es))
    decreases |es|
  {
    if es != [] {
      StepKeeps(s, es[0]);
      StepAccount(s, es[0]);
      RunAccount(Next(s, es[0]), es[1..]);
    }
  }
}
