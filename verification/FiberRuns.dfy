/** Concrete runs from a started manager: `stopping()` true and then false again, its readings taken one after
    the other, and a fiber with two wake-ups. */
module FiberRuns {
  import opened Bytes
  import opened FdEvents
  import opened Scheduling
  import opened FiberProtocol
  import opened FiberSafety
  import opened FiberAccounting
  import opened FiberPaths
  import opened FiberWaits
  import opened Stopping

  /** Two workers, the second scanning; no event registered. */
  ghost predicate Quiet(s: Sys) {
    && ProtocolInv(s) && |s.workers| == 2 && s.workers[1] == Worker(Scanning, None)
    && s.io.pending == 0 && forall x: Slot :: !Armed(s.io, x)
  }

  lemma One(s: Sys, e: Step) returns (t: Sys)
    requires ProtocolInv(s) && Enabled(s, e)
    ensures t == Next(s, e) && ProtocolInv(t) && Reaches(s, t, false)
  {
    t := OneReaches(s, e);
    if !BringsWork(e) { InnerReaches(s, t); }
  }

  /** The first worker, the list, the fibers, the timers and the active count. */
  predicate Stands(s: Sys, k: Worker, q: seq<Task>, fibers: map<nat, Fiber>, timers: map<nat, Timer>, active: int) {
    |s.workers| > 0 && s.workers[0] == k && s.queue == q && s.fibers == fibers && s.timers == timers && s.active == active
  }

  const CB := Task(CbWork(5), None)

  lemma Submitted(s: Sys) returns (t: Sys)
    requires Quiet(s) && Stands(s, Worker(Scanning, None), [], map[], map[], 0)
    ensures Quiet(t) && Reaches(s, t, false) && Stands(t, Worker(Scanning, None), [CB], map[], map[], 0)
  {
    t := One(s, External(Submitting(5, None)));
    assert t.queue == [CB];
  }

  lemma Taken(s: Sys) returns (t: Sys)
    requires Quiet(s) && Stands(s, Worker(Scanning, None), [CB], map[], map[], 0)
    ensures Quiet(t) && Reaches(s, t, false) && Stands(t, Worker(Holding(CbWork(5)), None), [], map[], map[], 1)
  {
    assert FirstEligible(s.queue, 0, RunningFibers(s)) == 0;
    t := One(s, By(0, Act.Take));
    assert t.queue == [];
  }

  lemma Made(s: Sys) returns (t: Sys)
    requires Quiet(s) && Stands(s, Worker(Holding(CbWork(5)), None), [], map[], map[], 1)
    ensures Quiet(t) && Reaches(s, t, false)
    ensures Stands(t, Worker(Prepared(7, CbWork(5)), Some(7)), [], map[7 := Fiber(RUNING, true)], map[], 1)
  {
    t := One(s, By(0, Act.Prepare(7)));
    assert t.fibers == map[7 := Fiber(RUNING, true)];
  }

  lemma Entered(s: Sys) returns (t: Sys)
    requires Quiet(s) && Stands(s, Worker(Prepared(7, CbWork(5)), Some(7)), [], map[7 := Fiber(RUNING, true)], map[], 1)
    ensures Quiet(t) && Reaches(s, t, false)
    ensures Stands(t, Worker(Executing(7, None, CbWork(5)), Some(7)), [], map[7 := Fiber(RUNING, false)], map[], 1)
  {
    t := One(s, By(0, Act.Enter));
    assert t.fibers == map[7 := Fiber(RUNING, false)];
  }

  const TIMER := map[0 := Once(CbWork(9), 5)]

  lemma TimerSet(s: Sys) returns (t: Sys)
    requires Quiet(s)
    requires Stands(s, Worker(Executing(7, None, CbWork(5)), Some(7)), [], map[7 := Fiber(RUNING, false)], map[], 1)
    ensures Quiet(t) && Reaches(s, t, false)
    ensures Stands(t, Worker(Executing(7, None, CbWork(5)), Some(7)), [], map[7 := Fiber(RUNING, false)], TIMER, 1)
  {
    t := One(s, By(0, Act.StartTimer(0, Once(CbWork(9), 5))));
    assert t.timers == TIMER;
  }

  /** A manager in which no event is registered, nothing is queued and every timer runs a callback. */
  lemma NoWakeUp(s: Sys)
    requires Quiet(s) && s.queue == [] && forall t :: t in s.timers ==> TimerWork(s.timers[t]).CbWork?
    requires s.workers[0].pc.Executing? && s.workers[0].pc.wake.None?
    ensures NoToken(s, 7)
  {
    forall a: Source ensures TargetAt(s, a) != Some(7)
    {
      if a.AtSlot? { assert !Armed(s.io, Slot(a.fd, a.ev)); }
    }
  }

  lemma Ended(s: Sys) returns (t: Sys)
    requires Quiet(s)
    requires Stands(s, Worker(Executing(7, None, CbWork(5)), Some(7)), [], map[7 := Fiber(RUNING, false)], TIMER, 1)
    ensures Quiet(t) && Reaches(s, t, false)
    ensures Stands(t, Worker(Returned(7, CbWork(5)), Some(7)), [], map[7 := Fiber(TERM, true)], TIMER, 1)
  {
    NoWakeUp(s);
    t := One(s, By(0, Act.Finish(false)));
    assert t.fibers == map[7 := Fiber(TERM, true)];
  }

  lemma Counted(s: Sys) returns (t: Sys)
    requires Quiet(s)
    requires Stands(s, Worker(Returned(7, CbWork(5)), Some(7)), [], map[7 := Fiber(TERM, true)], TIMER, 1)
    ensures Quiet(t) && Reaches(s, t, false)
    ensures Stands(t, Worker(Settling(7), Some(7)), [], map[7 := Fiber(TERM, true)], TIMER, 0)
  {
    t := One(s, By(0, Act.CountDown));
  }

  /** A callback is submitted, and the first worker enters a fiber with it. */
  lemma CallbackRuns(s0: Sys) returns (s: Sys)
    requires Quiet(s0) && Stands(s0, Worker(Scanning, None), [], map[], map[], 0)
    ensures Quiet(s) && Reaches(s0, s, false)
    ensures Stands(s, Worker(Executing(7, None, CbWork(5)), Some(7)), [], map[7 := Fiber(RUNING, false)], map[], 1)
  {
    var s1 := Submitted(s0);
    var s2 := Taken(s1);
    var s3 := Made(s2);
    s := Entered(s3);
    ReachesTrans(s0, s1, s2, false);
    ReachesTrans(s0, s2, s3, false);
    ReachesTrans(s0, s3, s, false);
  }

  /** It starts a timer and ends. */
  lemma TimerStarted(s0: Sys) returns (s: Sys)
    requires Quiet(s0)
    requires Stands(s0, Worker(Executing(7, None, CbWork(5)), Some(7)), [], map[7 := Fiber(RUNING, false)], map[], 1)
    ensures Quiet(s) && Reaches(s0, s, false)
    ensures Stands(s, Worker(Settling(7), Some(7)), [], map[7 := Fiber(TERM, true)], TIMER, 0)
  {
    var s1 := TimerSet(s0);
    var s2 := Ended(s1);
    s := Counted(s2);
    ReachesTrans(s0, s1, s2, false);
    ReachesTrans(s0, s2, s, false);
  }

  /** Stop is asked for, and the clock goes on. */
  lemma Asked(s0: Sys, now: nat) returns (s: Sys)
    requires Quiet(s0) && Stands(s0, Worker(Settling(7), Some(7)), [], map[7 := Fiber(TERM, true)], TIMER, 0) && now < WORD
    ensures Quiet(s) && Reaches(s0, s, false) && s.stopRequested && s.clock == now
    ensures Stands(s, Worker(Settling(7), Some(7)), [], map[7 := Fiber(TERM, true)], TIMER, 0)
  {
    var s1 := One(s0, Stop);
    s := One(s1, Clock(now));
    ReachesTrans(s0, s1, s, false);
  }

  /** The second worker takes the expired timer. */
  lemma TimerCollected(s0: Sys) returns (s: Sys)
    requires Quiet(s0) && Stands(s0, Worker(Settling(7), Some(7)), [], map[7 := Fiber(TERM, true)], TIMER, 0)
    requires s0.stopRequested && s0.clock >= 5
    ensures ProtocolInv(s) && |s.workers| == 2 && Enabled(s0, By(1, Act.Collect(s0.clock, false, [0])))
    ensures s == Next(s0, By(1, Act.Collect(s0.clock, false, [0]))) && Reaches(s0, s, false)
    ensures s.workers[1].pc == Flushing([CbWork(9)]) && StoppingNow(s)
  {
    assert Callbacks(s0.timers, [0]) == [CbWork(9)];
    s := One(s0, By(1, Act.Collect(s0.clock, false, [0])));
    assert s.timers == map[];
  }

  lemma Started(slots: nat)
    requires slots >= 32
    ensures var s := StartSys(2, slots);
            Quiet(s) && Stands(s, Worker(Scanning, None), [], map[], map[], 0)
  {
    StartKeeps(2, slots);
    StartOk(slots);
    SetBitsZero(Start(slots).ctxs);
  }

  /** From a started manager to a state in which only a timer is left. */
  lemma TimerLeft(slots: nat, now: nat) returns (s: Sys)
    requires slots >= 32 && now < WORD
    ensures ProtocolInv(StartSys(2, slots)) && Reaches(StartSys(2, slots), s, false)
    ensures Quiet(s) && Stands(s, Worker(Settling(7), Some(7)), [], map[7 := Fiber(TERM, true)], TIMER, 0)
    ensures s.stopRequested && s.clock == now
  {
    Started(slots);
    var s0 := StartSys(2, slots);
    var a := CallbackRuns(s0);
    var b := TimerStarted(a);
    s := Asked(b, now);
    ReachesTrans(s0, a, b, false);
    ReachesTrans(s0, b, s, false);
  }

  /** From a started manager with two workers: one worker has taken the only timer, so `stopping()` says yes
      and another worker may exit on it; then the callback is queued, with nobody outside submitting. */
  lemma StoppingIsTakenBack(slots: nat) returns (s: Sys)
    requires slots >= 32
    ensures ProtocolInv(StartSys(2, slots)) && Reaches(StartSys(2, slots), s, false)
    ensures ProtocolInv(s) && StoppingNow(s) && Enabled(s, By(1, Act.Flush)) && !ReadsIdle(Next(s, By(1, Act.Flush)))
  {
    var a := TimerLeft(slots, 5);
    s := TimerCollected(a);
    ReachesTrans(StartSys(2, slots), a, s, false);
    assert Next(s, By(1, Act.Flush)).queue == s.queue + Unpinned([CbWork(9)]);
  }

  /** One millisecond after the only timer was due, all three readings say yes in one state though the timer is set
      and nobody holds a batch; then it is taken and its callback is queued. */
  lemma JustExpiredSaysYes(slots: nat) returns (s: Sys, t: Sys)
    requires slots >= 32
    ensures ProtocolInv(StartSys(2, slots)) && Reaches(StartSys(2, slots), s, false)
    ensures ProtocolInv(s) && SaysYes(s, s, s) && NoBatch(s) && s.timers == TIMER && s.clock == 6
    ensures Enabled(s, By(1, Act.Collect(6, false, [0]))) && t == Next(s, By(1, Act.Collect(6, false, [0])))
    ensures ProtocolInv(t) && Enabled(t, By(1, Act.Flush)) && !ReadsIdle(Next(t, By(1, Act.Flush)))
  {
    s := TimerLeft(slots, 6);
    assert FirstTimer(s, 0) && Remaining(5, 6) == NO_TIMER;
    assert NoBatch(s) by { assert forall w :: 0 <= w < 2 ==> Batch(s.workers[w].pc) == []; }
    t := TimerCollected(s);
    assert Next(t, By(1, Act.Flush)).queue == t.queue + Unpinned([CbWork(9)]);
  }

  /** Between the readings of the timers and of the list a running task may start a timer and end: the answer is
      yes though a timer is set, and neither state says so by itself. */
  lemma TornReading(slots: nat) returns (first: Sys, second: Sys)
    requires slots >= 32
    ensures ProtocolInv(StartSys(2, slots)) && Reaches(StartSys(2, slots), first, false)
    ensures ProtocolInv(first) && Reaches(first, second, false) && SaysYes(first, first, second)
    ensures !SaysYes(first, first, first) && !SaysYes(second, second, second)
  {
    Started(slots);
    first := CallbackRuns(StartSys(2, slots));
    var b := TimerStarted(first);
    second := Asked(b, 0);
    ReachesTrans(first, b, second, false);
    assert 0 in second.timers && Remaining(5, 0) == 5;
  }

  // ----- two wake-ups for one fiber -----

  const SELF := Task(FiberWork(7), None)

  /** Two workers, the first as given, the second scanning; the fiber as given, and the list. */
  ghost predicate Shows(s: Sys, k: Worker, x: Fiber, q: seq<Task>) {
    && FdEvents.Inv(s.io) && |s.workers| == 2 && s.workers[0] == k && s.workers[1] == Worker(Scanning, None)
    && s.fibers == map[7 := x] && s.queue == q
  }

  /** The fiber switches out and is set aside. */
  lemma SwitchesOut(s: Sys) returns (t: Sys)
    requires Shows(s, Worker(Executing(7, None, CbWork(5)), Some(7)), Fiber(RUNING, false), [SELF, SELF])
    ensures Shows(t, Worker(Scanning, None), Fiber(HOLD, true), [SELF, SELF])
    ensures Leads(s, 0, t)
  {
    var a := Do(s, 0, Act.SwapOut);
    assert a.fibers == map[7 := Fiber(RUNING, true)];
    var b := Do(a, 0, Act.CountDown);
    t := Do(b, 0, Act.Settle);
    assert t.fibers == map[7 := Fiber(HOLD, true)];
  }

  /** Both workers take it. */
  lemma BothTake(s: Sys) returns (t: Sys)
    requires Shows(s, Worker(Scanning, None), Fiber(HOLD, true), [SELF, SELF])
    ensures Enabled(s, By(0, Act.Take)) && var a := Next(s, By(0, Act.Take));
            FdEvents.Inv(a.io) && Enabled(a, By(1, Act.Take)) && t == Next(a, By(1, Act.Take))
    ensures t.workers[0].pc == t.workers[1].pc == Holding(FiberWork(7))
  {
    assert FirstEligible(s.queue, 0, RunningFibers(s)) == 0;
    var a := Next(s, By(0, Act.Take));
    assert a.queue == [SELF];
    assert FirstEligible(a.queue, 1, RunningFibers(a)) == 0;
    t := Next(a, By(1, Act.Take));
  }

  /** From a started manager: a fiber schedules itself, and, against the discipline, once more; it switches out,
      and two workers take it. */
  lemma SecondWakeUpRunsTwice(slots: nat) returns (s: Sys, u: Sys, v: Sys)
    requires slots >= 32
    ensures ProtocolInv(StartSys(2, slots)) && Reaches(StartSys(2, slots), s, false)
    ensures |s.workers| == 2 && s.workers[0] == Worker(Executing(7, None, CbWork(5)), Some(7))
    ensures !CanAct(s, 0, Act.ScheduleSelf)
    ensures Leads(Push(s, [SELF]), 0, u)
    ensures FdEvents.Inv(u.io) && Enabled(u, By(0, Act.Take)) && var a := Next(u, By(0, Act.Take));
            FdEvents.Inv(a.io) && Enabled(a, By(1, Act.Take)) && v == Next(a, By(1, Act.Take))
    ensures v.workers[0].pc == v.workers[1].pc == Holding(FiberWork(7))
  {
    Started(slots);
    var r := CallbackRuns(StartSys(2, slots));
    NoWakeUp(r);
    s := One(r, By(0, Act.ScheduleSelf));
    ReachesTrans(StartSys(2, slots), r, s, false);
    assert s.queue == [SELF];
    assert TargetAt(s, InQueue(0)) == Some(7);
    var t := Push(s, [SELF]);
    assert t.queue == [SELF, SELF];
    u := SwitchesOut(t);
    v := BothTake(u);
  }
}
