/** What each operation of the IO manager does to each slot, told from the operation alone. */
module FdSlots {
  import opened Bytes
  import opened FdEvents

  /** The context of a slot. */
  function At(s: Io, x: Slot): EventContext
    requires x.fd < |s.ctxs|
  {
    if x.ev == READ then s.ctxs[x.fd].read else s.ctxs[x.fd].write
  }

  predicate On(s: Io, x: Slot) { x.fd < |s.ctxs| && x.ev in s.ctxs[x.fd].events }

  /** The report names the event. */
  predicate Named(r: Report, ev: Event) { if ev == READ then r.input else r.output }

  /** The registered slots an operation triggers: the one cancelled, all of the descriptor, or those a report names;
      an error or a hang-up names them all. */
  predicate GoesOff(s: Io, op: Op, x: Slot)
  {
    On(s, x) &&
    match op
    case CancelEvent(fd, ev, ok) => ok && x == Slot(fd, ev)
    case CancelAllEvents(fd, ok) => ok && x.fd == fd
    case Reported(fd, r, ok) => ok && x.fd == fd && (r.errorOrHangup || Named(r, x.ev))
    case _ => false
  }

  /** The callback if there is one, and otherwise the fiber. */
  function Runs(c: EventContext): seq<Work>
  {
    if c.cb != None then [CbWork(c.cb.value)] else if c.fiber != None then [FiberWork(c.fiber.value)] else []
  }

  /** What goes off on a descriptor, reading first. */
  function Bang(s: Io, op: Op): seq<Work>
  {
    (if GoesOff(s, op, Slot(op.fd, READ)) then Runs(At(s, Slot(op.fd, READ))) else [])
    + (if GoesOff(s, op, Slot(op.fd, WRITE)) then Runs(At(s, Slot(op.fd, WRITE))) else [])
  }

  predicate Adds(op: Op, x: Slot) { op.AddEvent? && op.ok && x == Slot(op.fd, op.ev) }

  predicate Drops(s: Io, op: Op, x: Slot) { op.DelEvent? && op.ok && x == Slot(op.fd, op.ev) && On(s, x) }

  /** A delivery calls through a null scheduler exactly if the kernel call succeeds, some registered event goes off,
      and the report names one that is not registered. */
  lemma FaultMeaning(s: Io, fd: nat, r: Report, ok: bool)
    requires Inv(s)
    ensures NullScheduler(s, fd, r, ok) <==>
            && (exists ev :: GoesOff(s, Reported(fd, r, ok), Slot(fd, ev)))
            && (exists ev :: Named(r, ev) && !On(s, Slot(fd, ev)))
  {
    StaleReport(s, fd, r, ok);
    if fd < |s.ctxs| {
      var c := s.ctxs[fd];
      var seen := RealEvents(c, r);
      forall ev ensures ev in c.events * seen && ok <==> GoesOff(s, Reported(fd, r, ok), Slot(fd, ev)) {}
      if ev :| Named(r, ev) && !On(s, Slot(fd, ev)) { assert ev in seen && ev !in c.events; }
      if ev :| ev in seen && ev !in c.events { assert Named(r, ev); }
      if ev :| GoesOff(s, Reported(fd, r, ok), Slot(fd, ev)) { assert ev in c.events * seen; }
      if ev :| ev in c.events * seen { assert ok ==> GoesOff(s, Reported(fd, r, ok), Slot(fd, ev)); }
    }
  }

  /** The events fired are those of the slots that go off. */
  lemma FiredMeaning(s: Io, op: Op, x: Slot)
    requires Inv(s) && Safe(s, op)
    ensures Fires(s, op, x) <==> GoesOff(s, op, x)
  {
    if op.Reported? && op.fd < |s.ctxs| {
      assert x.ev in RealEvents(s.ctxs[op.fd], op.report) <==>
             Named(op.report, x.ev) || (op.report.errorOrHangup && x.ev in s.ctxs[op.fd].events);
    }
  }

  /** The work an operation hands over. */
  lemma WorkMeaning(s: Io, op: Op)
    requires Inv(s) && Safe(s, op)
    ensures Apply(s, op).1 == Bang(s, op)
  {
    var r, w := Slot(op.fd, READ), Slot(op.fd, WRITE);
    FiredMeaning(s, op, r);
    FiredMeaning(s, op, w);
    FiredWork(s, op);
    if op.fd < |s.ctxs| {
      var c := s.ctxs[op.fd];
      assert CtxOk(c) && GetContext(c, READ) == c.read && GetContext(c, WRITE) == c.write;
    }
  }

  /** Which slots are registered afterwards: those that were and neither go off nor are dropped, and the one added. */
  lemma BitsMeaning(s: Io, op: Op, x: Slot)
    requires Inv(s) && Safe(s, op)
    ensures On(Apply(s, op).0, x) <==> Adds(op, x) || (On(s, x) && !GoesOff(s, op, x) && !Drops(s, op, x))
  {
    FiredMeaning(s, op, x);
    SlotAfter(s, op, x);
  }

  /** What the contexts hold afterwards: a trigger unbinds the scheduler and clears nothing else, a deletion forgets
      all, a registration replaces what it brings and keeps the other field, and all others are as they were. */
  lemma ContextMeaning(s: Io, op: Op, x: Slot)
    requires Inv(s) && Safe(s, op) && x.fd < |s.ctxs|
    ensures x.fd < |Apply(s, op).0.ctxs|
    ensures At(Apply(s, op).0, x) ==
            if Adds(op, x) then
              (if op.req.Callback? then At(s, x).(bound := true, cb := Some(op.req.cb))
               else At(s, x).(bound := true, fiber := Some(op.req.f)))
            else if Drops(s, op, x) then EventContext(false, None, None)
            else if GoesOff(s, op, x) then At(s, x).(bound := false)
            else At(s, x)
  {
    SlotAfter(s, op, x);
    FiredMeaning(s, op, x);
    if Triggers(op) {
      ApplyFires(s, op);
    } else if op.Enlarge? {
      GrowKeeps(s, op.fd);
    }
  }

  /** The counter goes up by a registration, and down by a deletion and by each slot that goes off. */
  lemma CounterMeaning(s: Io, op: Op)
    requires Inv(s) && Safe(s, op)
    ensures Apply(s, op).0.pending == s.pending
              + (if op.AddEvent? && op.ok then 1 else 0)
              - (if op.DelEvent? && Drops(s, op, Slot(op.fd, op.ev)) then 1 else 0)
              - (if GoesOff(s, op, Slot(op.fd, READ)) then 1 else 0) - (if GoesOff(s, op, Slot(op.fd, WRITE)) then 1 else 0)
  {
    FiredMeaning(s, op, Slot(op.fd, READ));
    FiredMeaning(s, op, Slot(op.fd, WRITE));
    if Triggers(op) { ApplyFires(s, op); }
  }

  /** One report of an error or a hang-up, if the kernel call succeeds: no bit of the descriptor is left, and the
      work of every registered slot is handed over. */
  lemma HangupWakesAll(s: Io, fd: nat, r: Report)
    requires Inv(s) && !NullScheduler(s, fd, r, true) && r.errorOrHangup && fd < |s.ctxs|
    ensures var (t, ws) := Deliver(s, fd, r, true);
            && t.ctxs[fd].events == {}
            && (forall ev :: ev in s.ctxs[fd].events ==> Runs(At(s, Slot(fd, ev))) != [] && Runs(At(s, Slot(fd, ev)))[0] in ws)
            && |ws| == |s.ctxs[fd].events|
  {
    HangupClears(s, fd, r);
    WorkMeaning(s, Reported(fd, r, true));
    HangupWork(s, fd, r);
  }

  lemma HangupClears(s: Io, fd: nat, r: Report)
    requires Inv(s) && !NullScheduler(s, fd, r, true) && r.errorOrHangup && fd < |s.ctxs|
    ensures fd < |Deliver(s, fd, r, true).0.ctxs| && Deliver(s, fd, r, true).0.ctxs[fd].events == {}
  {
    var op := Reported(fd, r, true);
    var t := Apply(s, op).0;
    ContextMeaning(s, op, Slot(fd, READ));
    forall ev ensures ev !in t.ctxs[fd].events
    {
      BitsMeaning(s, op, Slot(fd, ev));
      assert On(t, Slot(fd, ev)) <==> ev in t.ctxs[fd].events;
    }
  }

  /** Everything registered goes off. */
  lemma HangupWork(s: Io, fd: nat, r: Report)
    requires Inv(s) && r.errorOrHangup && fd < |s.ctxs|
    ensures var evs, ws := s.ctxs[fd].events, Bang(s, Reported(fd, r, true));
            && (forall ev :: ev in evs ==> Runs(At(s, Slot(fd, ev))) != [] && Runs(At(s, Slot(fd, ev)))[0] in ws)
            && |ws| == |evs|
  {
    var c := s.ctxs[fd];
    assert CtxOk(c) && GetContext(c, READ) == c.read && GetContext(c, WRITE) == c.write;
    Size(c.events);
  }

  lemma Size(evs: set<Event>)
    ensures |evs| == (if READ in evs then 1 else 0) + (if WRITE in evs then 1 else 0)
  {
    var r: set<Event>, w: set<Event> := if READ in evs then {READ} else {}, if WRITE in evs then {WRITE} else {};
    forall ev: Event ensures ev in evs <==> ev in r + w { assert ev == READ || ev == WRITE; }
    assert evs == r + w;
  }

  /** The least such report: a reader waits on a pipe whose writer closes. */
  lemma HangupWakesReader(n: nat, f: nat)
    requires n >= 32
    ensures Inv(Start(n))
    ensures var a := Add(Start(n), 0, READ, CurrentFiber(f), true);
            Inv(a) && !NullScheduler(a, 0, Report(false, false, true), true)
            && Deliver(a, 0, Report(false, false, true), true).1 == [FiberWork(f)]
            && Deliver(a, 0, Report(false, false, true), true).0.pending == 0
  {
    StartOk(n);
    AddKeeps(Start(n), 0, READ, CurrentFiber(f), true);
    var a := Add(Start(n), 0, READ, CurrentFiber(f), true);
    FaultMeaning(a, 0, Report(false, false, true), true);
    WorkMeaning(a, Reported(0, Report(false, false, true), true));
    CounterMeaning(a, Reported(0, Report(false, false, true), true));
    assert a.ctxs[0].events == {READ};
  }

  /** A deletion forgets an old callback: a fiber that registers after it is what the next trigger hands over. */
  lemma DeletionForgets(s: Io, x: Slot, f: nat)
    requires Inv(s) && On(s, x)
    ensures var a := Del(s, x.fd, x.ev, true).0;
            Inv(a) && x.fd < |a.ctxs| && var b := Add(a, x.fd, x.ev, CurrentFiber(f), true);
            Inv(b) && Cancel(b, x.fd, x.ev, true).1 == [FiberWork(f)]
  {
    var op1, op2, op3 := DelEvent(x.fd, x.ev, true), AddEvent(x.fd, x.ev, CurrentFiber(f), true), CancelEvent(x.fd, x.ev, true);
    ContextMeaning(s, op1, x);
    DelKeeps(s, x.fd, x.ev, true);
    var a := Apply(s, op1).0;
    ContextMeaning(a, op2, x);
    AddKeeps(a, x.fd, x.ev, CurrentFiber(f), true);
    var b := Apply(a, op2).0;
    BitsMeaning(a, op2, x);
    WorkMeaning(b, op3);
    assert Bang(b, op3) == Runs(At(b, x));
  }
}
