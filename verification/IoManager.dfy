/** The IO manager object. Each method is one call holding the descriptor's lock, proved against
    the transitions of `FdEvents`; every kernel call meets the kernel's own precondition. */
module IoManagers {
  import opened Bytes
  import opened FdEvents
  import opened Scheduling

  class FdContext {
    var events: set<Event>
    var read: EventContext
    var write: EventContext

    constructor ()
      ensures Value() == NO_FD
    {
      events, read, write := {}, NO_CONTEXT, NO_CONTEXT;
    }

    ghost function Value(): FdCtx
      reads this
    {
      FdCtx(events, read, write)
    }

    method Get(ev: Event) returns (x: EventContext)
      ensures x == GetContext(Value(), ev)
    {
      x := if ev.READ? then read else write;
    }

    method Put(ev: Event, x: EventContext)
      modifies this`read, this`write
      ensures Value() == SetContext(old(Value()), ev, x)
    {
      if ev.READ? { read := x; } else { write := x; }
    }

    /** Set the bit and record what the event is to run. */
    method Arm(ev: Event, req: Request)
      modifies this
      ensures var c := old(Value());
              Value() == SetContext(c.(events := c.events + {ev}), ev, Register(GetContext(c, ev), req))
    {
      events := events + {ev};
      var x := Get(ev);
      Put(ev, if req.Callback? then EventContext(true, x.fiber, Some(req.cb)) else EventContext(true, Some(req.f), x.cb));
    }

    /** Clear the bit and forget what the event was to run. */
    method Disarm(ev: Event)
      modifies this
      ensures var c := old(Value()); Value() == SetContext(c.(events := c.events - {ev}), ev, NO_CONTEXT)
    {
      events := events - {ev};
      Put(ev, NO_CONTEXT);
    }

    /** Clear the bit and hand the waiting work to the scheduler. */
    method TriggerEvent(ev: Event, scheduler: Scheduler)
      requires GetContext(Value(), ev).bound
      modifies this, scheduler`fibers
      ensures Value() == Trigger(old(Value()), ev)
      ensures scheduler.fibers == old(scheduler.fibers) + Unpinned(AsList(WorkOf(GetContext(old(Value()), ev))))
    {
      events := events - {ev};
      var x := Get(ev);
      var work := if x.cb.Some? then Some(CbWork(x.cb.value))
                  else if x.fiber.Some? then Some(FiberWork(x.fiber.value)) else None;
      var t := scheduler.ScheduleNoLock(work, None);
      Put(ev, x.(bound := false));
    }

    /** Trigger every event of a set, reading first. */
    method TriggerSet(evs: set<Event>, scheduler: Scheduler)
      requires forall ev :: ev in evs ==> GetContext(Value(), ev).bound
      modifies this, scheduler`fibers
      ensures Value() == TriggerAll(old(Value()), evs).0
      ensures scheduler.fibers == old(scheduler.fibers) + Unpinned(TriggerAll(old(Value()), evs).1)
    {
      ghost var c, q := Value(), scheduler.fibers;
      if READ in evs {
        TriggerEvent(READ, scheduler);
      }
      ghost var w1 := if READ in evs then AsList(WorkOf(c.read)) else [];
      assert scheduler.fibers == q + Unpinned(w1);
      ghost var c1 := Value();
      if WRITE in evs {
        assert GetContext(c, WRITE).bound;
        TriggerEvent(WRITE, scheduler);
      }
      ghost var w2 := if WRITE in evs then AsList(WorkOf(c1.write)) else [];
      UnpinnedAppend(q, w1, w2);
    }
  }

  lemma UnpinnedAppend(q: seq<Task>, a: seq<Work>, b: seq<Work>)
    ensures q + Unpinned(a) + Unpinned(b) == q + Unpinned(a + b)
    ensures q + Unpinned(a) + [] == q + Unpinned(a + [])
  {
  }

  class IoManager {
    const scheduler: Scheduler
    var contexts: seq<FdContext>
    var epoll: map<nat, set<Event>>
    var pending: int

    ghost var values: seq<FdCtx>

    ghost predicate Linked()
      reads this, contexts
    {
      && |values| == |contexts|
      && (forall i :: 0 <= i < |contexts| ==> contexts[i].Value() == values[i])
      && (forall i, j :: 0 <= i < j < |contexts| ==> contexts[i] != contexts[j])
    }

    ghost function Abs(): Io
      reads this
    {
      Io(values, epoll, pending)
    }

    ghost predicate Valid()
      reads this, contexts
    {
      Linked() && Inv(Abs())
    }

    constructor (s: Scheduler)
      ensures Valid() && scheduler == s && Abs() == Start(32) && forall i :: 0 <= i < |contexts| ==> fresh(contexts[i])
    {
      scheduler, contexts, epoll, pending, values := s, [], map[], 0, [];
      new;
      ContextResize(32);
      Opened(32);
    }

    lemma Opened(n: nat)
      requires n >= 32 && Linked() && values == Resize([], n) && epoll == map[] && pending == 0
      ensures Valid() && Abs() == Start(n)
    {
      StartOk(n);
      assert values == Blank(n);
    }

    /** Cut the vector, or lengthen it with blank contexts. */
    method ContextResize(n: nat)
      requires Linked()
      modifies this`contexts, this`values
      ensures Linked() && values == Resize(old(values), n)
      ensures forall i :: 0 <= i < n ==> if i < |old(contexts)| then contexts[i] == old(contexts)[i] else fresh(contexts[i])
    {
      if n <= |contexts| {
        contexts, values := contexts[..n], values[..n];
        return;
      }
      while |contexts| < n
        invariant Linked() && |contexts| <= n
        invariant old(contexts) <= contexts && forall i :: |old(contexts)| <= i < |contexts| ==> fresh(contexts[i])
        invariant values == old(values) + Blank(|contexts| - |old(contexts)|)
      {
        var c := new FdContext();
        ghost var k := |contexts| - |old(contexts)|;
        assert old(values) + Blank(k) + [NO_FD] == old(values) + Blank(k + 1);
        contexts, values := contexts + [c], values + [NO_FD];
      }
    }

    /** The read-locked part of `addEvent`: the context, if the vector is long enough. */
    method Look(fd: nat) returns (c: FdContext?)
      ensures if |contexts| > fd then c == contexts[fd] else c == null
    {
      c := if |contexts| > fd then contexts[fd] else null;
    }

    /** The write-locked part: resize without looking again, and take the context. */
    method Lengthen(fd: nat) returns (c: FdContext)
      requires Linked() && fd < GrownLength(fd)
      modifies this`contexts, this`values
      ensures Linked() && Abs() == Grow(old(Abs()), fd) && c == contexts[fd]
      ensures forall i :: 0 <= i < |contexts| ==>
                if i < |old(contexts)| then contexts[i] == old(contexts)[i] else fresh(contexts[i])
    {
      ContextResize(3 * fd / 2);
      c := contexts[fd];
    }

    /** `epoll_ctl`: the environment says whether the kernel goes along. */
    method EpollCtl(op: CtlOp, fd: nat, evs: set<Event>, ok: bool) returns (rt: int)
      requires LegalCtl(epoll, op, fd)
      modifies this`epoll
      ensures rt == 0 <==> ok
      ensures epoll == if ok then Ctl(old(epoll), op, fd, evs) else old(epoll)
    {
      if !ok {
        return -1;
      }
      epoll := if op.DEL? then epoll - {fd} else epoll[fd := evs];
      rt := 0;
    }

    /** The part of `addEvent` under the descriptor's lock, on the context taken before. */
    method Install(c: FdContext, fd: nat, ev: Event, req: Request, ok: bool) returns (rt: int)
      requires Valid() && fd < |contexts| && c == contexts[fd]
      modifies this`values, this`epoll, this`pending, contexts
      ensures Valid() && (rt == 0 <==> ok) && Abs() == Add(old(Abs()), fd, ev, req, ok)
    {
      AddKeeps(Abs(), fd, ev, req, ok);
      CtlLegal(Abs(), fd);
      var evs := c.events + {ev};
      rt := EpollCtl(if c.events != {} then MOD else ADD, fd, evs, ok);
      if rt != 0 {
        return -1;
      }
      pending := pending + 1;
      c.Arm(ev, req);
      values := values[fd := SetContext(values[fd].(events := evs), ev, Register(GetContext(values[fd], ev), req))];
    }

    /** A call that no other call interrupts: the three parts in a row. */
    method AddEvent(fd: nat, ev: Event, req: Request, ok: bool) returns (rt: int)
      requires Valid()
      modifies this`contexts, this`values, this`epoll, this`pending, contexts
      ensures Valid() && (rt == 0 <==> ok) && fd < |contexts|
      ensures var s := if |old(contexts)| > fd then old(Abs()) else Grow(old(Abs()), fd);
              Inv(s) && fd < |s.ctxs| && Abs() == Add(s, fd, ev, req, ok)
    {
      var c := Look(fd);
      if c == null {
        GrowKeeps(Abs(), fd);
        c := Lengthen(fd);
      }
      rt := Install(c, fd, ev, req, ok);
    }

    method DelEvent(fd: nat, ev: Event, ok: bool) returns (done: bool)
      requires Valid()
      modifies this`values, this`epoll, this`pending, contexts
      ensures Valid() && (Abs(), done) == Del(old(Abs()), fd, ev, ok)
    {
      DelKeeps(Abs(), fd, ev, ok);
      if |contexts| <= fd {
        return false;
      }
      CtlLegal(Abs(), fd);
      var c := contexts[fd];
      if ev !in c.events {
        return false;
      }
      var left := c.events - {ev};
      var rt := EpollCtl(if left != {} then MOD else DEL, fd, left, ok);
      if rt != 0 {
        return false;
      }
      pending := pending - 1;
      c.Disarm(ev);
      values := values[fd := SetContext(values[fd].(events := left), ev, NO_CONTEXT)];
      done := true;
    }

    /** Remove registered events from the kernel and trigger them: the common end of
        `cancelEvent`, `cancelAll` and a delivered report. */
    method TriggerAndForget(fd: nat, evs: set<Event>, count: nat, op: CtlOp, ok: bool) returns (done: bool)
      requires Valid() && fd < |contexts| && contexts[fd].events != {} && evs != {}
      requires ok ==> evs <= contexts[fd].events
      requires count == Count(evs) && op == RemoveOp(contexts[fd].events - evs)
      modifies this`values, this`epoll, this`pending, contexts, scheduler`fibers
      ensures Valid() && done == ok
      ensures var (s', ws) := if ok then Fire(old(Abs()), fd, evs) else (old(Abs()), []);
              Abs() == s' && scheduler.fibers == old(scheduler.fibers) + Unpinned(ws)
    {
      var c := contexts[fd];
      ghost var s := Abs();
      CtlLegal(s, fd);
      if ok { FireParts(s, fd, evs); }
      var rt := EpollCtl(op, fd, c.events - evs, ok);
      if rt != 0 {
        return false;
      }
      c.TriggerSet(evs, scheduler);
      pending := pending - count;
      values := values[fd := TriggerAll(values[fd], evs).0];
      done := true;
    }

    method CancelEvent(fd: nat, ev: Event, ok: bool) returns (done: bool)
      requires Valid()
      modifies this`values, this`epoll, this`pending, contexts, scheduler`fibers
      ensures Valid() && done == (fd < |old(values)| && ev in old(values)[fd].events && ok)
      ensures var (s', ws) := Cancel(old(Abs()), fd, ev, ok);
              Abs() == s' && scheduler.fibers == old(scheduler.fibers) + Unpinned(ws)
    {
      ghost var op := Op.CancelEvent(fd, ev, ok);
      ApplyFires(Abs(), op);
      if |contexts| <= fd || ev !in contexts[fd].events {
        return false;
      }
      assert ok ==> ev in Fired(Abs(), op) && Fired(Abs(), op) == {ev};
      var left := contexts[fd].events - {ev};
      done := TriggerAndForget(fd, {ev}, 1, if left != {} then MOD else DEL, ok);
    }

    method CancelAll(fd: nat, ok: bool) returns (done: bool)
      requires Valid()
      modifies this`values, this`epoll, this`pending, contexts, scheduler`fibers
      ensures Valid() && done == (fd < |old(values)| && old(values)[fd].events != {} && ok)
      ensures var (s', ws) := FdEvents.CancelAll(old(Abs()), fd, ok);
              Abs() == s' && scheduler.fibers == old(scheduler.fibers) + Unpinned(ws)
    {
      ApplyFires(Abs(), CancelAllEvents(fd, ok));
      if |contexts| <= fd || contexts[fd].events == {} {
        return false;
      }
      var evs := contexts[fd].events;
      assert evs - evs == {};
      var count := (if READ in evs then 1 else 0) + (if WRITE in evs then 1 else 0);
      done := TriggerAndForget(fd, evs, count, DEL, ok);
    }

    /** One report in the event loop of `idle`. */
    method HandleReport(fd: nat, r: Report, ok: bool)
      requires Valid() && fd < |contexts| && !NullScheduler(Abs(), fd, r, ok)
      modifies this`values, this`epoll, this`pending, contexts, scheduler`fibers
      ensures Valid()
      ensures var (s', ws) := Deliver(old(Abs()), fd, r, ok);
              Abs() == s' && scheduler.fibers == old(scheduler.fibers) + Unpinned(ws)
    {
      ApplyFires(Abs(), Reported(fd, r, ok));
      StaleReport(Abs(), fd, r, ok);
      var c := contexts[fd];
      var seen := (if r.input then {READ} else {}) + (if r.output then {WRITE} else {})
                  + (if r.errorOrHangup then c.events else {});
      if c.events * seen == {} {
        return;
      }
      var left := c.events - seen;
      var count := (if READ in seen then 1 else 0) + (if WRITE in seen then 1 else 0);
      var done := TriggerAndForget(fd, seen, count, if left != {} then MOD else DEL, ok);
    }
  }
}
