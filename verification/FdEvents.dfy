/** Event registrations of the IO manager, as pure state: what each locked region does to the
    file descriptor contexts, the kernel's interest map, the pending counter, and which work it
    hands to the scheduler. */
module FdEvents {
  import opened Bytes

  datatype Event = READ | WRITE

  /** Work the scheduler accepts: a suspended fiber, a callback, or the callback a sleeping
      fiber's timer carries, which schedules that fiber. */
  datatype Work = FiberWork(f: nat) | CbWork(cb: nat) | WakeWork(f: nat)

  datatype EventContext = EventContext(bound: bool, fiber: Option<nat>, cb: Option<nat>)

  datatype FdCtx = FdCtx(events: set<Event>, read: EventContext, write: EventContext)

  const NO_CONTEXT := EventContext(false, None, None)
  const NO_FD := FdCtx({}, NO_CONTEXT, NO_CONTEXT)

  datatype Io = Io(ctxs: seq<FdCtx>, epoll: map<nat, set<Event>>, pending: int)

  /** What the kernel reports for one descriptor. */
  datatype Report = Report(input: bool, output: bool, errorOrHangup: bool)

  function GetContext(c: FdCtx, ev: Event): EventContext { if ev.READ? then c.read else c.write }

  function SetContext(c: FdCtx, ev: Event, x: EventContext): FdCtx
  {
    if ev.READ? then c.(read := x) else c.(write := x)
  }

  // ----- the kernel's side -----

  datatype CtlOp = ADD | MOD | DEL

  /** The calls the kernel accepts. */
  predicate LegalCtl(epoll: map<nat, set<Event>>, op: CtlOp, fd: nat)
  {
    if op.ADD? then fd !in epoll else fd in epoll
  }

  function Ctl(epoll: map<nat, set<Event>>, op: CtlOp, fd: nat, evs: set<Event>): map<nat, set<Event>>
    requires LegalCtl(epoll, op, fd)
  {
    if op.DEL? then epoll - {fd} else epoll[fd := evs]
  }

  function RemoveOp(left: set<Event>): CtlOp { if left != {} then MOD else DEL }

  // ----- invariants -----

  function Interest(epoll: map<nat, set<Event>>, fd: nat): set<Event>
  {
    if fd in epoll then epoll[fd] else {}
  }

  /** The kernel watches exactly what the contexts say, and nothing with an empty mask. */
  ghost predicate Synced(s: Io)
  {
    && (forall fd :: 0 <= fd < |s.ctxs| ==> Interest(s.epoll, fd) == s.ctxs[fd].events)
    && (forall fd :: fd in s.epoll ==> fd < |s.ctxs| && s.epoll[fd] != {})
  }

  /** A context has a scheduler exactly while its bit is set, and then it has something to run. */
  predicate CtxOk(c: FdCtx)
  {
    forall ev :: (ev in c.events <==> GetContext(c, ev).bound)
                 && (GetContext(c, ev).bound ==> GetContext(c, ev).cb.Some? || GetContext(c, ev).fiber.Some?)
  }

  ghost predicate Inv(s: Io)
  {
    && |s.ctxs| >= 32
    && Synced(s)
    && forall fd :: 0 <= fd < |s.ctxs| ==> CtxOk(s.ctxs[fd])
  }

  /** The number of bits set, over all descriptors. */
  function Bits(c: FdCtx): nat { (if READ in c.events then 1 else 0) + (if WRITE in c.events then 1 else 0) }

  function SetBits(ctxs: seq<FdCtx>): nat
  {
    if ctxs == [] then 0 else Bits(ctxs[0]) + SetBits(ctxs[1..])
  }

  lemma {:induction false} SetBitsUpdate(ctxs: seq<FdCtx>, fd: nat, c: FdCtx)
    requires fd < |ctxs|
    ensures SetBits(ctxs[fd := c]) == SetBits(ctxs) - Bits(ctxs[fd]) + Bits(c)
  {
    if fd == 0 {
      assert ctxs[0 := c][1..] == ctxs[1..];
    } else {
      assert ctxs[fd := c][1..] == ctxs[1..][fd - 1 := c];
      SetBitsUpdate(ctxs[1..], fd - 1, c);
    }
  }

  lemma {:induction false} SetBitsZero(ctxs: seq<FdCtx>)
    ensures SetBits(ctxs) == 0 <==> forall fd :: 0 <= fd < |ctxs| ==> ctxs[fd].events == {}
  {
    if ctxs != [] {
      SetBitsZero(ctxs[1..]);
      if forall fd :: 0 <= fd < |ctxs| ==> ctxs[fd].events == {} {
        assert forall fd :: 0 <= fd < |ctxs| - 1 ==> ctxs[1..][fd] == ctxs[fd + 1];
      } else if ctxs[0].events == {} {
        var fd :| 0 <= fd < |ctxs| && ctxs[fd].events != {};
        assert ctxs[1..][fd - 1].events != {};
      } else {
        var e :| e in ctxs[0].events;
        assert e == READ || e == WRITE;
      }
    }
  }

  function Blank(n: nat): seq<FdCtx> { seq(n, _ => NO_FD) }

  lemma {:induction false} SetBitsBlank(ctxs: seq<FdCtx>, n: nat)
    ensures SetBits(ctxs + Blank(n)) == SetBits(ctxs)
    decreases |ctxs|
  {
    if ctxs == [] {
      SetBitsZero(Blank(n));
      assert forall fd :: 0 <= fd < n ==> Blank(n)[fd].events == {};
      assert ctxs + Blank(n) == Blank(n);
    } else {
      assert (ctxs + Blank(n))[1..] == ctxs[1..] + Blank(n);
      SetBitsBlank(ctxs[1..], n);
    }
  }

  // ----- the operations -----

  /** `contextResize`: keep what fits, fill up with blank contexts. */
  function Resize(ctxs: seq<FdCtx>, n: nat): seq<FdCtx>
  {
    if n <= |ctxs| then ctxs[..n] else ctxs + Blank(n - |ctxs|)
  }

  /** The length `addEvent` asks for when the vector is too short: one and a half times the descriptor. */
  function GrownLength(fd: nat): nat { 3 * fd / 2 }

  /** The write-locked part of `addEvent`. The length is not looked at again. */
  function Grow(s: Io, fd: nat): Io { s.(ctxs := Resize(s.ctxs, GrownLength(fd))) }

  /** Whether a call to `addEvent` registers the event. */
  datatype Request = Callback(cb: nat) | CurrentFiber(f: nat)

  /** The context after a registration. The field that was not asked for keeps what it held. */
  function Register(x: EventContext, req: Request): EventContext
  {
    match req
    case Callback(cb) => EventContext(true, x.fiber, Some(cb))
    case CurrentFiber(f) => EventContext(true, Some(f), x.cb)
  }

  function AddOp(c: FdCtx): CtlOp { if c.events != {} then MOD else ADD }

  /** The part of `addEvent` under the descriptor's lock. */
  function Add(s: Io, fd: nat, ev: Event, req: Request, ok: bool): Io
    requires Inv(s) && fd < |s.ctxs|
  {
    var c := s.ctxs[fd];
    if !ok then s
    else
      var evs := c.events + {ev};
      Io(s.ctxs[fd := SetContext(c.(events := evs), ev, Register(GetContext(c, ev), req))],
         Ctl(s.epoll, AddOp(c), fd, evs), s.pending + 1)
  }

  /** A manager as it is constructed. */
  function Start(n: nat): Io { Io(Blank(n), map[], 0) }

  lemma StartOk(n: nat)
    requires n >= 32
    ensures Inv(Start(n)) && SetBits(Start(n).ctxs) == 0
  {
    assert forall fd :: 0 <= fd < n ==> Blank(n)[fd] == NO_FD;
    SetBitsZero(Blank(n));
  }

  /** Lengthening the vector touches nothing that is registered. */
  lemma GrowKeeps(s: Io, fd: nat)
    requires Inv(s) && |s.ctxs| <= GrownLength(fd)
    ensures Inv(Grow(s, fd)) && |Grow(s, fd).ctxs| == GrownLength(fd)
    ensures forall i :: 0 <= i < GrownLength(fd) ==> Grow(s, fd).ctxs[i] == if i < |s.ctxs| then s.ctxs[i] else NO_FD
    ensures SetBits(Grow(s, fd).ctxs) == SetBits(s.ctxs)
  {
    var ctxs := Grow(s, fd).ctxs;
    SetBitsBlank(s.ctxs, GrownLength(fd) - |s.ctxs|);
    assert |s.ctxs| == GrownLength(fd) ==> ctxs == s.ctxs;
    forall i | 0 <= i < |ctxs|
      ensures Interest(s.epoll, i) == ctxs[i].events && CtxOk(ctxs[i])
    {
      if i >= |s.ctxs| { assert ctxs[i] == NO_FD && i !in s.epoll; }
    }
  }

  /** `delEvent`: the registration goes and nobody is woken. */
  function Del(s: Io, fd: nat, ev: Event, ok: bool): (r: (Io, bool))
    requires Inv(s)
  {
    if fd >= |s.ctxs| || ev !in s.ctxs[fd].events || !ok then (s, false)
    else
      var c := s.ctxs[fd];
      var left := c.events - {ev};
      (Io(s.ctxs[fd := SetContext(c.(events := left), ev, NO_CONTEXT)],
          Ctl(s.epoll, RemoveOp(left), fd, left), s.pending - 1), true)
  }

  /** What `triggerEvent` schedules: the callback if there is one, else the fiber. */
  function WorkOf(x: EventContext): Option<Work>
  {
    if x.cb.Some? then Some(CbWork(x.cb.value))
    else if x.fiber.Some? then Some(FiberWork(x.fiber.value))
    else None
  }

  /** `triggerEvent` clears the bit and the scheduler, but neither the fiber nor the callback. */
  function Trigger(c: FdCtx, ev: Event): FdCtx
  {
    var x := GetContext(c, ev);
    SetContext(c.(events := c.events - {ev}), ev, x.(bound := false))
  }

  function AsList(w: Option<Work>): seq<Work> { if w.Some? then [w.value] else [] }

  /** `cancelEvent`: remove the registration and trigger it. */
  function Cancel(s: Io, fd: nat, ev: Event, ok: bool): (Io, seq<Work>)
    requires Inv(s)
  {
    if fd >= |s.ctxs| || ev !in s.ctxs[fd].events || !ok then (s, [])
    else
      var c := s.ctxs[fd];
      var left := c.events - {ev};
      (Io(s.ctxs[fd := Trigger(c, ev)], Ctl(s.epoll, RemoveOp(left), fd, left), s.pending - 1),
       AsList(WorkOf(GetContext(c, ev))))
  }

  /** Trigger a set of events of one descriptor, reading first. */
  function TriggerAll(c: FdCtx, evs: set<Event>): (FdCtx, seq<Work>)
  {
    var c1 := if READ in evs then Trigger(c, READ) else c;
    var w1 := if READ in evs then AsList(WorkOf(c.read)) else [];
    var c2 := if WRITE in evs then Trigger(c1, WRITE) else c1;
    var w2 := if WRITE in evs then AsList(WorkOf(c1.write)) else [];
    (c2, w1 + w2)
  }

  function Count(evs: set<Event>): nat { (if READ in evs then 1 else 0) + (if WRITE in evs then 1 else 0) }

  /** `cancelAll`: remove the descriptor from the kernel and trigger everything registered. */
  function CancelAll(s: Io, fd: nat, ok: bool): (Io, seq<Work>)
    requires Inv(s)
  {
    if fd >= |s.ctxs| || s.ctxs[fd].events == {} || !ok then (s, [])
    else
      var c := s.ctxs[fd];
      var (c', ws) := TriggerAll(c, c.events);
      (Io(s.ctxs[fd := c'], Ctl(s.epoll, DEL, fd, {}), s.pending - Count(c.events)), ws)
  }

  /** The events the idle loop takes a report to mean; an error or a hang-up stands for whatever
      is registered when the descriptor's lock is held. */
  function RealEvents(c: FdCtx, r: Report): set<Event>
  {
    (if r.input then {READ} else {}) + (if r.output then {WRITE} else {}) + (if r.errorOrHangup then c.events else {})
  }

  /** A report gets as far as triggering. */
  predicate Delivers(s: Io, fd: nat, r: Report, ok: bool)
  {
    fd < |s.ctxs| && s.ctxs[fd].events * RealEvents(s.ctxs[fd], r) != {} && ok
  }

  /** Triggering calls into the scheduler of every real event, registered or not. */
  predicate NullScheduler(s: Io, fd: nat, r: Report, ok: bool)
  {
    Delivers(s, fd, r, ok) &&
    exists ev :: ev in RealEvents(s.ctxs[fd], r) && !GetContext(s.ctxs[fd], ev).bound
  }

  /** One descriptor's turn in the event loop of `idle`. */
  function Deliver(s: Io, fd: nat, r: Report, ok: bool): (Io, seq<Work>)
    requires Inv(s) && !NullScheduler(s, fd, r, ok)
  {
    if !Delivers(s, fd, r, ok) then (s, [])
    else
      var c := s.ctxs[fd];
      var seen := RealEvents(c, r);
      var left := c.events - seen;
      var (c', ws) := TriggerAll(c, seen);
      (Io(s.ctxs[fd := c'], Ctl(s.epoll, RemoveOp(left), fd, left), s.pending - Count(seen)), ws)
  }

  /** The loop calls through a null scheduler exactly when a report that matches some registered
      event also names one that is not registered: a stale bit is not masked out. */
  lemma StaleReport(s: Io, fd: nat, r: Report, ok: bool)
    requires Inv(s)
    ensures NullScheduler(s, fd, r, ok) <==>
            Delivers(s, fd, r, ok) && !(RealEvents(s.ctxs[fd], r) <= s.ctxs[fd].events)
  {
    if Delivers(s, fd, r, ok) {
      var c := s.ctxs[fd];
      assert CtxOk(c);
      if !(RealEvents(c, r) <= c.events) {
        var ev :| ev in RealEvents(c, r) && ev !in c.events;
        assert !GetContext(c, ev).bound;
      }
    }
  }

  // ----- what every operation keeps -----

  lemma TriggerAllKeeps(c: FdCtx, evs: set<Event>)
    requires CtxOk(c) && evs <= c.events
    ensures CtxOk(TriggerAll(c, evs).0) && TriggerAll(c, evs).0.events == c.events - evs
    ensures |TriggerAll(c, evs).1| == Count(evs)
  {
    var c' := TriggerAll(c, evs).0;
    forall ev ensures (ev in c'.events <==> GetContext(c', ev).bound)
      && (GetContext(c', ev).bound ==> GetContext(c', ev).cb.Some? || GetContext(c', ev).fiber.Some?)
    {
      assert GetContext(c, ev).bound <==> ev in c.events;
    }
    assert CtxOk(c) && GetContext(c, READ) == c.read && GetContext(c, WRITE) == c.write;
  }

  /** Changing one descriptor in step with the kernel keeps the invariant. */
  lemma PatchKeeps(s: Io, fd: nat, c: FdCtx, op: CtlOp, pending: int)
    requires Inv(s) && fd < |s.ctxs| && CtxOk(c)
    requires LegalCtl(s.epoll, op, fd) && (op.DEL? <==> c.events == {})
    ensures Inv(Io(s.ctxs[fd := c], Ctl(s.epoll, op, fd, c.events), pending))
    ensures SetBits(s.ctxs[fd := c]) == SetBits(s.ctxs) - Bits(s.ctxs[fd]) + Bits(c)
  {
    SetBitsUpdate(s.ctxs, fd, c);
  }

  /** The kernel call each operation makes is always one the kernel accepts. */
  lemma CtlLegal(s: Io, fd: nat)
    requires Inv(s) && fd < |s.ctxs|
    ensures LegalCtl(s.epoll, AddOp(s.ctxs[fd]), fd)
    ensures s.ctxs[fd].events != {} ==> forall op :: op != ADD ==> LegalCtl(s.epoll, op, fd)
  {
  }

  lemma AddKeeps(s: Io, fd: nat, ev: Event, req: Request, ok: bool)
    requires Inv(s) && fd < |s.ctxs|
    ensures Inv(Add(s, fd, ev, req, ok)) && |Add(s, fd, ev, req, ok).ctxs| == |s.ctxs|
    ensures var s', re := Add(s, fd, ev, req, ok), ev in s.ctxs[fd].events;
            && s'.pending - s.pending == (if ok then 1 else 0)
            && SetBits(s'.ctxs) - SetBits(s.ctxs) == (if ok && !re then 1 else 0)
  {
    var c := s.ctxs[fd];
    if ok {
      var c' := SetContext(c.(events := c.events + {ev}), ev, Register(GetContext(c, ev), req));
      assert CtxOk(c);
      assert CtxOk(c') by {
        forall e ensures (e in c'.events <==> GetContext(c', e).bound)
          && (GetContext(c', e).bound ==> GetContext(c', e).cb.Some? || GetContext(c', e).fiber.Some?)
        {
          assert GetContext(c, e).bound <==> e in c.events;
        }
      }
      PatchKeeps(s, fd, c', AddOp(c), s.pending + 1);
    }
  }

  lemma DelKeeps(s: Io, fd: nat, ev: Event, ok: bool)
    requires Inv(s)
    ensures var (s', done) := Del(s, fd, ev, ok);
            Inv(s') && s'.pending - s.pending == SetBits(s'.ctxs) - SetBits(s.ctxs) == if done then -1 else 0
  {
    var (s', done) := Del(s, fd, ev, ok);
    if done {
      var c := s.ctxs[fd];
      var c' := SetContext(c.(events := c.events - {ev}), ev, NO_CONTEXT);
      assert CtxOk(c') by {
        assert CtxOk(c) && GetContext(c, READ) == c.read && GetContext(c, WRITE) == c.write;
      }
      PatchKeeps(s, fd, c', RemoveOp(c'.events), s.pending - 1);
    }
  }

  // ----- triggering, in one form -----

  /** Trigger the registered events `evs` of one descriptor and tell the kernel. */
  function Fire(s: Io, fd: nat, evs: set<Event>): (Io, seq<Work>)
    requires Inv(s) && fd < |s.ctxs| && evs <= s.ctxs[fd].events && evs != {}
  {
    var c := s.ctxs[fd];
    var left := c.events - evs;
    var (c', ws) := TriggerAll(c, evs);
    (Io(s.ctxs[fd := c'], Ctl(s.epoll, RemoveOp(left), fd, left), s.pending - Count(evs)), ws)
  }

  lemma FireKeeps(s: Io, fd: nat, evs: set<Event>)
    requires Inv(s) && fd < |s.ctxs| && evs <= s.ctxs[fd].events && evs != {}
    ensures var (s', ws) := Fire(s, fd, evs);
            && Inv(s') && |ws| == Count(evs)
            && s'.pending - s.pending == SetBits(s'.ctxs) - SetBits(s.ctxs) == 0 - Count(evs)
  {
    var c := s.ctxs[fd];
    TriggerAllKeeps(c, evs);
    PatchKeeps(s, fd, TriggerAll(c, evs).0, RemoveOp(c.events - evs), s.pending - Count(evs));
  }

  /** The parts firing is made of: every event has a scheduler, and context, interest and counter change. */
  lemma FireParts(s: Io, fd: nat, evs: set<Event>)
    requires Inv(s) && fd < |s.ctxs| && evs <= s.ctxs[fd].events && evs != {}
    ensures forall ev :: ev in evs ==> GetContext(s.ctxs[fd], ev).bound
    ensures var c := s.ctxs[fd];
            Io(s.ctxs[fd := TriggerAll(c, evs).0], Ctl(s.epoll, RemoveOp(c.events - evs), fd, c.events - evs),
               s.pending - Count(evs)) == Fire(s, fd, evs).0
    ensures Inv(Fire(s, fd, evs).0)
  {
    FireKeeps(s, fd, evs);
    assert CtxOk(s.ctxs[fd]);
  }

  lemma TriggerOne(c: FdCtx, ev: Event)
    ensures TriggerAll(c, {ev}) == (Trigger(c, ev), AsList(WorkOf(GetContext(c, ev))))
  {
    var ws := AsList(WorkOf(GetContext(c, ev)));
    assert ws + [] == ws && [] + ws == ws;
  }

  /** `Enlarge` and `AddEvent` are the two locked regions of a registration: the first runs only if the
      vector was found too short for the descriptor, and other calls may come in between. */
  datatype Op =
    | Enlarge(fd: nat)
    | AddEvent(fd: nat, ev: Event, req: Request, ok: bool)
    | DelEvent(fd: nat, ev: Event, ok: bool)
    | CancelEvent(fd: nat, ev: Event, ok: bool)
    | CancelAllEvents(fd: nat, ok: bool)
    | Reported(fd: nat, report: Report, ok: bool)

  /** The call does not run into the null scheduler of a stale report, a registration finds its
      context in the vector, and a resize finds the vector no longer than it asks for. */
  predicate Safe(s: Io, op: Op) {
    match op
    case Enlarge(fd) => |s.ctxs| <= GrownLength(fd)
    case AddEvent(fd, _, _, _) => fd < |s.ctxs|
    case Reported(fd, r, ok) => !NullScheduler(s, fd, r, ok)
    case _ => true
  }

  function Apply(s: Io, op: Op): (Io, seq<Work>)
    requires Inv(s) && Safe(s, op)
  {
    match op
    case Enlarge(fd) => (Grow(s, fd), [])
    case AddEvent(fd, ev, req, ok) => (Add(s, fd, ev, req, ok), [])
    case DelEvent(fd, ev, ok) => (Del(s, fd, ev, ok).0, [])
    case CancelEvent(fd, ev, ok) => Cancel(s, fd, ev, ok)
    case CancelAllEvents(fd, ok) => CancelAll(s, fd, ok)
    case Reported(fd, r, ok) => Deliver(s, fd, r, ok)
  }

  /** The registered events an operation triggers. */
  function Fired(s: Io, op: Op): set<Event>
    requires Inv(s) && Safe(s, op)
  {
    if op.Enlarge? || op.fd >= |s.ctxs| || !op.ok then {}
    else
      match op
      case CancelEvent(fd, ev, _) => s.ctxs[fd].events * {ev}
      case CancelAllEvents(fd, _) => s.ctxs[fd].events
      case Reported(fd, r, _) => s.ctxs[fd].events * RealEvents(s.ctxs[fd], r)
      case _ => {}
  }

  /** The operations that trigger what they remove. */
  predicate Triggers(op: Op) { op.CancelEvent? || op.CancelAllEvents? || op.Reported? }

  /** Cancelling one event, cancelling all and delivering a report are the same transition. */
  lemma ApplyFires(s: Io, op: Op)
    requires Inv(s) && Safe(s, op) && Triggers(op)
    ensures Apply(s, op) == if Fired(s, op) == {} then (s, []) else Fire(s, op.fd, Fired(s, op))
  {
    match op
    case CancelEvent(fd, ev, ok) =>
      if fd < |s.ctxs| && ev in s.ctxs[fd].events && ok {
        assert ev in Fired(s, op) && Fired(s, op) == {ev};
        TriggerOne(s.ctxs[fd], ev);
      }
    case CancelAllEvents(fd, ok) =>
      if Fired(s, op) != {} { assert s.ctxs[fd].events - s.ctxs[fd].events == {}; }
    case Reported(fd, r, ok) =>
      StaleReport(s, fd, r, ok);
      if Fired(s, op) != {} { assert Fired(s, op) == RealEvents(s.ctxs[fd], r); }
  }

  // ----- runs and what is conserved over them -----

  datatype Slot = Slot(fd: nat, ev: Event)

  predicate Armed(s: Io, x: Slot) { x.fd < |s.ctxs| && x.ev in s.ctxs[x.fd].events }

  function One(b: bool): nat { if b then 1 else 0 }

  /** A successful registration of the slot; `again` when the bit was set already. */
  predicate Registers(op: Op, x: Slot) { op.AddEvent? && op.ok && op.fd == x.fd && op.ev == x.ev }

  predicate Again(s: Io, op: Op) { op.AddEvent? && op.ok && Armed(s, Slot(op.fd, op.ev)) }

  predicate Deletes(s: Io, op: Op, x: Slot) { op.DelEvent? && op.ok && op.fd == x.fd && op.ev == x.ev && Armed(s, x) }

  predicate Fires(s: Io, op: Op, x: Slot)
    requires Inv(s) && Safe(s, op)
  {
    op.fd == x.fd && x.ev in Fired(s, op)
  }

  /** What one operation does to a slot, to the counter and to the amount of work scheduled. */
  ghost predicate Balanced(s: Io, op: Op, x: Slot)
    requires Inv(s) && Safe(s, op)
  {
    var (s', ws) := Apply(s, op);
    && Inv(s')
    && One(Armed(s', x)) + One(Fires(s, op, x)) + One(Deletes(s, op, x))
       == One(Armed(s, x)) + One(Registers(op, x)) - One(Registers(op, x) && Again(s, op))
    && s'.pending - SetBits(s'.ctxs) == s.pending - SetBits(s.ctxs) + One(Again(s, op))
    && |ws| == Count(Fired(s, op))
  }

  lemma AddBalance(s: Io, op: Op, x: Slot)
    requires Inv(s) && Safe(s, op) && op.AddEvent?
    ensures Balanced(s, op, x)
  {
    AddKeeps(s, op.fd, op.ev, op.req, op.ok);
  }

  lemma EnlargeBalance(s: Io, op: Op, x: Slot)
    requires Inv(s) && Safe(s, op) && op.Enlarge?
    ensures Balanced(s, op, x)
  {
    GrowKeeps(s, op.fd);
  }

  lemma DelBalance(s: Io, op: Op, x: Slot)
    requires Inv(s) && op.DelEvent?
    ensures Balanced(s, op, x)
  {
    DelKeeps(s, op.fd, op.ev, op.ok);
  }

  lemma FireBalance(s: Io, op: Op, x: Slot)
    requires Inv(s) && Safe(s, op) && Triggers(op)
    ensures Balanced(s, op, x)
  {
    ApplyFires(s, op);
    var evs := Fired(s, op);
    if evs != {} {
      FireKeeps(s, op.fd, evs);
      TriggerAllKeeps(s.ctxs[op.fd], evs);
    }
  }

  lemma StepBalance(s: Io, op: Op, x: Slot)
    requires Inv(s) && Safe(s, op)
    ensures Balanced(s, op, x)
  {
    if op.AddEvent? {
      AddBalance(s, op, x);
    } else if op.DelEvent? {
      DelBalance(s, op, x);
    } else if op.Enlarge? {
      EnlargeBalance(s, op, x);
    } else {
      FireBalance(s, op, x);
    }
  }

  /** Every call of a run is safe when it is made. */
  ghost predicate SafeRun(s: Io, ops: seq<Op>)
    requires Inv(s)
    decreases |ops|
  {
    ops == [] || (Safe(s, ops[0]) && (StepBalance(s, ops[0], Slot(0, READ)); SafeRun(Apply(s, ops[0]).0, ops[1..])))
  }

  /** The events of one slot over a run, and the registrations made on top of a set bit anywhere. */
  datatype Tally = Tally(registered: nat, again: nat, fired: nat, deleted: nat, anyAgain: nat)

  ghost function Run(s: Io, ops: seq<Op>, x: Slot): (r: (Io, Tally))
    requires Inv(s) && SafeRun(s, ops)
    decreases |ops|
  {
    if ops == [] then (s, Tally(0, 0, 0, 0, 0))
    else
      var op := ops[0];
      StepBalance(s, op, x);
      var (s1, ws) := Apply(s, op);
      var (s2, t) := Run(s1, ops[1..], x);
      (s2, Tally(t.registered + One(Registers(op, x)), t.again + One(Registers(op, x) && Again(s, op)),
                 t.fired + One(Fires(s, op, x)), t.deleted + One(Deletes(s, op, x)),
                 t.anyAgain + One(Again(s, op))))
  }

  /** In every run: registrations of a slot are triggers plus deletions plus the outstanding bit,
      not counting the ones made on top of a set bit; and the pending counter exceeds the number
      of set bits by exactly those. */
  lemma {:induction false} RunBalance(s: Io, ops: seq<Op>, x: Slot)
    requires Inv(s) && SafeRun(s, ops)
    ensures var (s', t) := Run(s, ops, x);
            && Inv(s')
            && One(Armed(s, x)) + t.registered - t.again == t.fired + t.deleted + One(Armed(s', x))
            && s'.pending - SetBits(s'.ctxs) == s.pending - SetBits(s.ctxs) + t.anyAgain
    decreases |ops|
  {
    if ops != [] {
      StepBalance(s, ops[0], x);
      RunBalance(Apply(s, ops[0]).0, ops[1..], x);
    }
  }

  /** A waiter is woken at most once per registration: readiness, a timeout's cancellation and a
      cancel-all compete for the same bit. */
  lemma WokenAtMostOncePerRegistration(s: Io, ops: seq<Op>, x: Slot)
    requires Inv(s) && SafeRun(s, ops) && !Armed(s, x)
    ensures Run(s, ops, x).1.fired <= Run(s, ops, x).1.registered
  {
    RunBalance(s, ops, x);
  }

  /** The pending counter stays the number of set bits exactly in the runs that never register an
      event on top of itself; `addEvent` only logs that. */
  lemma CounterExact(s: Io, ops: seq<Op>, x: Slot)
    requires Inv(s) && SafeRun(s, ops) && s.pending == SetBits(s.ctxs)
    ensures Run(s, ops, x).0.pending == SetBits(Run(s, ops, x).0.ctxs) <==> Run(s, ops, x).1.anyAgain == 0
  {
    RunBalance(s, ops, x);
  }

  /** Each slot fired contributes the work of its context, reading before writing. */
  lemma FiredWork(s: Io, op: Op)
    requires Inv(s) && Safe(s, op)
    ensures var ws := Apply(s, op).1;
            && |ws| == Count(Fired(s, op))
            && (READ in Fired(s, op) ==> Some(ws[0]) == WorkOf(s.ctxs[op.fd].read))
            && (WRITE in Fired(s, op) ==> Some(ws[|ws| - 1]) == WorkOf(s.ctxs[op.fd].write))
  {
    StepBalance(s, op, Slot(0, READ));
    if Triggers(op) {
      ApplyFires(s, op);
      if Fired(s, op) != {} {
        var c := s.ctxs[op.fd];
        assert CtxOk(c) && GetContext(c, READ) == c.read && GetContext(c, WRITE) == c.write;
      }
    }
  }

  function ContextAt(s: Io, x: Slot): EventContext
    requires x.fd < |s.ctxs|
  {
    GetContext(s.ctxs[x.fd], x.ev)
  }

  /** What an operation does to a slot: unless it registers the slot, a bit that is set afterwards was set
      before and its context is the same; and the bit stays unless the operation fires or deletes it. */
  lemma SlotAfter(s: Io, op: Op, x: Slot)
    requires Inv(s) && Safe(s, op)
    ensures var t := Apply(s, op).0;
            && Inv(t) && |t.ctxs| >= |s.ctxs|
            && (!Registers(op, x) && Armed(t, x) ==> Armed(s, x) && ContextAt(t, x) == ContextAt(s, x))
            && (Armed(s, x) && !Fires(s, op, x) && !Deletes(s, op, x) ==> Armed(t, x))
            && (Registers(op, x) ==> Armed(t, x) && ContextAt(t, x) == Register(ContextAt(s, x), op.req))
            && (Fires(s, op, x) || Deletes(s, op, x) ==> Armed(s, x) && !Armed(t, x))
  {
    StepBalance(s, op, x);
    if Triggers(op) {
      ApplyFires(s, op);
    } else if op.Enlarge? {
      GrowKeeps(s, op.fd);
    }
  }

  function Requested(req: Request): Work
  {
    match req
    case Callback(cb) => CbWork(cb)
    case CurrentFiber(f) => FiberWork(f)
  }

  /** What the next trigger of a slot will run is what its registration asked for, except when a
      fiber registers on a slot that still holds the callback of an earlier, triggered
      registration: `triggerEvent` does not clear it, and it takes precedence. */
  lemma TriggerRunsWhatWasAsked(s: Io, fd: nat, ev: Event, req: Request)
    requires Inv(s) && fd < |s.ctxs|
    ensures var c := Add(s, fd, ev, req, true).ctxs[fd];
            WorkOf(GetContext(c, ev)) == Some(Requested(req)) <==> req.Callback? || GetContext(s.ctxs[fd], ev).cb.None?
  {
  }

  lemma {:induction false} SetBitsSplit(ctxs: seq<FdCtx>, n: nat)
    requires n <= |ctxs|
    ensures SetBits(ctxs) == SetBits(ctxs[..n]) + SetBits(ctxs[n..])
  {
    if n > 0 {
      SetBitsSplit(ctxs[1..], n - 1);
      assert ctxs[..n][1..] == ctxs[1..][..n - 1] && ctxs[n..] == ctxs[1..][n - 1..];
    } else {
      assert ctxs[0..] == ctxs;
    }
  }

  // ----- the promises that fail, on concrete inputs -----

  lemma ReaddOvercounts(n: nat)
    requires n >= 32
    ensures Inv(Start(n))
    ensures var a := Add(Start(n), 0, READ, CurrentFiber(1), true);
            Inv(a) && var b := Add(a, 0, READ, CurrentFiber(2), true); b.pending == 2 && SetBits(b.ctxs) == 1
  {
    StartOk(n);
    AddKeeps(Start(n), 0, READ, CurrentFiber(1), true);
    AddKeeps(Add(Start(n), 0, READ, CurrentFiber(1), true), 0, READ, CurrentFiber(2), true);
  }

  /** What the kernel can put into a report: watched events, and errors of watched descriptors. */
  predicate Collectable(s: Io, fd: nat, r: Report) {
    && fd in s.epoll
    && (r.input ==> READ in s.epoll[fd])
    && (r.output ==> WRITE in s.epoll[fd])
  }

  /** A report handled in the state it was collected in never reaches a null scheduler. */
  lemma FreshReportSafe(s: Io, fd: nat, r: Report, ok: bool)
    requires Inv(s) && Collectable(s, fd, r)
    ensures !NullScheduler(s, fd, r, ok)
  {
    StaleReport(s, fd, r, ok);
  }

  /** One that was collected before an event it names was removed, by `delEvent` or `cancelEvent`, does,
      while the other event is still registered. */
  lemma StaleReportFaults(n: nat, cancel: bool)
    requires n >= 32
    ensures Inv(Start(n))
    ensures var a := Add(Start(n), 0, READ, CurrentFiber(1), true);
            Inv(a) && var b, r := Add(a, 0, WRITE, CurrentFiber(2), true), Report(true, true, false);
            Inv(b) && Collectable(b, 0, r) &&
            var c := if cancel then Cancel(b, 0, WRITE, true).0 else Del(b, 0, WRITE, true).0;
            Inv(c) && NullScheduler(c, 0, r, true)
  {
    StartOk(n);
    AddKeeps(Start(n), 0, READ, CurrentFiber(1), true);
    var a := Add(Start(n), 0, READ, CurrentFiber(1), true);
    AddKeeps(a, 0, WRITE, CurrentFiber(2), true);
    var b, r := Add(a, 0, WRITE, CurrentFiber(2), true), Report(true, true, false);
    assert b.ctxs[0].events == {READ, WRITE};
    StepBalance(b, CancelEvent(0, WRITE, true), Slot(0, WRITE));
    DelKeeps(b, 0, WRITE, true);
    var c := if cancel then Cancel(b, 0, WRITE, true).0 else Del(b, 0, WRITE, true).0;
    assert c.ctxs[0].events == {READ};
    assert READ in c.ctxs[0].events * RealEvents(c.ctxs[0], r) && WRITE in RealEvents(c.ctxs[0], r);
    StaleReport(c, 0, r, true);
  }

  /** A callback registered, triggered, and then a fiber registered on the same slot: the next
      trigger runs the callback again and the fiber sleeps on. */
  lemma StaleCallbackWins(n: nat)
    requires n >= 32
    ensures Inv(Start(n))
    ensures var s1 := Add(Start(n), 0, READ, Callback(7), true);
            Inv(s1) && var (s2, w2) := Cancel(s1, 0, READ, true);
            Inv(s2) && var s3 := Add(s2, 0, READ, CurrentFiber(1), true);
            Inv(s3) && w2 == [CbWork(7)] && Cancel(s3, 0, READ, true).1 == [CbWork(7)]
  {
    StartOk(n);
    AddKeeps(Start(n), 0, READ, Callback(7), true);
    var s1 := Add(Start(n), 0, READ, Callback(7), true);
    StepBalance(s1, CancelEvent(0, READ, true), Slot(0, READ));
    AddKeeps(Cancel(s1, 0, READ, true).0, 0, READ, CurrentFiber(1), true);
  }
}
