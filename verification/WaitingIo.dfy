/** One hooked I/O call on an actual slot of the IO manager: try, register and wait, try again, while
    reports, other calls and the callbacks of its timers race. One step is one action of the call, of the
    event loop or of a timer callback, which gets hold of the mark, looks at it, sets it and cancels the event, with
    no lock from one to the next. */
module WaitingIo {
  import opened Bytes
  import opened FdEvents

  datatype Result = Value(n: int) | NotRegistered | TimedOut

  datatype Pc = Trying | Blocked | Registering | Leaving | Waiting | Resumed | Finished(result: Result)

  /** `wakes`: how often the waiter is queued to be resumed. `pending`: the timer of this attempt has not
      expired. Of the expired timers of all attempts, `due` callbacks have not asked for the mark, `held` hold it
      and have not looked, `tested` found it unset, and `marked` have set it and not cancelled the event yet.
      `flag`: the mark, `cancelled` in the source. History of this attempt: `mine`, the bit of the slot is its own;
      `clean`, the slot held no callback when it registered; `kept`, nobody has since registered on top of it or
      deleted it. */
  datatype Call = Call(io: Io, slot: Slot, f: nat, timeout: bool, pc: Pc, wakes: nat,
                       pending: bool, due: nat, held: nat, tested: nat, marked: nat, flag: bool,
                       mine: bool, clean: bool, kept: bool)

  datatype Step =
    | Try(r: int)         // the system call answered
    | TryAgain            // it would block
    | StartTimer
    | Register(ok: bool)
    | SwapOut
    | Expire
    | Lock
    | Look
    | Mark
    | Cancel(ok: bool)
    | Resume
    | Check
    | Other(op: Op)       // an operation of another party

  /** A trigger of the slot would resume the fiber. */
  predicate Resumes(io: Io, x: Slot, f: nat) { Armed(io, x) && WorkOf(ContextAt(io, x)) == Some(FiberWork(f)) }

  predicate SlotFree(io: Io, x: Slot) { x.fd < |io.ctxs| && !Armed(io, x) }

  /** What other parties may do: whatever the manager offers, but nothing for this fiber. */
  ghost predicate Allowed(s: Call, op: Op) {
    Inv(s.io) && Safe(s.io, op) && (op.AddEvent? ==> op.req != CurrentFiber(s.f))
  }

  /** They registered on top of this attempt's registration, or deleted it. */
  predicate Spoils(s: Call, op: Op) { s.mine && (Registers(op, s.slot) || Deletes(s.io, op, s.slot)) }

  /** The mark lives as long as the call and the callbacks that hold it. */
  predicate Alive(s: Call) { !s.pc.Finished? || s.held + s.tested + s.marked > 0 }

  ghost predicate Enabled(s: Call, e: Step) {
    match e
    case Try(_) => s.pc.Trying?
    case TryAgain => s.pc.Trying?
    case StartTimer => s.pc.Blocked?
    case Register(_) => s.pc.Registering? && Inv(s.io) && s.slot.fd < |s.io.ctxs|
    case SwapOut => s.pc.Leaving?
    case Expire => s.pending
    case Lock => s.due > 0
    case Look => s.held > 0
    case Mark => s.tested > 0
    case Cancel(_) => s.marked > 0 && Inv(s.io)
    case Resume => s.pc.Waiting? && s.wakes > 0
    case Check => s.pc.Resumed?
    case Other(op) => Allowed(s, op)
  }

  function Wakes(ws: seq<Work>, f: nat): nat {
    if ws == [] then 0 else One(ws[0] == FiberWork(f)) + Wakes(ws[1..], f)
  }

  /** The manager after an operation, and the work it queued. */
  function After(s: Call, r: (Io, seq<Work>)): Call {
    s.(io := r.0, wakes := s.wakes + Wakes(r.1, s.f), mine := s.mine && Armed(r.0, s.slot))
  }

  function Spoiled(s: Call, spoils: bool): Call { if spoils then s.(mine := false, kept := false) else s }

  /** The steps of a timer: the mark is alive or gone. */
  function TimerNext(s: Call, e: Step): Call
    requires (e.Expire? && s.pending) || (e.Lock? && s.due > 0) || (e.Look? && s.held > 0) || (e.Mark? && s.tested > 0)
  {
    match e
    case Expire => s.(pending := false, due := s.due + 1)
    case Lock => s.(due := s.due - 1, held := s.held + One(Alive(s)))
    case Look => s.(held := s.held - 1, tested := s.tested + One(!s.flag))
    case Mark => s.(tested := s.tested - 1, marked := s.marked + 1, flag := true)
  }

  ghost function Next(s: Call, e: Step): Call
    requires Enabled(s, e)
  {
    match e
    case Try(r) => s.(pc := Finished(Value(r)))
    case TryAgain => s.(pc := Blocked)
    case StartTimer => s.(pc := Registering, pending := s.timeout)
    case Register(ok) =>
      if ok then
        s.(io := Add(s.io, s.slot.fd, s.slot.ev, CurrentFiber(s.f), true), pc := Leaving,
           mine := true, clean := ContextAt(s.io, s.slot).cb.None?, kept := true)
      else s.(pc := Finished(NotRegistered), pending := false)
    case SwapOut => s.(pc := Waiting)
    case Expire => TimerNext(s, e)
    case Lock => TimerNext(s, e)
    case Look => TimerNext(s, e)
    case Mark => TimerNext(s, e)
    case Cancel(ok) => After(s, FdEvents.Cancel(s.io, s.slot.fd, s.slot.ev, ok)).(marked := s.marked - 1)
    case Resume => s.(pc := Resumed, wakes := s.wakes - 1)
    case Check =>
      if s.flag then s.(pc := Finished(TimedOut), pending := false) else s.(pc := Trying, pending := false)
    case Other(op) => Spoiled(After(s, Apply(s.io, op)), Spoils(s, op))
  }

  ghost predicate RunOk(s: Call, es: seq<Step>)
    decreases |es|
  {
    es == [] || (Enabled(s, es[0]) && RunOk(Next(s, es[0]), es[1..]))
  }

  ghost function Run(s: Call, es: seq<Step>): Call
    requires RunOk(s, es)
    decreases |es|
  {
    if es == [] then s else Run(Next(s, es[0]), es[1..])
  }

  /** A call that begins: its fiber waits nowhere. */
  ghost predicate Begins(s: Call) {
    && Inv(s.io) && (forall x: Slot :: !Resumes(s.io, x, s.f))
    && s.pc.Trying? && s.wakes == 0 && !s.pending && s.due == s.held == s.tested == s.marked == 0 && !s.flag && !s.mine
  }

  predicate Held(s: Call) { s.pc.Leaving? || s.pc.Waiting? }

  /** From the registration to the resumption there is exactly one wake-up, in the slot or queued, if the slot
      was clean and the registration was kept, and none otherwise; at any other time there is none. */
  ghost predicate Sound(s: Call) {
    && Inv(s.io)
    && (forall x: Slot :: Resumes(s.io, x, s.f) ==> s.mine && x == s.slot)
    && (s.mine ==> s.kept && Armed(s.io, s.slot) && ContextAt(s.io, s.slot).fiber == Some(s.f))
    && (s.mine ==> (s.clean <==> ContextAt(s.io, s.slot).cb.None?))
    && (if !Held(s) then !s.mine && s.wakes == 0
        else if s.clean && s.kept then One(s.mine) + s.wakes == 1
        else s.wakes == 0)
  }

  /** A timer is there until the mark is set, and a finished call leaves none. */
  predicate TimersOk(s: Call) {
    && (s.pending ==> s.timeout && s.pc in {Registering, Leaving, Waiting, Resumed})
    && (s.pc in {Registering, Leaving, Waiting} && s.timeout && !s.flag ==> s.pending || s.due > 0 || s.held > 0 || s.tested > 0)
    && (!s.timeout ==> s.due == s.held == s.tested == s.marked == 0 && !s.flag)
    && (s.marked > 0 ==> s.flag)
    && (s.pc == Finished(TimedOut) ==> s.flag)
  }

  lemma WakesOf(ws: seq<Work>, f: nat)
    requires |ws| <= 2
    ensures Wakes(ws, f) == (if |ws| > 0 then One(ws[0] == FiberWork(f)) else 0)
                            + (if |ws| == 2 then One(ws[1] == FiberWork(f)) else 0)
  {
    if |ws| == 1 {
      assert ws[1..] == [];
    } else if |ws| == 2 {
      assert ws[1..] == [ws[1]] && [ws[1]][1..] == [];
    }
  }

  /** How often an operation queues the fiber: once for each slot it fires that would resume it. */
  lemma CountFired(io: Io, op: Op, f: nat)
    requires Inv(io) && Safe(io, op)
    ensures var r, w := Slot(op.fd, READ), Slot(op.fd, WRITE);
            Wakes(Apply(io, op).1, f)
            == One(Fires(io, op, r) && Resumes(io, r, f)) + One(Fires(io, op, w) && Resumes(io, w, f))
  {
    var ws := Apply(io, op).1;
    var r, w := Slot(op.fd, READ), Slot(op.fd, WRITE);
    FiredWork(io, op);
    WakesOf(ws, f);
    SlotAfter(io, op, r);
    SlotAfter(io, op, w);
    if Fires(io, op, r) { assert Resumes(io, r, f) <==> ws[0] == FiberWork(f); }
    if Fires(io, op, w) { assert Resumes(io, w, f) <==> ws[|ws| - 1] == FiberWork(f); }
  }

  /** A resumption that an operation leaves standing stood before. */
  lemma ResumesAfter(s: Call, op: Op, x: Slot)
    requires Inv(s.io) && Allowed(s, op) && Resumes(Apply(s.io, op).0, x, s.f)
    ensures Resumes(s.io, x, s.f)
  {
    SlotAfter(s.io, op, x);
    StepBalance(s.io, op, x);
    assert CtxOk(Apply(s.io, op).0.ctxs[x.fd]);
  }

  /** No slot resumes the fiber that did not before. */
  lemma NoNewResumption(s: Call, op: Op)
    requires Sound(s) && Allowed(s, op)
    ensures Inv(Apply(s.io, op).0) && forall x: Slot :: Resumes(Apply(s.io, op).0, x, s.f) ==> s.mine && x == s.slot
    ensures forall x: Slot :: Resumes(Apply(s.io, op).0, x, s.f) ==> !Fires(s.io, op, x) && !Spoils(s, op)
  {
    StepBalance(s.io, op, s.slot);
    forall x: Slot | Resumes(Apply(s.io, op).0, x, s.f)
      ensures s.mine && x == s.slot && !Fires(s.io, op, x) && !Spoils(s, op)
    {
      ResumesAfter(s, op, x);
      SlotAfter(s.io, op, x);
    }
  }

  /** What an operation that does not spoil the registration does to this call's slot and fiber. */
  lemma OperationSound(s: Call, op: Op)
    requires Sound(s) && Allowed(s, op) && !Spoils(s, op)
    ensures Sound(After(s, Apply(s.io, op)))
  {
    var t := After(s, Apply(s.io, op));
    NoNewResumption(s, op);
    SlotAfter(s.io, op, s.slot);
    CountFired(s.io, op, s.f);
    if s.mine && Fires(s.io, op, s.slot) {
      assert Wakes(Apply(s.io, op).1, s.f) == One(s.clean);
    }
  }

  /** What one that does leaves behind: nothing. */
  lemma SpoilSound(s: Call, op: Op)
    requires Sound(s) && Allowed(s, op) && Spoils(s, op)
    ensures Sound(Next(s, Other(op))) && Next(s, Other(op)).wakes == s.wakes == 0
  {
    NoNewResumption(s, op);
    CountFired(s.io, op, s.f);
  }

  lemma RegisterSound(s: Call)
    requires Sound(s) && Enabled(s, Register(true))
    ensures Sound(Next(s, Register(true)))
  {
    var t, op := Next(s, Register(true)), AddEvent(s.slot.fd, s.slot.ev, CurrentFiber(s.f), true);
    SlotAfter(s.io, op, s.slot);
    forall x: Slot | Resumes(t.io, x, s.f) ensures t.mine && x == t.slot
    {
      SlotAfter(s.io, op, x);
      assert x != s.slot ==> Resumes(s.io, x, s.f);
    }
  }

  predicate SameCall(s: Call, t: Call) { t.slot == s.slot && t.f == s.f && t.timeout == s.timeout }

  /** The steps of the call itself that leave the manager alone. */
  lemma CallStepKeeps(s: Call, e: Step)
    requires Sound(s) && TimersOk(s) && Enabled(s, e)
    requires e.Try? || e.TryAgain? || e.StartTimer? || e == Register(false) || e.SwapOut? || e.Resume? || e.Check?
    ensures Sound(Next(s, e)) && TimersOk(Next(s, e)) && SameCall(s, Next(s, e))
  {
    assert Next(s, e).io == s.io && Next(s, e).mine == s.mine;
  }

  lemma TimerStepKeeps(s: Call, e: Step)
    requires Sound(s) && TimersOk(s) && Enabled(s, e) && (e.Expire? || e.Lock? || e.Look? || e.Mark?)
    ensures Sound(Next(s, e)) && TimersOk(Next(s, e)) && SameCall(s, Next(s, e))
  {
    assert Next(s, e).io == s.io && Next(s, e).mine == s.mine;
  }

  /** What the steps that touch the manager leave alone. */
  lemma AfterShape(s: Call, r: (Io, seq<Work>), spoils: bool)
    ensures var t := Spoiled(After(s, r), spoils); t == s.(io := t.io, wakes := t.wakes, mine := t.mine, kept := t.kept)
  {
  }

  lemma OtherShape(s: Call, op: Op)
    requires Enabled(s, Other(op))
    ensures var t := Next(s, Other(op)); t == s.(io := t.io, wakes := t.wakes, mine := t.mine, kept := t.kept)
  {
    AfterShape(s, Apply(s.io, op), Spoils(s, op));
  }

  lemma CancelShape(s: Call, ok: bool)
    requires Enabled(s, Cancel(ok))
    ensures var t := Next(s, Cancel(ok)); t == s.(io := t.io, wakes := t.wakes, mine := t.mine, marked := t.marked)
  {
  }

  lemma RegisterShape(s: Call, ok: bool)
    requires Enabled(s, Register(ok))
    ensures var t := Next(s, Register(ok));
            t == s.(io := t.io, pc := t.pc, pending := t.pending, mine := t.mine, clean := t.clean, kept := t.kept)
  {
  }

  lemma Shape(s: Call, e: Step)
    requires Enabled(s, e)
    ensures var t := Next(s, e);
            && (e.Other? ==> t == s.(io := t.io, wakes := t.wakes, mine := t.mine, kept := t.kept))
            && (e.Cancel? ==> t == s.(io := t.io, wakes := t.wakes, mine := t.mine, marked := t.marked))
            && (e.Register? ==>
                  t == s.(io := t.io, pc := t.pc, pending := t.pending, mine := t.mine, clean := t.clean, kept := t.kept))
  {
    if e.Other? { OtherShape(s, e.op); }
    if e.Cancel? { CancelShape(s, e.ok); }
    if e.Register? { RegisterShape(s, e.ok); }
  }

  lemma OtherKeeps(s: Call, op: Op)
    requires Sound(s) && TimersOk(s) && Enabled(s, Other(op))
    ensures var t := Next(s, Other(op)); Sound(t) && TimersOk(t) && SameCall(s, t)
  {
    OtherShape(s, op);
    if Spoils(s, op) { SpoilSound(s, op); } else { OperationSound(s, op); }
  }

  lemma CancelKeeps(s: Call, ok: bool)
    requires Sound(s) && TimersOk(s) && Enabled(s, Cancel(ok))
    ensures var t := Next(s, Cancel(ok)); Sound(t) && TimersOk(t) && SameCall(s, t)
  {
    CancelShape(s, ok);
    OperationSound(s, CancelEvent(s.slot.fd, s.slot.ev, ok));
  }

  lemma RegisterKeeps(s: Call)
    requires Sound(s) && TimersOk(s) && Enabled(s, Register(true))
    ensures var t := Next(s, Register(true)); Sound(t) && TimersOk(t) && SameCall(s, t)
  {
    RegisterShape(s, true);
    RegisterSound(s);
  }

  lemma StepKeeps(s: Call, e: Step)
    requires Sound(s) && TimersOk(s) && Enabled(s, e)
    ensures Sound(Next(s, e)) && TimersOk(Next(s, e)) && SameCall(s, Next(s, e))
  {
    if e == Register(true) {
      RegisterKeeps(s);
    } else if e.Cancel? {
      CancelKeeps(s, e.ok);
    } else if e.Other? {
      OtherKeeps(s, e.op);
    } else if e.Expire? || e.Lock? || e.Look? || e.Mark? {
      TimerStepKeeps(s, e);
    } else {
      CallStepKeeps(s, e);
    }
  }

  lemma {:induction false} RunKeeps(s: Call, es: seq<Step>)
    requires Sound(s) && TimersOk(s) && RunOk(s, es)
    ensures Sound(Run(s, es)) && TimersOk(Run(s, es))
    ensures SameCall(s, Run(s, es))
    decreases |es|
  {
    if es != [] {
      StepKeeps(s, es[0]);
      RunKeeps(Next(s, es[0]), es[1..]);
    }
  }

  /** The waiter is set aside and nothing will queue it. */
  predicate Forgotten(s: Call) { s.pc.Waiting? && !s.mine && s.wakes == 0 }

  /** In every run: the waiter is queued at most once per registration, and never both queued and registered;
      once its registration is gone it is forgotten exactly if its slot held a callback when it registered or another
      party registered on top or deleted the registration; and a call that returned leaves neither a wake-up nor
      a timer nor a slot that would resume its fiber. */
  lemma WakesOnce(s0: Call, es: seq<Step>)
    requires Begins(s0) && RunOk(s0, es)
    ensures var s := Run(s0, es);
            && s.wakes <= 1 && !(s.mine && s.wakes == 1)
            && (s.pc.Waiting? ==> (Forgotten(s) <==> !s.mine && (!s.clean || !s.kept)))
            && (Held(s) && (!s.clean || !s.kept) ==> s.wakes == 0)
            && (s.pc.Finished? ==> s.wakes == 0 && !s.pending && forall x: Slot :: !Resumes(s.io, x, s.f))
            && (s.pc == Finished(TimedOut) ==> s.timeout && s.flag)
  {
    RunKeeps(s0, es);
  }

  // ----- runs step by step -----

  predicate NoExpiry(es: seq<Step>) { forall i :: 0 <= i < |es| ==> !es[i].Expire? }

  /** A step of a timer or its callback. */
  predicate OfTimer(e: Step) { e.Expire? || e.Lock? || e.Look? || e.Mark? || e.Cancel? }

  predicate OnlyTimers(es: seq<Step>) { forall i :: 0 <= i < |es| ==> OfTimer(es[i]) }

  predicate NoResume(es: seq<Step>) { forall i :: 0 <= i < |es| ==> !es[i].Resume? }

  /** A run is its first step and a run. */
  lemma Unfold(es: seq<Step>)
    requires es != []
    ensures NoExpiry(es) <==> !es[0].Expire? && NoExpiry(es[1..])
    ensures OnlyTimers(es) <==> OfTimer(es[0]) && OnlyTimers(es[1..])
    ensures NoResume(es) <==> !es[0].Resume? && NoResume(es[1..])
  {
    assert forall i :: 1 <= i < |es| ==> es[i] == es[1..][i - 1];
    assert forall i :: 0 <= i < |es| - 1 ==> es[1..][i] == es[i + 1];
  }

  /** The kinds of runs the statements below speak of. */
  datatype Kind = Any | Timers | Unresumed | Unexpired

  predicate OfKind(es: seq<Step>, k: Kind) {
    match k
    case Any => true
    case Timers => OnlyTimers(es)
    case Unresumed => NoResume(es)
    case Unexpired => NoExpiry(es)
  }

  /** Some run of the kind leads from `s` to `t`. */
  ghost predicate Leads(s: Call, t: Call, k: Kind) { exists es :: RunOk(s, es) && Run(s, es) == t && OfKind(es, k) }

  lemma LeadsSelf(s: Call, k: Kind)
    ensures Leads(s, s, k)
  {
    assert RunOk(s, []) && Run(s, []) == s && OfKind([], k);
  }

  lemma LeadsStep(s: Call, e: Step, t: Call, k: Kind)
    requires Enabled(s, e) && Leads(Next(s, e), t, k) && OfKind([e], k)
    ensures Leads(s, t, k)
  {
    var es :| RunOk(Next(s, e), es) && Run(Next(s, e), es) == t && OfKind(es, k);
    var all := [e] + es;
    assert all[0] == e && all[1..] == es && [e][0] == e;
    Unfold(all);
    assert RunOk(s, all) && Run(s, all) == t && OfKind(all, k);
  }

  // ----- whether the waiter is woken -----

  lemma HeldStep(s: Call, e: Step)
    requires Held(s) && Enabled(s, e) && !e.Resume?
    ensures Held(Next(s, e)) && Next(s, e).clean == s.clean
  {
    Shape(s, e);
  }

  lemma {:induction false} HeldStays(s: Call, es: seq<Step>)
    requires Held(s) && RunOk(s, es) && NoResume(es)
    ensures Held(Run(s, es)) && Run(s, es).clean == s.clean
    decreases |es|
  {
    if es != [] {
      Unfold(es);
      HeldStep(s, es[0]);
      HeldStays(Next(s, es[0]), es[1..]);
    }
  }

  /** Until it is resumed, and as long as its registration is kept, the waiter is never forgotten. */
  ghost predicate NeverForgotten(s: Call) {
    forall es :: RunOk(s, es) && NoResume(es) && Run(s, es).kept ==> !Forgotten(Run(s, es))
  }

  /** A registration that is kept keeps its waiter from being forgotten exactly if the slot held no callback: a
      trigger does not clear one, and it takes precedence. */
  lemma WokenIff(s: Call)
    requires Sound(s) && TimersOk(s) && Enabled(s, Register(true))
    ensures NeverForgotten(Next(s, Register(true))) <==> ContextAt(s.io, s.slot).cb.None?
  {
    var t := Next(s, Register(true));
    StepKeeps(s, Register(true));
    if t.clean {
      forall es | RunOk(t, es) && NoResume(es) && Run(t, es).kept ensures !Forgotten(Run(t, es))
      {
        RunKeeps(t, es);
        HeldStays(t, es);
      }
    } else {
      var u := Next(t, SwapOut);
      StepKeeps(t, SwapOut);
      var e := Other(CancelEvent(s.slot.fd, s.slot.ev, true));
      var v := Next(u, e);
      StepKeeps(u, e);
      SlotAfter(u.io, e.op, s.slot);
      LeadsSelf(v, Unresumed);
      LeadsStep(u, e, v, Unresumed);
      LeadsStep(t, SwapOut, v, Unresumed);
      assert Forgotten(v);
    }
  }

  /** An operation of another party makes a registered waiter on a clean slot forgotten exactly if it registers on
      top, which the source only logs, or deletes the registration. */
  lemma SpoiledIff(s: Call, op: Op)
    requires Sound(s) && TimersOk(s) && s.pc.Waiting? && s.mine && s.clean && Allowed(s, op)
    ensures Forgotten(Next(s, Other(op))) <==> Spoils(s, op)
  {
    StepKeeps(s, Other(op));
    if Spoils(s, op) { SpoilSound(s, op); }
  }

  /** A forgotten waiter stays set aside in every run. */
  lemma {:induction false} ForgottenStays(s: Call, es: seq<Step>)
    requires Sound(s) && TimersOk(s) && Forgotten(s) && RunOk(s, es)
    ensures Forgotten(Run(s, es))
    decreases |es|
  {
    if es != [] {
      StepKeeps(s, es[0]);
      ForgottenStays(Next(s, es[0]), es[1..]);
    }
  }

  // ----- whether a timeout ends the wait -----

  /** A callback will cancel: it has found the mark unset and has not cancelled yet, or it will find it unset. */
  predicate InFlight(s: Call) { s.tested > 0 || s.marked > 0 || (s.held > 0 && !s.flag) }

  lemma SpentStep(s: Call, e: Step)
    requires (s.flag || s.pc.Finished?) && !InFlight(s) && Enabled(s, e) && OfTimer(e)
    ensures Next(s, e).io == s.io && Next(s, e).wakes == s.wakes
    ensures (Next(s, e).flag || Next(s, e).pc.Finished?) && !InFlight(Next(s, e))
  {
    assert e.Expire? || e.Lock? || e.Look?;
    assert Next(s, e) == TimerNext(s, e);
  }

  lemma {:induction false} SpentTimersDoNothing(s: Call, es: seq<Step>)
    requires (s.flag || s.pc.Finished?) && !InFlight(s) && RunOk(s, es) && OnlyTimers(es)
    ensures Run(s, es).io == s.io && Run(s, es).wakes == s.wakes
    decreases |es|
  {
    if es != [] {
      Unfold(es);
      SpentStep(s, es[0]);
      SpentTimersDoNothing(Next(s, es[0]), es[1..]);
    }
  }

  /** Timers alone, whatever else stands still, queue the waiter. */
  ghost predicate TimersWake(s: Call) { exists es :: RunOk(s, es) && OnlyTimers(es) && Run(s, es).wakes == 1 }

  lemma TimersWakeStep(s: Call, e: Step)
    requires Enabled(s, e) && OfTimer(e) && TimersWake(Next(s, e))
    ensures TimersWake(s)
  {
    var es :| RunOk(Next(s, e), es) && OnlyTimers(es) && Run(Next(s, e), es).wakes == 1;
    LeadsStep(s, e, Run(Next(s, e), es), Timers) by { assert OfKind(es, Timers); assert OfKind([e], Timers); }
    var all :| RunOk(s, all) && Run(s, all) == Run(Next(s, e), es) && OfKind(all, Timers);
    assert Run(s, all).wakes == 1;
  }

  lemma MarkedWakes(s: Call)
    requires Sound(s) && TimersOk(s) && s.pc.Waiting? && s.mine && s.clean && s.marked > 0
    ensures TimersWake(s)
  {
    var t := Next(s, Cancel(true));
    StepKeeps(s, Cancel(true));
    SlotAfter(s.io, CancelEvent(s.slot.fd, s.slot.ev, true), s.slot);
    assert RunOk(t, []) && OnlyTimers([]) && Run(t, []).wakes == 1;
    TimersWakeStep(s, Cancel(true));
  }

  lemma TestedWakes(s: Call)
    requires Sound(s) && TimersOk(s) && s.pc.Waiting? && s.mine && s.clean && s.tested > 0
    ensures TimersWake(s)
  {
    StepKeeps(s, Mark);
    MarkedWakes(Next(s, Mark));
    TimersWakeStep(s, Mark);
  }

  lemma HeldWakes(s: Call)
    requires Sound(s) && TimersOk(s) && s.pc.Waiting? && s.mine && s.clean && !s.flag && s.held > 0
    ensures TimersWake(s)
  {
    StepKeeps(s, Look);
    TestedWakes(Next(s, Look));
    TimersWakeStep(s, Look);
  }

  lemma DueWakes(s: Call)
    requires Sound(s) && TimersOk(s) && s.pc.Waiting? && s.mine && s.clean && !s.flag && s.due > 0
    ensures TimersWake(s)
  {
    StepKeeps(s, Lock);
    HeldWakes(Next(s, Lock));
    TimersWakeStep(s, Lock);
  }

  /** A registered waiter with a timeout can be woken by timers alone exactly if its slot was clean and the
      mark is not set or some callback is between finding it unset and cancelling. */
  lemma TimeoutWorksIff(s: Call)
    requires Sound(s) && TimersOk(s) && s.pc.Waiting? && s.mine && s.timeout
    ensures TimersWake(s) <==> s.clean && (!s.flag || InFlight(s))
  {
    if !s.clean {
      forall es | RunOk(s, es) && OnlyTimers(es) ensures Run(s, es).wakes == 0
      {
        RunKeeps(s, es);
        assert NoResume(es);
        HeldStays(s, es);
      }
    } else if s.marked > 0 {
      MarkedWakes(s);
    } else if s.tested > 0 {
      TestedWakes(s);
    } else if s.flag {
      forall es | RunOk(s, es) && OnlyTimers(es) ensures Run(s, es).wakes == 0
      {
        SpentTimersDoNothing(s, es);
      }
    } else if s.held > 0 {
      HeldWakes(s);
    } else if s.due > 0 {
      DueWakes(s);
    } else {
      StepKeeps(s, Expire);
      DueWakes(Next(s, Expire));
      TimersWakeStep(s, Expire);
    }
  }

  // ----- callbacks that outlive the call -----

  /** The timers of the call leave the manager alone from here on. */
  ghost predicate TimersQuiet(s: Call) { forall es :: RunOk(s, es) && OnlyTimers(es) ==> Run(s, es).io == s.io }

  lemma Disturbs(s: Call, e: Step)
    requires Enabled(s, e) && OfTimer(e) && Next(s, e).io == s.io && !TimersQuiet(Next(s, e))
    ensures !TimersQuiet(s)
  {
    var u := Next(s, e);
    var es :| RunOk(u, es) && OnlyTimers(es) && Run(u, es).io != u.io;
    assert OfKind(es, Timers) && OfKind([e], Timers);
    LeadsStep(s, e, Run(u, es), Timers);
    var all :| RunOk(s, all) && Run(s, all) == Run(u, es) && OfKind(all, Timers);
  }

  lemma MarkedDisturbs(s: Call)
    requires Inv(s.io) && s.marked > 0 && Armed(s.io, s.slot)
    ensures !TimersQuiet(s)
  {
    var t := Next(s, Cancel(true));
    SlotAfter(s.io, CancelEvent(s.slot.fd, s.slot.ev, true), s.slot);
    assert [Cancel(true)][1..] == [];
    assert RunOk(t, []) && RunOk(s, [Cancel(true)]) && Run(s, [Cancel(true)]) == t && OnlyTimers([Cancel(true)]);
  }

  lemma InFlightDisturbs(s: Call)
    requires Inv(s.io) && InFlight(s) && Armed(s.io, s.slot)
    ensures !TimersQuiet(s)
  {
    if s.marked > 0 {
      MarkedDisturbs(s);
    } else if s.tested > 0 {
      MarkedDisturbs(Next(s, Mark));
      Disturbs(s, Mark);
    } else {
      var t := Next(s, Look);
      MarkedDisturbs(Next(t, Mark));
      Disturbs(t, Mark);
      Disturbs(s, Look);
    }
  }

  lemma CancelNothing(io: Io, x: Slot, ok: bool)
    requires Inv(io) && !Armed(io, x)
    ensures FdEvents.Cancel(io, x.fd, x.ev, ok) == (io, [])
  {
  }

  lemma FreeSlotStep(s: Call, e: Step)
    requires !Armed(s.io, s.slot) && Enabled(s, e) && OfTimer(e)
    ensures Next(s, e).io == s.io && Next(s, e).slot == s.slot
  {
    if e.Cancel? { CancelNothing(s.io, s.slot, e.ok); }
  }

  lemma {:induction false} FreeSlotStays(s: Call, es: seq<Step>)
    requires !Armed(s.io, s.slot) && RunOk(s, es) && OnlyTimers(es)
    ensures Run(s, es).io == s.io
    decreases |es|
  {
    if es != [] {
      Unfold(es);
      FreeSlotStep(s, es[0]);
      FreeSlotStays(Next(s, es[0]), es[1..]);
    }
  }

  /** After the call returned its timers are without effect exactly if no callback has found the mark unset, or holds
      it unset, and has still to cancel, or nobody has registered on the slot: a late cancellation hits whoever has. */
  lemma LateTimersQuietIff(s: Call)
    requires Sound(s) && TimersOk(s) && s.pc.Finished?
    ensures TimersQuiet(s) <==> !InFlight(s) || !Armed(s.io, s.slot)
  {
    if !Armed(s.io, s.slot) {
      forall es | RunOk(s, es) && OnlyTimers(es) ensures Run(s, es).io == s.io { FreeSlotStays(s, es); }
    } else if InFlight(s) {
      InFlightDisturbs(s);
    } else {
      forall es | RunOk(s, es) && OnlyTimers(es) ensures Run(s, es).io == s.io { SpentTimersDoNothing(s, es); }
    }
  }

  // ----- timers of an earlier attempt -----

  /** The call can time out though no timer expires from here on. */
  ghost predicate TimesOutEarly(s: Call) {
    exists es :: RunOk(s, es) && NoExpiry(es) && Run(s, es).pc == Finished(TimedOut)
  }

  lemma MarkStep(s: Call, e: Step)
    requires !s.flag && s.due == s.held == s.tested == 0 && Enabled(s, e) && !e.Expire?
    ensures var t := Next(s, e); !t.flag && t.due == t.held == t.tested == 0
  {
    Shape(s, e);
  }

  /** With no callback about, the mark needs the expiry of a timer. */
  lemma {:induction false} MarkNeedsExpiry(s: Call, es: seq<Step>)
    requires !s.flag && s.due == s.held == s.tested == 0 && RunOk(s, es) && NoExpiry(es)
    ensures !Run(s, es).flag
    decreases |es|
  {
    if es != [] {
      Unfold(es);
      MarkStep(s, es[0]);
      MarkNeedsExpiry(Next(s, es[0]), es[1..]);
    }
  }

  /** A callback marks while the call waits, cancels, and the call ends by it. */
  lemma CallbackEndsWait(s: Call) returns (t: Call)
    requires Sound(s) && TimersOk(s) && s.pc.Waiting? && s.mine && s.clean && s.marked > 0
    ensures t.pc == Finished(TimedOut) && Leads(s, t, Unexpired)
  {
    var a := Next(s, Cancel(true));
    StepKeeps(s, Cancel(true));
    SlotAfter(s.io, CancelEvent(s.slot.fd, s.slot.ev, true), s.slot);
    var b := Next(a, Resume);
    t := Next(b, Check);
    LeadsSelf(t, Unexpired);
    LeadsStep(b, Check, t, Unexpired);
    LeadsStep(a, Resume, t, Unexpired);
    LeadsStep(s, Cancel(true), t, Unexpired);
  }

  /** An attempt starts its timer, registers and waits. */
  lemma WaitsAgain(s: Call, k: Kind) returns (t: Call)
    requires k.Any? || k.Unexpired?
    requires Sound(s) && TimersOk(s) && s.pc.Trying? && s.slot.fd < |s.io.ctxs| && ContextAt(s.io, s.slot).cb.None?
    ensures Sound(t) && TimersOk(t) && t.pc.Waiting? && t.mine && t.clean && t.slot == s.slot && t.timeout == s.timeout
    ensures t.due == s.due && t.held == s.held && t.tested == s.tested && t.marked == s.marked && t.flag == s.flag
    ensures t.pending == s.timeout
    ensures t.f == s.f && forall u: Call :: Leads(t, u, k) ==> Leads(s, u, k)
  {
    var a := Next(s, TryAgain);
    StepKeeps(s, TryAgain);
    var b := Next(a, StartTimer);
    StepKeeps(a, StartTimer);
    var c := Next(b, Register(true));
    StepKeeps(b, Register(true));
    t := Next(c, SwapOut);
    StepKeeps(c, SwapOut);
    forall u: Call | Leads(t, u, k) ensures Leads(s, u, k)
    {
      LeadsStep(c, SwapOut, u, k);
      LeadsStep(b, Register(true), u, k);
      LeadsStep(a, StartTimer, u, k);
      LeadsStep(s, TryAgain, u, k);
    }
  }

  /** A waiting call whose callback has found the mark unset, or will, can end by it. */
  lemma CallbackEndsCall(s: Call)
    requires Sound(s) && TimersOk(s) && s.pc.Waiting? && s.mine && s.clean && !s.flag
    requires s.due > 0 || s.held > 0 || s.tested > 0
    ensures exists t: Call :: t.pc == Finished(TimedOut) && Leads(s, t, Unexpired)
    decreases if s.tested > 0 then 0 else if s.held > 0 then 1 else 2
  {
    var e := if s.tested > 0 then Mark else if s.held > 0 then Look else Lock;
    StepKeeps(s, e);
    var u := Next(s, e);
    if s.tested > 0 {
      var t := CallbackEndsWait(u);
      LeadsStep(s, e, t, Unexpired);
    } else {
      CallbackEndsCall(u);
      var t: Call :| t.pc == Finished(TimedOut) && Leads(u, t, Unexpired);
      LeadsStep(s, e, t, Unexpired);
    }
  }

  /** A call that tries again on a clean slot can time out without any further expiry exactly if a callback of an
      earlier attempt has not asked for the mark, not looked at it, or found it unset. */
  lemma StaleTimerEndsRetry(s: Call)
    requires Sound(s) && TimersOk(s) && s.pc.Trying? && s.timeout && !s.flag
    requires s.slot.fd < |s.io.ctxs| && ContextAt(s.io, s.slot).cb.None?
    ensures TimesOutEarly(s) <==> s.due > 0 || s.held > 0 || s.tested > 0
  {
    if s.due == s.held == s.tested == 0 {
      forall es | RunOk(s, es) && NoExpiry(es) ensures Run(s, es).pc != Finished(TimedOut)
      {
        MarkNeedsExpiry(s, es);
        RunKeeps(s, es);
      }
    } else {
      var t := WaitsAgain(s, Unexpired);
      CallbackEndsCall(t);
      var end: Call :| end.pc == Finished(TimedOut) && Leads(t, end, Unexpired);
      assert Leads(s, end, Unexpired);
      var es :| RunOk(s, es) && Run(s, es) == end && OfKind(es, Unexpired);
    }
  }

  // ----- reachable states in which it goes wrong -----

  /** A call with a timeout that begins on a free slot without a callback. */
  ghost predicate BeginsClean(s: Call) {
    Begins(s) && s.timeout && SlotFree(s.io, s.slot) && ContextAt(s.io, s.slot).cb.None?
  }

  lemma StartBeginsClean(n: nat)
    requires n >= 32
    ensures BeginsClean(Call(Start(n), Slot(0, READ), 1, true, Trying, 0, false, 0, 0, 0, 0, false, false, true, true))
  {
    StartOk(n);
    SetBitsZero(Start(n).ctxs);
  }

  lemma Chain(s: Call, e: Step, t: Call)
    requires Enabled(s, e) && Leads(Next(s, e), t, Any)
    ensures Leads(s, t, Any)
  {
    LeadsStep(s, e, t, Any);
  }

  /** A timer that expires, marks and cancels between being started and the registration: the call waits, and no
      timer will end the wait. */
  lemma TimeoutCanBeLost(s0: Call) returns (s: Call)
    requires BeginsClean(s0)
    ensures Leads(s0, s, Any) && Sound(s) && TimersOk(s) && s.pc.Waiting? && s.mine && s.timeout && !TimersWake(s)
  {
    var a := Next(s0, TryAgain);
    StepKeeps(s0, TryAgain);
    var b := Next(a, StartTimer);
    StepKeeps(a, StartTimer);
    var c := Spent(b);
    var d := Next(c, Register(true));
    StepKeeps(c, Register(true));
    s := Next(d, SwapOut);
    StepKeeps(d, SwapOut);
    TimeoutWorksIff(s);
    LeadsSelf(s, Any);
    Chain(d, SwapOut, s);
    Chain(c, Register(true), s);
    assert Leads(b, s, Any);
    Chain(a, StartTimer, s);
    Chain(s0, TryAgain, s);
  }

  /** The timer expires, and its callback sets the mark. */
  lemma Marked(s: Call) returns (t: Call)
    requires Sound(s) && TimersOk(s) && s.pending && !s.flag && s.due == s.held == s.tested == s.marked == 0
    ensures t == s.(pending := false, marked := 1, flag := true) && Sound(t) && TimersOk(t)
    ensures forall u: Call :: Leads(t, u, Any) ==> Leads(s, u, Any)
  {
    var a := LockedBy(s);
    var b := Next(a, Look);
    StepKeeps(a, Look);
    t := Next(b, Mark);
    StepKeeps(b, Mark);
    forall u: Call | Leads(t, u, Any) ensures Leads(s, u, Any)
    {
      Chain(b, Mark, u);
      Chain(a, Look, u);
      assert Leads(s, u, Any);
    }
  }

  /** The timer expires, and its callback gets hold of the mark. */
  lemma LockedBy(s: Call) returns (t: Call)
    requires Sound(s) && TimersOk(s) && s.pending && !s.flag && s.due == s.held == s.tested == s.marked == 0
    ensures t == s.(pending := false, held := 1) && Sound(t) && TimersOk(t)
    ensures forall u: Call :: Leads(t, u, Any) ==> Leads(s, u, Any)
  {
    var a := Next(s, Expire);
    StepKeeps(s, Expire);
    t := Next(a, Lock);
    StepKeeps(a, Lock);
    forall u: Call | Leads(t, u, Any) ensures Leads(s, u, Any)
    {
      Chain(a, Lock, u);
      Chain(s, Expire, u);
    }
  }

  lemma Spent(s: Call) returns (t: Call)
    requires Sound(s) && TimersOk(s) && s.pc.Registering? && s.pending && !s.flag
    requires s.due == s.held == s.tested == s.marked == 0 && SlotFree(s.io, s.slot)
    ensures t == s.(pending := false, flag := true) && Sound(t) && TimersOk(t)
    ensures forall u: Call :: Leads(t, u, Any) ==> Leads(s, u, Any)
  {
    var a := Marked(s);
    t := Next(a, Cancel(true));
    StepKeeps(a, Cancel(true));
    assert t == s.(pending := false, flag := true);
    forall u: Call | Leads(t, u, Any) ensures Leads(s, u, Any)
    {
      Chain(a, Cancel(true), u);
      assert Leads(s, u, Any);
    }
  }

  /** Another party ends the wait, and the call looks at the mark. */
  lemma Woken(s: Call) returns (t: Call)
    requires Sound(s) && TimersOk(s) && s.pc.Waiting? && s.mine && s.clean
    ensures Sound(t) && TimersOk(t) && SlotFree(t.io, t.slot) && ContextAt(t.io, t.slot).cb.None?
    ensures t.pc == (if s.flag then Finished(TimedOut) else Trying) && t.slot == s.slot && t.f == s.f && t.timeout == s.timeout
    ensures t.due == s.due && t.held == s.held && t.tested == s.tested && t.marked == s.marked && t.flag == s.flag
    ensures t.pending == false
    ensures forall u: Call :: Leads(t, u, Any) ==> Leads(s, u, Any)
  {
    var e := Other(CancelEvent(s.slot.fd, s.slot.ev, true));
    var a := Next(s, e);
    StepKeeps(s, e);
    SlotAfter(s.io, e.op, s.slot);
    assert ContextAt(a.io, a.slot).cb == ContextAt(s.io, s.slot).cb;
    var b := Next(a, Resume);
    StepKeeps(a, Resume);
    t := Next(b, Check);
    StepKeeps(b, Check);
    forall u: Call | Leads(t, u, Any) ensures Leads(s, u, Any)
    {
      Chain(b, Check, u);
      Chain(a, Resume, u);
      Chain(s, e, u);
    }
  }

  /** Another fiber registers on the slot of a call that returned. */
  lemma AnotherRegisters(s: Call) returns (t: Call)
    requires Sound(s) && TimersOk(s) && s.pc.Finished? && SlotFree(s.io, s.slot) && ContextAt(s.io, s.slot).cb.None?
    ensures Sound(t) && TimersOk(t) && t.pc == s.pc && t.slot == s.slot && t.f == s.f
    ensures t.due == s.due && t.held == s.held && t.tested == s.tested && t.marked == s.marked && t.flag == s.flag
    ensures Resumes(t.io, t.slot, t.f + 1)
    ensures forall u: Call :: Leads(t, u, Any) ==> Leads(s, u, Any)
  {
    var e := Other(AddEvent(s.slot.fd, s.slot.ev, CurrentFiber(s.f + 1), true));
    t := Next(s, e);
    StepKeeps(s, e);
    SlotAfter(s.io, e.op, s.slot);
    forall u: Call | Leads(t, u, Any) ensures Leads(s, u, Any) { Chain(s, e, u); }
  }

  lemma CancelHits(s: Call)
    requires Sound(s) && s.marked > 0 && Armed(s.io, s.slot)
    ensures !Armed(Next(s, Cancel(true)).io, s.slot)
  {
    SlotAfter(s.io, CancelEvent(s.slot.fd, s.slot.ev, true), s.slot);
  }

  /** A callback marks, a report wakes the waiter, the call returns, another fiber registers on the slot: then the
      callback cancels that registration. */
  lemma LateCancelHitsAnother(s0: Call) returns (s: Call)
    requires BeginsClean(s0)
    ensures Leads(s0, s, Any) && s.pc == Finished(TimedOut) && s.marked > 0 && Sound(s) && TimersOk(s)
    ensures Resumes(s.io, s.slot, s.f + 1) && !Armed(Next(s, Cancel(true)).io, s.slot)
  {
    var a := WaitsAgain(s0, Any);
    var b := Marked(a);
    var c := Woken(b);
    s := AnotherRegisters(c);
    CancelHits(s);
    LeadsSelf(s, Any);
  }

  /** A callback gets hold of the mark, a report wakes the waiter, the call reads its data and returns, and another
      fiber registers on the slot: then the callback looks, marks and cancels that registration. The call succeeded. */
  lemma LateLookHitsAnother(s0: Call) returns (s: Call, t: Call)
    requires BeginsClean(s0)
    ensures Leads(s0, s, Any) && s.pc == Finished(Value(5)) && s.held == 1 && s.due == s.tested == s.marked == 0 && !s.flag
    ensures Sound(s) && TimersOk(s) && Resumes(s.io, s.slot, s.f + 1)
    ensures Enabled(s, Look) && Enabled(Next(s, Look), Mark) && t == Next(Next(s, Look), Mark)
    ensures Enabled(t, Cancel(true)) && !Armed(Next(t, Cancel(true)).io, s.slot) && !TimersQuiet(s)
  {
    var a := WaitsAgain(s0, Any);
    var b := LockedBy(a);
    var c := Woken(b);
    var d := Next(c, Try(5));
    StepKeeps(c, Try(5));
    s := AnotherRegisters(d);
    LateTimersQuietIff(s);
    StepKeeps(s, Look);
    StepKeeps(Next(s, Look), Mark);
    t := Next(Next(s, Look), Mark);
    CancelHits(t);
    LeadsSelf(s, Any);
    Chain(c, Try(5), s);
    assert Leads(b, s, Any);
  }

  /** An expired timer whose callback has not run when a report ends the first wait: the retry can time out by
      it at once. */
  lemma StaleTimerIsReachable(s0: Call) returns (s: Call)
    requires BeginsClean(s0)
    ensures Leads(s0, s, Any) && s.pc.Trying? && s.timeout && !s.flag && !s.pending && s.due > 0 && TimesOutEarly(s)
  {
    var w := WaitsAgain(s0, Any);
    var a := Next(w, Expire);
    StepKeeps(w, Expire);
    s := Woken(a);
    StaleTimerEndsRetry(s);
    LeadsSelf(s, Any);
    assert Leads(a, s, Any);
    Chain(w, Expire, s);
    assert Leads(s0, s, Any);
  }

  // ----- what the caller gets -----

  lemma AfterKeepsCall(s: Call, r: (Io, seq<Work>), spoils: bool)
    ensures Spoiled(After(s, r), spoils).pc == s.pc && Spoiled(After(s, r), spoils).flag == s.flag
    ensures After(s, r).pc == s.pc && After(s, r).flag == s.flag
  {
  }

  lemma CancelKeepsCall(s: Call, ok: bool)
    requires Enabled(s, Cancel(ok))
    ensures Next(s, Cancel(ok)).pc == s.pc && Next(s, Cancel(ok)).flag == s.flag
  {
    AfterKeepsCall(s, FdEvents.Cancel(s.io, s.slot.fd, s.slot.ev, ok), false);
  }

  lemma OtherKeepsCall(s: Call, op: Op)
    requires Enabled(s, Other(op))
    ensures Next(s, Other(op)).pc == s.pc && Next(s, Other(op)).flag == s.flag
  {
    AfterKeepsCall(s, Apply(s.io, op), Spoils(s, op));
  }

  lemma RegisterReturns(s: Call, ok: bool)
    requires Enabled(s, Register(ok))
    ensures Next(s, Register(ok)).pc == (if ok then Leaving else Finished(NotRegistered)) && Next(s, Register(ok)).flag == s.flag
  {
  }

  lemma TimerStepKeepsCall(s: Call, e: Step)
    requires Enabled(s, e) && (e.Expire? || e.Lock? || e.Look? || e.Mark?)
    ensures Next(s, e).pc == s.pc && Next(s, e).flag == (s.flag || e.Mark?)
  {
  }

  lemma OwnStepReturns(s: Call, e: Step)
    requires Enabled(s, e) && (e.Try? || e.TryAgain? || e.StartTimer? || e.SwapOut? || e.Resume? || e.Check?)
    ensures Next(s, e).flag == s.flag && !s.pc.Finished?
    ensures Next(s, e).pc == match e
                             case Try(r) => Finished(Value(r))
                             case TryAgain => Blocked
                             case StartTimer => Registering
                             case SwapOut => Waiting
                             case Resume => Resumed
                             case _ => if s.flag then Finished(TimedOut) else Trying
  {
  }

  /** One step returns what the system call answered, that the event could not be registered, or, with the mark set,
      that the time is over; and a call that has returned stays so. */
  lemma StepReturns(s: Call, e: Step)
    requires Enabled(s, e)
    ensures Next(s, e).flag <==> s.flag || e == Mark
    ensures Next(s, e).pc.Finished? <==> s.pc.Finished? || e.Try? || e == Register(false) || (e == Check && s.flag)
    ensures s.pc.Finished? ==> Next(s, e).pc == s.pc
    ensures e.Try? ==> Next(s, e).pc == Finished(Value(e.r))
    ensures e == Register(false) ==> Next(s, e).pc == Finished(NotRegistered)
    ensures e == Check && s.flag ==> Next(s, e).pc == Finished(TimedOut)
  {
    match e
    case Register(ok) => RegisterReturns(s, ok);
    case Cancel(ok) => CancelKeepsCall(s, ok);
    case Other(op) => OtherKeepsCall(s, op);
    case Expire => TimerStepKeepsCall(s, e);
    case Lock => TimerStepKeepsCall(s, e);
    case Look => TimerStepKeepsCall(s, e);
    case Mark => TimerStepKeepsCall(s, e);
    case _ => OwnStepReturns(s, e);
  }

  lemma {:induction false} ReturnedStays(s: Call, es: seq<Step>)
    requires RunOk(s, es) && s.pc.Finished?
    ensures Run(s, es).pc == s.pc
    decreases |es|
  {
    if es != [] {
      StepReturns(s, es[0]);
      ReturnedStays(Next(s, es[0]), es[1..]);
    }
  }

  /** Over every run a call returns a value only if the system call answered it, the registration's failure only if it
      failed, and a timeout only if a timer callback set the mark. */
  lemma {:induction false} ResultMeaning(s: Call, es: seq<Step>)
    requires RunOk(s, es) && !s.pc.Finished?
    ensures Run(s, es).pc.Finished? ==>
              match Run(s, es).pc.result
              case Value(r) => Try(r) in es
              case NotRegistered => Register(false) in es
              case TimedOut => (s.flag || Mark in es) && Check in es
    decreases |es|
  {
    if es != [] {
      var t := Next(s, es[0]);
      StepReturns(s, es[0]);
      assert es == [es[0]] + es[1..];
      if t.pc.Finished? {
        ReturnedStays(t, es[1..]);
      } else {
        ResultMeaning(t, es[1..]);
      }
    }
  }
}
