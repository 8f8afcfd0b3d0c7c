/** What `stopping()` reads, one value after the other, and when its yes can be relied on. */
module Stopping {
  import opened Bytes
  import opened FdEvents
  import opened Scheduling
  import opened FiberProtocol
  import opened FiberSafety
  import opened FiberAccounting
  import opened FiberPaths
  import opened Submissions

  // ----- the three readings -----

  /** `m_next - now_ms` on words. */
  function Remaining(next: nat, now: nat): int { if now <= next then next - now else WORD + next - now }

  /** What `getNextTimer` returns if there is no timer. */
  const NO_TIMER: int := WORD - 1

  ghost predicate FirstTimer(s: Sys, t: nat) { t in s.timers && forall u :: u in s.timers ==> s.timers[t].next <= s.timers[u].next }

  /** The first timer was due one millisecond ago: what remains of it reads as no timer. */
  ghost predicate JustExpired(s: Sys) { exists t :: FirstTimer(s, t) && Remaining(s.timers[t].next, s.clock) == NO_TIMER }

  /** Under the timers' lock. */
  ghost predicate ReadsNoTimer(s: Sys) { s.timers == map[] || JustExpired(s) }

  /** No timer is read if none is set, or if the one due first was due a millisecond ago, wrapped around or not. */
  lemma ReadingMeaning(s: Sys)
    ensures ReadsNoTimer(s) <==>
            || s.timers == map[]
            || exists t :: t in s.timers && (forall u :: u in s.timers ==> s.timers[u].next >= s.timers[t].next)
                           && s.timers[t].next in {s.clock - 1, s.clock - 1 + 0x1_0000_0000_0000_0000}
  {
    if t :| t in s.timers && (forall u :: u in s.timers ==> s.timers[u].next >= s.timers[t].next)
            && s.timers[t].next in {s.clock - 1, s.clock - 1 + 0x1_0000_0000_0000_0000} {
      assert FirstTimer(s, t);
    }
  }

  /** Under the scheduler's lock: stop was asked for, no worker busy, nothing on the list. */
  predicate ReadsIdle(s: Sys) { s.stopRequested && s.active == 0 && s.queue == [] }

  /** The three readings at three moments; the second is of the counter of registered events. */
  ghost predicate SaysYes(first: Sys, second: Sys, third: Sys) {
    ReadsNoTimer(first) && second.io.pending == 0 && ReadsIdle(third)
  }

  /** What they are meant to tell. */
  ghost predicate StoppingNow(s: Sys) { s.timers == map[] && s.io.pending == 0 && ReadsIdle(s) }

  predicate NoBatch(s: Sys) { forall w :: 0 <= w < |s.workers| ==> Batch(s.workers[w].pc) == [] }

  /** No event counted means no event registered. */
  lemma NothingRegistered(s: Sys)
    requires AccountInv(s) && s.io.pending == 0
    ensures forall x: Slot :: !Armed(s.io, x)
  {
    SetBitsZero(s.io.ctxs);
  }

  /** At the third reading all work ever submitted is done and no worker is inside a fiber or between the list and
      one; at the second no event was registered. */
  lemma YesMeansDone(first: Sys, second: Sys, third: Sys)
    requires AccountInv(second) && AccountInv(third) && SaysYes(first, second, third)
    ensures third.done == third.pushed
    ensures forall w :: 0 <= w < |third.workers| ==> HeldWork(third.workers[w].pc) == None
    ensures forall x: Slot :: !Armed(second.io, x)
  {
    NothingRegistered(second);
    assert Works(third.queue) == [];
    NobodyBusy(third.workers, CbWork(0));
    forall x: Work ensures third.pushed[x] == third.done[x] { NobodyBusy(third.workers, x); }
  }

  // ----- a manager at rest -----

  /** Nothing is left that could bring work from inside. */
  ghost predicate AtRest(s: Sys) {
    && s.queue == [] && s.timers == map[] && s.io.pending == 0
    && NoBatch(s) && forall w :: 0 <= w < |s.workers| ==> !Coding(s, w)
  }

  lemma NothingFires(io: Io, op: Op)
    requires FdEvents.Inv(io) && !op.Enlarge? && Safe(io, op) && (op.AddEvent? ==> !op.ok) && forall x: Slot :: !Armed(io, x)
    ensures Apply(io, op) == (io, [])
  {
    if Triggers(op) {
      ApplyFires(io, op);
      if Fired(io, op) != {} {
        var ev :| ev in Fired(io, op);
        assert Armed(io, Slot(op.fd, ev));
      }
    } else if op.DelEvent? {
      assert !Armed(io, Slot(op.fd, op.ev));
    }
  }

  lemma NothingExpired(timers: map<nat, Timer>, at: nat, rollover: bool, ts: seq<nat>)
    requires timers == map[] && ts != []
    ensures !Expired(timers, at, rollover, ts)
  {
    var t := ts[0];
    assert t !in timers;
  }

  /** What a worker of a manager at rest can still do. */
  lemma RestActs(s: Sys, w: nat, act: Act)
    requires ProtocolInv(s) && AccountInv(s) && AtRest(s) && w < |s.workers| && CanAct(s, w, act)
    ensures act.CountDown? || act.Settle? || act.Flush? || act.Deliver? || act.DropDead?
    ensures act.Deliver? ==> Apply(s.io, act.op) == (s.io, [])
  {
    assert !Coding(s, w);
    NothingRegistered(s);
    if act.Deliver? { NothingFires(s.io, act.op); }
    if act.Collect? { NothingExpired(s.timers, act.at, act.rollover, act.ts); }
  }

  /** A worker that moves on without anything to do. */
  lemma RestMoves(s: Sys, t: Sys, w: nat, pc: Pc)
    requires AtRest(s) && w < |s.workers| && t.workers == s.workers[w := s.workers[w].(pc := pc)] && t.fibers == s.fibers
    requires (pc.Scanning? || pc.Settling?) && t.queue == [] && t.timers == map[] && t.io.pending == 0
    ensures AtRest(t)
  {
    forall v | 0 <= v < |t.workers| ensures !Coding(t, v) && Batch(t.workers[v].pc) == []
    {
      if v != w { assert !Coding(s, v); }
    }
  }

  lemma RestAct(s: Sys, w: nat, act: Act)
    requires ProtocolInv(s) && AccountInv(s) && AtRest(s) && w < |s.workers| && CanAct(s, w, act)
    ensures var t := Do(s, w, act);
            AtRest(t) && t.stopRequested == s.stopRequested && (act.CountDown? || act.DropDead? || t.active == s.active)
  {
    RestActs(s, w, act);
    assert !Coding(s, w) && Batch(s.workers[w].pc) == [];
    var t := Do(s, w, act);
    if act.Settle? {
      RestSettles(s, w);
    } else if act.Deliver? {
      assert Unpinned([]) == [];
      SameRest(s, t);
    } else {
      assert Unpinned([]) == [];
      RestMoves(s, t, w, t.workers[w].pc);
    }
  }

  /** Setting a fiber aside revives none that another worker holds. */
  lemma RestSettles(s: Sys, w: nat)
    requires ProtocolInv(s) && AtRest(s) && w < |s.workers| && CanAct(s, w, Settle)
    ensures var t := Do(s, w, Settle); AtRest(t) && t.stopRequested == s.stopRequested && t.active == s.active
  {
    var f, t := s.workers[w].pc.f, Do(s, w, Settle);
    assert WorkerOk(s, s.workers[w]);
    SetAsideShape(s, w, f);
    OwnerAlone(s, w, f);
    forall v | 0 <= v < |t.workers| ensures !Coding(t, v) && Batch(t.workers[v].pc) == []
    {
      if v != w { assert !Coding(s, v) && s.workers[v].pc != Holding(FiberWork(f)); }
    }
  }

  /** A manager stays at rest until somebody outside brings work. */
  lemma RestKeeps(s: Sys, e: Step)
    requires ProtocolInv(s) && AccountInv(s) && AtRest(s) && Enabled(s, e) && !BringsWork(e)
    ensures AtRest(Next(s, e))
    ensures s.stopRequested ==> Next(s, e).stopRequested
    ensures s.active == 0 ==> Next(s, e).active == 0
  {
    match e
    case By(w, act) =>
      RestAct(s, w, act);
      if s.active == 0 { NobodyBusy(s.workers, CbWork(0)); }
    case External(call) => RestCalled(s, call);
    case Stop => SameRest(s, Next(s, e));
    case Clock(_) => SameRest(s, Next(s, e));
  }

  lemma SameRest(s: Sys, t: Sys)
    requires AtRest(s) && t.workers == s.workers && t.fibers == s.fibers
    requires t.queue == [] && t.timers == map[] && t.io.pending == 0
    ensures AtRest(t)
  {
    forall w | 0 <= w < |t.workers| ensures !Coding(t, w) { assert !Coding(s, w); }
  }

  lemma RestCalled(s: Sys, call: Call)
    requires ProtocolInv(s) && AccountInv(s) && AtRest(s) && CanCall(s, call) && !BringsWork(External(call))
    ensures AtRest(Called(s, call)) && Called(s, call).active == s.active && Called(s, call).stopRequested == s.stopRequested
  {
    var t := Called(s, call);
    if call.CallingIo? {
      NothingRegistered(s);
      if call.op.Enlarge? {
        GrowKeeps(s.io, call.op.fd);
      } else {
        NothingFires(s.io, call.op);
      }
      assert Unpinned([]) == [];
    }
    SameRest(s, t);
  }

  lemma {:induction false} RestStays(s: Sys, es: seq<Step>)
    requires ProtocolInv(s) && AccountInv(s) && AtRest(s) && RunOk(s, es) && NoWork(es)
    ensures ProtocolInv(RunFrom(s, es)) && AccountInv(RunFrom(s, es)) && AtRest(RunFrom(s, es))
    ensures s.stopRequested ==> RunFrom(s, es).stopRequested
    ensures s.active == 0 ==> RunFrom(s, es).active == 0
    decreases |es|
  {
    if es != [] {
      Unfold(es);
      StepKeeps(s, es[0]);
      StepAccount(s, es[0]);
      RestKeeps(s, es[0]);
      RestStays(Next(s, es[0]), es[1..]);
    }
  }

  // ----- when a yes is final -----

  /** No work comes any more, unless from outside. */
  ghost predicate Final(s: Sys)
    requires ProtocolInv(s)
  {
    forall es :: RunOk(s, es) && NoWork(es) ==> RunFrom(s, es).queue == [] && RunFrom(s, es).active == 0
  }

  lemma StoppedRests(s: Sys)
    requires AccountInv(s) && StoppingNow(s) && NoBatch(s)
    ensures AtRest(s)
  {
    NobodyBusy(s.workers, CbWork(0));
    forall w | 0 <= w < |s.workers| ensures !Coding(s, w) { assert HeldWork(s.workers[w].pc) == None; }
  }

  lemma StoppedIsFinal(s: Sys)
    requires ProtocolInv(s) && AccountInv(s) && StoppingNow(s) && NoBatch(s)
    ensures Final(s)
    ensures forall es :: RunOk(s, es) && NoWork(es) ==> StoppingNow(RunFrom(s, es))
  {
    StoppedRests(s);
    forall es | RunOk(s, es) && NoWork(es)
      ensures StoppingNow(RunFrom(s, es)) && RunFrom(s, es).queue == [] && RunFrom(s, es).active == 0
    {
      RestStays(s, es);
    }
  }

  /** Some run without work from outside puts something on the list. */
  lemma NotFinal(s: Sys, t: Sys)
    requires ProtocolInv(s) && Reaches(s, t, true) && t.queue != []
    ensures !Final(s)
  {
    var es :| RunOk(s, es) && NoWork(es) && RunFrom(s, es) == t;
  }

  lemma FlushQueues(s: Sys, w: nat) returns (t: Sys)
    requires ProtocolInv(s) && w < |s.workers| && Batch(s.workers[w].pc) != []
    ensures ProtocolInv(t) && Reaches(s, t, true) && t.queue != []
  {
    t := OneReaches(s, By(w, Flush));
    assert |t.queue| == |s.queue| + |s.workers[w].pc.batch|;
  }

  lemma {:induction false} EarliestOf(timers: map<nat, Timer>, left: set<nat>) returns (m: nat)
    requires left <= timers.Keys && left != {}
    ensures m in left && forall t :: t in left ==> timers[m].next <= timers[t].next
    decreases |left|
  {
    var k :| k in left;
    m := k;
    if left - {k} != {} {
      var o := EarliestOf(timers, left - {k});
      if timers[o].next < timers[k].next { m := o; }
    }
    assert forall t :: t in left ==> t == k || t in left - {k};
  }

  /** Timers in the order in which they are due. */
  lemma {:induction false} InOrder(timers: map<nat, Timer>, left: set<nat>) returns (ts: seq<nat>)
    requires left <= timers.Keys
    ensures forall t :: t in left <==> t in ts
    ensures forall i, j :: 0 <= i < j < |ts| ==> ts[i] in timers && ts[j] in timers && ts[i] != ts[j] && timers[ts[i]].next <= timers[ts[j]].next
    decreases |left|
  {
    if left == {} {
      ts := [];
    } else {
      var m := EarliestOf(timers, left);
      var rest := InOrder(timers, left - {m});
      ts := [m] + rest;
      assert forall i :: 0 <= i < |rest| ==> rest[i] in rest && rest[i] in left - {m};
    }
  }

  /** A scanning worker takes the timers that are due at `at`. */
  lemma CollectDue(s: Sys, w: nat, t: nat, at: nat) returns (u: Sys)
    requires ProtocolInv(s) && w < |s.workers| && s.workers[w].pc.Scanning? && t in s.timers && s.timers[t].next <= at
    ensures ProtocolInv(u) && Reaches(s, u, true) && |u.workers| == |s.workers| && Batch(u.workers[w].pc) != []
  {
    var left := set x | x in s.timers && s.timers[x].next <= at;
    var ts := InOrder(s.timers, left);
    assert t in ts;
    u := OneReaches(s, By(w, Act.Collect(at, false, ts)));
  }

  /** A yes read in one state is final, as far as those inside go, exactly if no worker stands between taking
      expired timers and queueing their callbacks and the first timer is not one that was due a millisecond ago. */
  lemma FinalIff(s: Sys, w: nat)
    requires ProtocolInv(s) && AccountInv(s) && SaysYes(s, s, s)
    requires w < |s.workers| && s.workers[w].pc.Scanning?
    ensures Final(s) <==> NoBatch(s) && !JustExpired(s)
  {
    if !NoBatch(s) {
      var v :| 0 <= v < |s.workers| && Batch(s.workers[v].pc) != [];
      var t := FlushQueues(s, v);
      NotFinal(s, t);
    } else if JustExpired(s) {
      var x :| FirstTimer(s, x) && Remaining(s.timers[x].next, s.clock) == NO_TIMER;
      var u := CollectDue(s, w, x, if s.timers[x].next <= s.clock then s.clock else s.timers[x].next);
      var t := FlushQueues(u, w);
      ReachesTrans(s, u, t, true);
      NotFinal(s, t);
    } else {
      StoppedIsFinal(s);
    }
  }

  /** What a worker of a stopping manager can do. */
  lemma StoppingAct(s: Sys, w: nat, act: Act)
    requires ProtocolInv(s) && AccountInv(s) && StoppingNow(s) && w < |s.workers| && CanAct(s, w, act)
    ensures StoppingNow(Do(s, w, act)) <==> !(act.Flush? && Batch(s.workers[w].pc) != [])
  {
    NobodyBusy(s.workers, CbWork(0));
    assert HeldWork(s.workers[w].pc) == None && WorkerOk(s, s.workers[w]);
    NothingRegistered(s);
    if act.Deliver? {
      NothingFires(s.io, act.op);
    } else if act.Settle? {
      SetAsideShape(s, w, s.workers[w].pc.f);
    } else if act.Collect? {
      NothingExpired(s.timers, act.at, act.rollover, act.ts);
    }
    assert Unpinned([]) == [];
  }

  lemma StoppingCalled(s: Sys, call: Call)
    requires ProtocolInv(s) && AccountInv(s) && StoppingNow(s) && CanCall(s, call)
    ensures StoppingNow(Called(s, call)) <==> !BringsWork(External(call))
  {
    NothingRegistered(s);
    assert Unpinned([]) == [];
    if call.CallingIo? {
      if call.op.Enlarge? {
        GrowKeeps(s.io, call.op.fd);
      } else if call.op.AddEvent? {
        AddKeeps(s.io, call.op.fd, call.op.ev, call.op.req, call.op.ok);
      } else {
        NothingFires(s.io, call.op);
      }
    } else if call.SettingTimer? {
      assert call.t in Called(s, call).timers;
    }
  }

  /** A step takes back that a manager is stopping exactly if it brings work from outside or queues callbacks taken
      off the timers before. */
  lemma StoppingIsFinal(s: Sys, e: Step)
    requires ProtocolInv(s) && AccountInv(s) && StoppingNow(s) && Enabled(s, e)
    ensures StoppingNow(Next(s, e)) <==> !BringsWork(e) && !(e.By? && e.act.Flush? && Batch(s.workers[e.w].pc) != [])
  {
    if e.By? {
      StoppingAct(s, e.w, e.act);
    } else if e.External? {
      StoppingCalled(s, e.call);
    }
  }

  // ----- when a later yes is right -----

  /** Whenever the readings begun in `s` end in a yes, with no work from outside, the manager is stopping and no
      work comes any more. */
  ghost predicate EveryYesRight(s: Sys)
    requires ProtocolInv(s)
  {
    forall t, u :: YesBetween(s, t, u) ==> StoppingNow(u) && Final(u)
  }

  ghost predicate YesBetween(s: Sys, t: Sys, u: Sys)
    requires ProtocolInv(s)
    ensures YesBetween(s, t, u) ==> ProtocolInv(u)
  {
    Reaches(s, t, true) && ProtocolInv(t) && Reaches(t, u, true) && ProtocolInv(u) && SaysYes(s, t, u)
  }

  lemma RestReached(s: Sys, t: Sys)
    requires ProtocolInv(s) && AccountInv(s) && AtRest(s) && Reaches(s, t, true)
    ensures ProtocolInv(t) && AccountInv(t) && AtRest(t)
  {
    var es :| RunOk(s, es) && NoWork(es) && RunFrom(s, es) == t;
    RestStays(s, es);
  }

  lemma RestIsRight(s: Sys)
    requires ProtocolInv(s) && AccountInv(s) && AtRest(s)
    ensures EveryYesRight(s)
  {
    forall t, u | YesBetween(s, t, u) ensures StoppingNow(u) && Final(u)
    {
      RestReached(s, t);
      RestReached(t, u);
      StoppedIsFinal(u);
    }
  }

  /** Three readings of which the last is made in `t`. */
  lemma WrongYes(s: Sys, t: Sys)
    requires ProtocolInv(s) && ProtocolInv(t) && Reaches(s, t, true) && SaysYes(s, s, t)
    requires !StoppingNow(t) || !Final(t)
    ensures !EveryYesRight(s)
  {
    ReachesSelf(s);
    assert YesBetween(s, s, t);
  }

  lemma StopAsked(s: Sys) returns (t: Sys)
    requires ProtocolInv(s)
    ensures ProtocolInv(t) && Reaches(s, t, true) && t == s.(stopRequested := true)
  {
    t := OneReaches(s, Stop);
  }

  /** A worker that will run code can start a timer after the first reading and be done before the third. */
  lemma CodeMisleads(s: Sys, w: nat)
    requires ProtocolInv(s) && AccountInv(s) && s.queue == [] && s.timers == map[] && s.io.pending == 0
    requires w < |s.workers| && Coding(s, w)
    ensures !EveryYesRight(s)
  {
    var a := BringToCode(s, w);
    OwedAnyThread([], s.workers[w].pc);
    assert AnyThread(a.queue) by { assert a.queue + [] == a.queue; }
    var b := OneReaches(a, By(w, Act.StartTimer(0, Once(CbWork(0), 0))));
    ReachesTrans(s, a, b, true);
    InnerReaches(s, b);
    ReachedInv(s, b);
    assert 0 in b.timers;
    var c := Drain(b);
    ReachesTrans(s, b, c, true);
    var t := StopAsked(c);
    ReachesTrans(s, c, t, true);
    WrongYes(s, t);
  }

  /** As `s`, but some of the first `n` workers came back; none of these is busy, and the others wait. */
  ghost predicate PartlyBack(s: Sys, t: Sys, n: nat) {
    && n <= |s.workers| == |t.workers|
    && t.queue == [] && t.timers == s.timers && t.io == s.io && t.stopRequested == s.stopRequested
    && (forall v :: 0 <= v < |s.workers| ==> Batch(t.workers[v].pc) == Batch(s.workers[v].pc))
    && (forall v :: 0 <= v < n ==> HeldWork(t.workers[v].pc) == None)
    && (forall v :: n <= v < |s.workers| ==> t.workers[v] == s.workers[v])
  }

  /** A worker that runs no code first and holds no batch leaves nothing on the list. */
  lemma NothingOwed(s: Sys, w: nat)
    requires w < |s.workers| && !Coding(s, w) && !s.workers[w].pc.Flushing?
    ensures Owed(s.workers[w].pc) == [] && Batch(s.workers[w].pc) == []
  {
  }

  lemma OneBack(s: Sys, t: Sys, n: nat) returns (u: Sys)
    requires ProtocolInv(s) && ProtocolInv(t) && n < |s.workers| && PartlyBack(s, t, n)
    requires !Coding(s, n)
    ensures ProtocolInv(u) && PartlyBack(s, u, n + 1) && Reaches(t, u, true)
  {
    if t.workers[n].pc.Flushing? {
      u := t;
      ReachesSelf(t);
    } else {
      NothingOwed(s, n);
      u := DrainWorker(t, n);
    }
  }

  /** Those that hold no batch can come back while the others wait. */
  lemma {:induction false} DrainOthers(s: Sys, n: nat) returns (t: Sys)
    requires ProtocolInv(s) && n <= |s.workers| && s.queue == [] && forall w :: 0 <= w < |s.workers| ==> !Coding(s, w)
    ensures ProtocolInv(t) && PartlyBack(s, t, n) && Reaches(s, t, true)
  {
    if n == 0 {
      t := s;
      ReachesSelf(s);
    } else {
      var u := DrainOthers(s, n - 1);
      t := OneBack(s, u, n - 1);
      ReachesTrans(s, u, t, true);
    }
  }

  /** A batch that is held makes a yes premature. */
  lemma BatchMisleads(s: Sys, w: nat)
    requires ProtocolInv(s) && AccountInv(s) && s.queue == [] && s.timers == map[] && s.io.pending == 0
    requires forall v :: 0 <= v < |s.workers| ==> !Coding(s, v)
    requires w < |s.workers| && Batch(s.workers[w].pc) != []
    ensures !EveryYesRight(s)
  {
    var a := DrainOthers(s, |s.workers|);
    InnerReaches(s, a);
    ReachedInv(s, a);
    NobodyBusy(a.workers, CbWork(0));
    var t := StopAsked(a);
    ReachesTrans(s, a, t, true);
    var u := FlushQueues(t, w);
    NotFinal(t, u);
    WrongYes(s, t);
  }

  /** A timer that reads as none is still there at the end. */
  lemma TimerMisleads(s: Sys)
    requires ProtocolInv(s) && AccountInv(s) && s.queue == [] && JustExpired(s) && s.io.pending == 0
    ensures !EveryYesRight(s)
  {
    var a := s;
    if s.workers == [] {
      ReachesSelf(s);
    } else {
      a := Drain(s);
    }
    var t := StopAsked(a);
    ReachesTrans(s, a, t, true);
    WrongYes(s, t);
  }

  /** Readings that begin with nothing on the list, no event and a timer reading of none give only right answers,
      whatever comes between them from inside, exactly if no timer was due a millisecond ago, no worker will run code
      and none holds callbacks taken off the timers. */
  lemma EveryYesRightIff(s: Sys)
    requires ProtocolInv(s) && AccountInv(s) && s.queue == [] && ReadsNoTimer(s) && s.io.pending == 0
    ensures EveryYesRight(s) <==> !JustExpired(s) && NoBatch(s) && forall w :: 0 <= w < |s.workers| ==> !Coding(s, w)
  {
    if JustExpired(s) {
      TimerMisleads(s);
    } else if w :| 0 <= w < |s.workers| && Coding(s, w) {
      CodeMisleads(s, w);
    } else if !NoBatch(s) {
      var w :| 0 <= w < |s.workers| && Batch(s.workers[w].pc) != [];
      BatchMisleads(s, w);
    } else {
      RestIsRight(s);
    }
  }

  /** Both equivalences, wherever they apply. */
  lemma StoppingTold(s: Sys, w: nat)
    requires ProtocolInv(s) && AccountInv(s)
    ensures SaysYes(s, s, s) && w < |s.workers| && s.workers[w].pc.Scanning? ==>
              (Final(s) <==> NoBatch(s) && !JustExpired(s))
    ensures s.queue == [] && ReadsNoTimer(s) && s.io.pending == 0 ==>
              (EveryYesRight(s) <==> !JustExpired(s) && NoBatch(s) && forall v :: 0 <= v < |s.workers| ==> !Coding(s, v))
  {
    if SaysYes(s, s, s) && w < |s.workers| && s.workers[w].pc.Scanning? { FinalIff(s, w); }
    if s.queue == [] && ReadsNoTimer(s) && s.io.pending == 0 { EveryYesRightIff(s); }
  }

  /** A yes means that the steps completed exactly what they submitted. */
  lemma YesCompletes(n: nat, slots: nat, es: seq<Step>)
    requires slots >= 32 && ProtocolInv(StartSys(n, slots)) && RunOk(StartSys(n, slots), es)
    requires var s := RunFrom(StartSys(n, slots), es); SaysYes(s, s, s)
    ensures CompletedIn(StartSys(n, slots), es) == SubmittedIn(StartSys(n, slots), es)
  {
    StartAccount(n, slots);
    RunAccount(StartSys(n, slots), es);
    RunCounts(StartSys(n, slots), es);
    var s := RunFrom(StartSys(n, slots), es);
    YesMeansDone(s, s, s);
  }

  /** The closed form: from a started manager, in every run a yes means that the steps completed exactly what they
      submitted, and what the readings of `stopping()` tell is as above. */
  lemma EveryRunAccounts(n: nat, slots: nat, es: seq<Step>, w: nat)
    requires slots >= 32
    ensures ProtocolInv(StartSys(n, slots))
    ensures RunOk(StartSys(n, slots), es) ==>
              var s := RunFrom(StartSys(n, slots), es);
              && ProtocolInv(s)
              && (SaysYes(s, s, s) ==> CompletedIn(StartSys(n, slots), es) == SubmittedIn(StartSys(n, slots), es))
              && (SaysYes(s, s, s) && w < |s.workers| && s.workers[w].pc.Scanning? ==>
                    (Final(s) <==> NoBatch(s) && !JustExpired(s)))
              && (s.queue == [] && ReadsNoTimer(s) && s.io.pending == 0 ==>
                    (EveryYesRight(s) <==> !JustExpired(s) && NoBatch(s) && forall v :: 0 <= v < |s.workers| ==> !Coding(s, v)))
  {
    StartKeeps(n, slots);
    StartAccount(n, slots);
    if RunOk(StartSys(n, slots), es) {
      RunKeeps(StartSys(n, slots), es);
      RunAccount(StartSys(n, slots), es);
      var s := RunFrom(StartSys(n, slots), es);
      if SaysYes(s, s, s) { YesCompletes(n, slots, es); }
      StoppingTold(s, w);
    }
  }
}
