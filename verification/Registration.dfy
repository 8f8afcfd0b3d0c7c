/** Concurrent calls of `addEvent`: the size test, the resize and the registration are three locked
    regions, and other calls may run between them. */
module Registration {
  import opened Bytes
  import opened FdEvents

  /** Where a call stands: it found the vector too short, or it holds its descriptor's context. */
  datatype Pc = Growing(fd: nat, ev: Event, req: Request) | Installing(fd: nat, ev: Event, req: Request)

  datatype Shared = Shared(io: Io, calls: map<nat, Pc>)

  datatype Step =
    | Look(id: nat, fd: nat, ev: Event, req: Request)
    | Lengthen(id: nat)
    | Install(id: nat, ok: bool)
    | Other(op: Op)

  ghost predicate Enabled(s: Shared, e: Step) {
    match e
    case Look(id, _, _, _) => id !in s.calls
    case Lengthen(id) => id in s.calls && s.calls[id].Growing?
    case Install(id, _) => id in s.calls && s.calls[id].Installing? && s.calls[id].fd < |s.io.ctxs| && Inv(s.io)
    case Other(op) => !op.AddEvent? && !op.Enlarge? && Inv(s.io) && Safe(s.io, op)
  }

  ghost function Next(s: Shared, e: Step): Shared
    requires Enabled(s, e)
  {
    match e
    case Look(id, fd, ev, req) =>
      s.(calls := s.calls[id := if |s.io.ctxs| > fd then Installing(fd, ev, req) else Growing(fd, ev, req)])
    case Lengthen(id) =>
      var c := s.calls[id];
      Shared(Grow(s.io, c.fd), s.calls[id := Installing(c.fd, c.ev, c.req)])
    case Install(id, ok) =>
      var c := s.calls[id];
      Shared(Add(s.io, c.fd, c.ev, c.req, ok), s.calls - {id})
    case Other(op) => s.(io := Apply(s.io, op).0)
  }

  /** The manager is in order, a call in doubt asks for more than the least vector, and every context a
      call holds is in the vector. */
  ghost predicate CallsOk(s: Shared) {
    && Inv(s.io)
    && forall id :: id in s.calls ==>
         if s.calls[id].Growing? then s.calls[id].fd >= 32 else s.calls[id].fd < |s.io.ctxs|
  }

  /** A resize finds the vector no longer than it asks for. */
  predicate Guarded(s: Shared, e: Step) {
    e.Lengthen? && e.id in s.calls ==> |s.io.ctxs| <= GrownLength(s.calls[e.id].fd)
  }

  lemma StepKeeps(s: Shared, e: Step)
    requires CallsOk(s) && Enabled(s, e) && Guarded(s, e)
    ensures CallsOk(Next(s, e)) && |Next(s, e).io.ctxs| >= |s.io.ctxs|
    ensures !e.Lengthen? ==> |Next(s, e).io.ctxs| == |s.io.ctxs|
  {
    match e
    case Look(_, _, _, _) =>
    case Lengthen(id) => GrowKeeps(s.io, s.calls[id].fd);
    case Install(id, ok) => AddKeeps(s.io, s.calls[id].fd, s.calls[id].ev, s.calls[id].req, ok);
    case Other(op) => StepBalance(s.io, op, Slot(0, READ));
  }

  ghost predicate GuardedRun(s: Shared, es: seq<Step>)
    requires CallsOk(s)
    decreases |es|
  {
    es == [] ||
    (Enabled(s, es[0]) && Guarded(s, es[0]) && (StepKeeps(s, es[0]); GuardedRun(Next(s, es[0]), es[1..])))
  }

  ghost function Run(s: Shared, es: seq<Step>): Shared
    requires CallsOk(s) && GuardedRun(s, es)
    decreases |es|
  {
    if es == [] then s
    else
      StepKeeps(s, es[0]);
      Run(Next(s, es[0]), es[1..])
  }

  /** In every run whose resizes find the vector no longer than they ask for: the interest set equals the
      registered bits throughout, no context a call holds is cut off, and the kernel call of every
      registration, whatever came between its regions, is one the kernel accepts. */
  lemma {:induction false} RunKeeps(s: Shared, es: seq<Step>)
    requires CallsOk(s) && GuardedRun(s, es)
    ensures CallsOk(Run(s, es)) && |Run(s, es).io.ctxs| >= |s.io.ctxs|
    ensures forall id :: id in Run(s, es).calls && Run(s, es).calls[id].Installing? ==>
              var t, fd := Run(s, es), Run(s, es).calls[id].fd;
              Enabled(t, Install(id, true)) && LegalCtl(t.io.epoll, AddOp(t.io.ctxs[fd]), fd)
    decreases |es|
  {
    if es != [] {
      StepKeeps(s, es[0]);
      RunKeeps(Next(s, es[0]), es[1..]);
    }
  }

  // ----- when a resize is harmless -----

  predicate NoResize(es: seq<Step>) { forall i :: 0 <= i < |es| ==> !es[i].Lengthen? }

  lemma {:induction false} WaitingCallStays(s: Shared, es: seq<Step>, id: nat)
    requires CallsOk(s) && GuardedRun(s, es) && NoResize(es)
    requires id in s.calls && s.calls[id].Growing?
    ensures var t := Run(s, es); CallsOk(t) && |t.io.ctxs| == |s.io.ctxs| && id in t.calls && t.calls[id] == s.calls[id]
    decreases |es|
  {
    if es != [] {
      assert !es[0].Lengthen?;
      StepKeeps(s, es[0]);
      assert forall i :: 0 <= i < |es| - 1 ==> es[1..][i] == es[i + 1];
      WaitingCallStays(Next(s, es[0]), es[1..], id);
    }
  }

  /** Whatever else registers, is removed or fires before the resize of call `id`, the manager is in
      order after it. */
  ghost predicate ResizeHarmless(s: Shared, id: nat)
    requires CallsOk(s)
  {
    forall es :: GuardedRun(s, es) && NoResize(es) && Enabled(Run(s, es), Lengthen(id)) ==>
      Inv(Next(Run(s, es), Lengthen(id)).io)
  }

  lemma UnusedId(calls: map<nat, Pc>) returns (d: nat)
    ensures d !in calls
  {
    var keys := calls.Keys;
    d := 0;
    while keys != {}
      invariant forall k :: k in calls && k !in keys ==> k < d
      decreases keys
    {
      var k :| k in keys;
      keys := keys - {k};
      if k >= d { d := k + 1; }
    }
  }

  /** Another call registers the last descriptor. */
  lemma LastRegistered(s: Shared, id: nat, d: nat)
    requires CallsOk(s) && id in s.calls && s.calls[id].Growing? && d !in s.calls
    ensures var m := |s.io.ctxs|;
            var es := [Look(d, m - 1, READ, CurrentFiber(0)), Install(d, true)];
            && GuardedRun(s, es) && NoResize(es)
            && var t := Run(s, es);
               |t.io.ctxs| == m && m - 1 in t.io.epoll && id in t.calls && t.calls[id] == s.calls[id]
  {
    var m := |s.io.ctxs|;
    var es := [Look(d, m - 1, READ, CurrentFiber(0)), Install(d, true)];
    StepKeeps(s, es[0]);
    var u := Next(s, es[0]);
    assert es[1..] == [es[1]] && [es[1]][1..] == [];
    StepKeeps(u, es[1]);
    assert Run(s, es) == Run(u, [es[1]]) == Next(u, es[1]);
    WaitingCallStays(s, es, id);
  }

  /** A resize is harmless exactly if it finds the vector no longer than it asks for. */
  lemma ResizeHarmlessIff(s: Shared, id: nat)
    requires CallsOk(s) && id in s.calls && s.calls[id].Growing?
    ensures ResizeHarmless(s, id) <==> |s.io.ctxs| <= GrownLength(s.calls[id].fd)
  {
    if |s.io.ctxs| <= GrownLength(s.calls[id].fd) {
      forall es | GuardedRun(s, es) && NoResize(es) && Enabled(Run(s, es), Lengthen(id))
        ensures Inv(Next(Run(s, es), Lengthen(id)).io)
      {
        WaitingCallStays(s, es, id);
        GrowKeeps(Run(s, es).io, s.calls[id].fd);
      }
    } else {
      var d := UnusedId(s.calls);
      LastRegistered(s, id, d);
      var es := [Look(d, |s.io.ctxs| - 1, READ, CurrentFiber(0)), Install(d, true)];
      var t := Run(s, es);
      var v := Next(t, Lengthen(id));
      assert |s.io.ctxs| - 1 in v.io.epoll && |v.io.ctxs| < |s.io.ctxs|;
      assert !Inv(v.io);
    }
  }

  // ----- two calls that race -----

  const AT_100 := Growing(100, READ, CurrentFiber(1))
  const AT_40 := Growing(40, READ, CurrentFiber(2))

  /** A manager with 32 contexts and nothing registered. */
  ghost predicate Fresh(io: Io) {
    Inv(io) && |io.ctxs| == 32 && io.epoll == map[] && io.pending == 0 && forall fd :: 0 <= fd < 32 ==> io.ctxs[fd] == NO_FD
  }

  lemma StartFresh()
    ensures Fresh(Start(32))
  {
    StartOk(32);
  }

  /** Both calls have looked, and the one for descriptor 100 has made 150 contexts. */
  lemma BothLook(io: Io) returns (s1: Shared, s2: Shared, s3: Shared)
    requires Fresh(io)
    ensures var s0 := Shared(io, map[]);
            Enabled(s0, Look(1, 100, READ, CurrentFiber(1))) && s1 == Next(s0, Look(1, 100, READ, CurrentFiber(1)))
    ensures Enabled(s1, Look(2, 40, READ, CurrentFiber(2))) && s2 == Next(s1, Look(2, 40, READ, CurrentFiber(2)))
    ensures Enabled(s2, Lengthen(1)) && Guarded(s2, Lengthen(1)) && s3 == Next(s2, Lengthen(1))
    ensures s3 == Shared(Grow(io, 100), map[1 := Installing(100, READ, CurrentFiber(1)), 2 := AT_40])
  {
    s1 := Next(Shared(io, map[]), Look(1, 100, READ, CurrentFiber(1)));
    assert s1 == Shared(io, map[1 := AT_100]);
    s2 := Next(s1, Look(2, 40, READ, CurrentFiber(2)));
    assert s2 == Shared(io, map[1 := AT_100, 2 := AT_40]);
    s3 := Next(s2, Lengthen(1));
  }

  /** Then it registers. */
  lemma FirstCall(io: Io) returns (s: Shared)
    requires Fresh(io)
    ensures CallsOk(Shared(io, map[]))
    ensures var s0 := Shared(io, map[]);
            var es := [Look(1, 100, READ, CurrentFiber(1)), Look(2, 40, READ, CurrentFiber(2)), Lengthen(1), Install(1, true)];
            GuardedRun(s0, es) && s == Run(s0, es)
    ensures CallsOk(s) && |s.io.ctxs| == 150 && s.calls == map[2 := AT_40]
    ensures s.io.epoll == map[100 := {READ}] && s.io.pending == 1
    ensures forall fd :: 0 <= fd < 60 ==> s.io.ctxs[fd] == NO_FD
  {
    var es := [Look(1, 100, READ, CurrentFiber(1)), Look(2, 40, READ, CurrentFiber(2)), Lengthen(1), Install(1, true)];
    var s1, s2, s3 := BothLook(io);
    GrowKeeps(io, 100);
    RegisterFirst(s3.io);
    s := Next(s3, es[3]);
    assert s.calls == map[2 := AT_40];
    Unrolled(Shared(io, map[]), es, s1, s2, s3);
  }

  lemma RegisterFirst(io: Io)
    requires Inv(io) && |io.ctxs| == 150 && io.epoll == map[] && io.ctxs[100] == NO_FD
    ensures var t := Add(io, 100, READ, CurrentFiber(1), true);
            && t.epoll == map[100 := {READ}] && t.pending == io.pending + 1 && |t.ctxs| == 150
            && forall fd :: 0 <= fd < 60 ==> t.ctxs[fd] == io.ctxs[fd]
  {
    assert {} + {READ} == {READ};
  }

  /** A run of four steps, one by one. */
  lemma Unrolled(s0: Shared, es: seq<Step>, s1: Shared, s2: Shared, s3: Shared)
    requires CallsOk(s0) && |es| == 4
    requires Enabled(s0, es[0]) && Guarded(s0, es[0]) && s1 == Next(s0, es[0])
    requires Enabled(s1, es[1]) && Guarded(s1, es[1]) && s2 == Next(s1, es[1])
    requires Enabled(s2, es[2]) && Guarded(s2, es[2]) && s3 == Next(s2, es[2])
    requires Enabled(s3, es[3]) && Guarded(s3, es[3])
    ensures GuardedRun(s0, es) && Run(s0, es) == Next(s3, es[3]) && CallsOk(Next(s3, es[3]))
  {
    StepKeeps(s0, es[0]);
    StepKeeps(s1, es[1]);
    StepKeeps(s2, es[2]);
    StepKeeps(s3, es[3]);
    var t1, t2, t3, t4 := es[1..], es[2..], es[3..], es[4..];
    assert t1[0] == es[1] && t1[1..] == t2;
    assert t2[0] == es[2] && t2[1..] == t3;
    assert t3[0] == es[3] && t3[1..] == t4 == [];
    assert GuardedRun(Next(s3, es[3]), t4);
    assert GuardedRun(s3, t3) && Run(s3, t3) == Next(s3, es[3]);
    assert GuardedRun(s2, t2) && Run(s2, t2) == Run(s3, t3);
    assert GuardedRun(s1, t1) && Run(s1, t1) == Run(s2, t2);
  }

  /** A second call of `Lengthen` cuts descriptor 100 off; a third finds a blank context. */
  lemma SecondCall(s: Shared) returns (t: Shared, v: Shared)
    requires CallsOk(s) && |s.io.ctxs| == 150 && s.calls == map[2 := AT_40]
    requires s.io.epoll == map[100 := {READ}] && s.io.pending == 1
    requires forall fd :: 0 <= fd < 60 ==> s.io.ctxs[fd] == NO_FD
    ensures Enabled(s, Lengthen(2)) && !Guarded(s, Lengthen(2)) && t == Next(s, Lengthen(2))
    ensures 100 in t.io.epoll && |t.io.ctxs| == 60 && !Synced(t.io) && t.io.pending == 1 && SetBits(t.io.ctxs) == 0
    ensures Enabled(t, Look(3, 100, READ, CurrentFiber(3)))
    ensures var u := Next(t, Look(3, 100, READ, CurrentFiber(3))); Enabled(u, Lengthen(3)) && v == Next(u, Lengthen(3))
    ensures 3 in v.calls && v.calls[3] == Installing(100, READ, CurrentFiber(3)) && |v.io.ctxs| == 150
    ensures AddOp(v.io.ctxs[100]) == ADD && !LegalCtl(v.io.epoll, ADD, 100)
  {
    t := Next(s, Lengthen(2));
    assert forall fd :: 0 <= fd < 60 ==> t.io.ctxs[fd] == s.io.ctxs[fd];
    SetBitsZero(t.io.ctxs);
    var u := Next(t, Look(3, 100, READ, CurrentFiber(3)));
    v := Next(u, Lengthen(3));
    assert v.io.ctxs[100] == NO_FD;
  }

  /** Two calls find 32 contexts. The one for descriptor 100 makes 150 and registers; the one for 40 then
      makes 60. Descriptor 100 stays with the kernel and in the counter, but its context is gone: the next
      registration on it gets a blank one and asks the kernel to add what it already watches. */
  lemma TwoCallsRace() returns (s: Shared, t: Shared, v: Shared)
    ensures CallsOk(Shared(Start(32), map[]))
    ensures exists es :: GuardedRun(Shared(Start(32), map[]), es) && s == Run(Shared(Start(32), map[]), es)
    ensures CallsOk(s) && Enabled(s, Lengthen(2)) && !Guarded(s, Lengthen(2)) && t == Next(s, Lengthen(2))
    ensures 100 in t.io.epoll && !Synced(t.io) && t.io.pending == 1 && SetBits(t.io.ctxs) == 0
    ensures Enabled(t, Look(3, 100, READ, CurrentFiber(3)))
    ensures var u := Next(t, Look(3, 100, READ, CurrentFiber(3))); Enabled(u, Lengthen(3)) && v == Next(u, Lengthen(3))
    ensures 3 in v.calls && v.calls[3] == Installing(100, READ, CurrentFiber(3)) && |v.io.ctxs| == 150
    ensures AddOp(v.io.ctxs[100]) == ADD && !LegalCtl(v.io.epoll, ADD, 100)
  {
    StartFresh();
    s := FirstCall(Start(32));
    t, v := SecondCall(s);
  }

  /** What a resize cuts off stays in the pending counter. */
  lemma LostStayCounted(io: Io, fd: nat)
    requires GrownLength(fd) <= |io.ctxs|
    ensures var t := Grow(io, fd);
            t.pending - SetBits(t.ctxs) == io.pending - SetBits(io.ctxs) + SetBits(io.ctxs[GrownLength(fd)..])
  {
    SetBitsSplit(io.ctxs, GrownLength(fd));
  }
}
