/** Every step of the protocol keeps its invariant, and what the invariant promises. */
module FiberSafety {
  import opened Bytes
  import opened FdEvents
  import opened Scheduling
  import opened FiberProtocol

  // ----- moving and making tokens -----

  /** If every token of `t` was somewhere in `s`, in different places, no token is doubled. */
  lemma UniquePull(s: Sys, t: Sys, pre: Source -> Source)
    requires Unique(s)
    requires forall a: Source :: TargetAt(t, a).Some? ==> TargetAt(s, pre(a)) == TargetAt(t, a)
    requires forall a: Source, b: Source :: a != b && TargetAt(t, a).Some? && TargetAt(t, b).Some? ==> pre(a) != pre(b)
    ensures Unique(t)
  {
    forall a: Source, b: Source | a != b && TargetAt(t, a).Some? && TargetAt(t, b).Some?
      ensures TargetAt(t, a) != TargetAt(t, b)
    {
      assert TargetAt(s, pre(a)) == TargetAt(t, a) && TargetAt(s, pre(b)) == TargetAt(t, b);
    }
  }

  /** One new token, for a fiber that had none. */
  lemma UniqueNew(s: Sys, t: Sys, place: Source, f: nat)
    requires Unique(s) && NoToken(s, f)
    requires forall a: Source :: a != place && TargetAt(t, a).Some? ==> TargetAt(s, a) == TargetAt(t, a)
    requires TargetAt(t, place).Some? ==> TargetAt(t, place) == Some(f)
    ensures Unique(t)
  {
  }

  // ----- steps that change no fiber and no ownership -----

  /** If no worker's ownership changed and no fiber did, only the workers whose program counter
      moved need looking at. */
  predicate SameOwners(s: Sys, t: Sys)
  {
    && |t.workers| == |s.workers| && t.fibers == s.fibers
    && forall w :: 0 <= w < |s.workers| ==>
         Subject(t.workers[w].pc) == Subject(s.workers[w].pc) && t.workers[w].cache == s.workers[w].cache
  }

  lemma SamePeople(s: Sys, t: Sys)
    requires SameOwners(s, t)
    ensures forall f :: Unowned(t, f) <==> Unowned(s, f)
    ensures forall w, f :: 0 <= w < |s.workers| ==> (Owns(t.workers[w], f) <==> Owns(s.workers[w], f))
  {
    forall f ensures Unowned(t, f) <==> Unowned(s, f)
    {
      if Unowned(s, f) { assert forall w :: 0 <= w < |t.workers| ==> !Owns(s.workers[w], f); }
      if Unowned(t, f) { assert forall w :: 0 <= w < |s.workers| ==> !Owns(t.workers[w], f); }
    }
  }

  /** Only worker `w` moved, and it holds and runs what it did. */
  ghost predicate Moved(s: Sys, t: Sys, w: nat)
  {
    && w < |s.workers| && SameOwners(s, t)
    && (forall v :: 0 <= v < |s.workers| && v != w ==> t.workers[v] == s.workers[v])
    && (t.workers[w].pc.Prepared? <==> s.workers[w].pc.Prepared?)
  }

  lemma MovedFibers(s: Sys, t: Sys, w: nat)
    requires FiberInv(s) && Moved(s, t, w) && WorkerOk(t, t.workers[w])
    ensures FiberInv(t)
  {
    SamePeople(s, t);
    forall v | 0 <= v < |t.workers| ensures WorkerOk(t, t.workers[v])
    {
      if v != w { assert WorkerOk(s, s.workers[v]); }
    }
  }

  lemma MovedToken(s: Sys, t: Sys, w: nat, g: nat)
    requires Moved(s, t, w) && TokenOk(s, g)
    ensures TokenOk(t, g)
  {
    forall v | 0 <= v < |t.workers| && Owns(t.workers[v], g)
      ensures Running(t.workers[v].pc, g) && t.fibers[g].state == RUNING
    {
      assert Owns(s.workers[v], g);
    }
  }

  /** Where a token was before task `i` was taken off the list. */
  function TakeSource(i: nat, w: nat, a: Source): Source {
    if a == AtWorker(w) then InQueue(i) else if a.InQueue? && a.i >= i then InQueue(a.i + 1) else a
  }

  lemma TakePulls(s: Sys, w: nat, a: Source)
    requires ProtocolInv(s) && w < |s.workers| && CanAct(s, w, Take)
    requires TargetAt(Do(s, w, Take), a).Some?
    ensures TargetAt(s, TakeSource(FirstEligible(s.queue, w, RunningFibers(s)), w, a)) == TargetAt(Do(s, w, Take), a)
  {
    FirstEligibleBounds(s.queue, w, RunningFibers(s));
  }

  /** The task taken is for a fiber that nobody has. */
  lemma TakenFree(s: Sys, w: nat)
    requires ProtocolInv(s) && w < |s.workers| && CanAct(s, w, Take)
    ensures var i := FirstEligible(s.queue, w, RunningFibers(s));
            i < |s.queue| && (s.queue[i].work.FiberWork? ==> s.queue[i].work.f in s.fibers && Unowned(s, s.queue[i].work.f))
  {
    var i := FirstEligible(s.queue, w, RunningFibers(s));
    FirstEligibleBounds(s.queue, w, RunningFibers(s));
    if s.queue[i].work.FiberWork? {
      assert TargetAt(s, InQueue(i)) == Some(s.queue[i].work.f);
      assert TokenOk(s, s.queue[i].work.f);
    }
  }

  lemma TakeMoves(s: Sys, w: nat)
    requires ProtocolInv(s) && w < |s.workers| && CanAct(s, w, Take)
    ensures Moved(s, Do(s, w, Take), w) && WorkerOk(Do(s, w, Take), Do(s, w, Take).workers[w])
  {
    assert WorkerOk(s, s.workers[w]);
    TakenFree(s, w);
    SamePeople(s, Do(s, w, Take));
  }

  lemma TakeKeeps(s: Sys, w: nat)
    requires ProtocolInv(s) && w < |s.workers| && CanAct(s, w, Take)
    ensures ProtocolInv(Do(s, w, Take))
  {
    var i := FirstEligible(s.queue, w, RunningFibers(s));
    var t := Do(s, w, Take);
    TakeMoves(s, w);
    var pre := a => TakeSource(i, w, a);
    forall a: Source | TargetAt(t, a).Some? ensures TargetAt(s, pre(a)) == TargetAt(t, a) { TakePulls(s, w, a); }
    ShiftKeeps(s, t, w, pre);
  }

  /** Worker `w` moves and gives up its token, if it had one, or keeps it. */
  lemma MovedKeeps(s: Sys, t: Sys, w: nat)
    requires ProtocolInv(s) && Moved(s, t, w) && WorkerOk(t, t.workers[w])
    requires t.io == s.io && t.queue == s.queue && t.timers == s.timers
    requires PcTarget(t.workers[w].pc) in {None, PcTarget(s.workers[w].pc)} && Batch(t.workers[w].pc) == []
    ensures ProtocolInv(t)
  {
    MovedFibers(s, t, w);
    UniquePull(s, t, a => a);
    forall a: Source | TargetAt(t, a).Some? ensures TokenOk(t, TargetAt(t, a).value)
    {
      assert TargetAt(s, a) == TargetAt(t, a);
      MovedToken(s, t, w, TargetAt(t, a).value);
    }
  }

  lemma DropDeadKeeps(s: Sys, w: nat)
    requires ProtocolInv(s) && w < |s.workers| && CanAct(s, w, DropDead)
    ensures ProtocolInv(Do(s, w, DropDead))
  {
    assert WorkerOk(s, s.workers[w]);
    MovedKeeps(s, Do(s, w, DropDead), w);
  }

  lemma CountDownKeeps(s: Sys, w: nat)
    requires ProtocolInv(s) && w < |s.workers| && CanAct(s, w, CountDown)
    ensures ProtocolInv(Do(s, w, CountDown))
  {
    assert WorkerOk(s, s.workers[w]);
    MovedKeeps(s, Do(s, w, CountDown), w);
  }

  /** Where a token was before a worker put its wake-up on the list. */
  function WakeSource(q: nat, w: nat, a: Source): Source { if a == InQueue(q) then AtWorker(w) else a }

  lemma WakePulls(s: Sys, w: nat, a: Source)
    requires ProtocolInv(s) && w < |s.workers| && CanAct(s, w, RunWake)
    requires TargetAt(Do(s, w, RunWake), a).Some?
    ensures TargetAt(s, WakeSource(|s.queue|, w, a)) == TargetAt(Do(s, w, RunWake), a)
    ensures a != AtWorker(w)
  {
  }

  lemma RunWakeKeeps(s: Sys, w: nat)
    requires ProtocolInv(s) && w < |s.workers| && CanAct(s, w, RunWake)
    ensures ProtocolInv(Do(s, w, RunWake))
  {
    var t := Do(s, w, RunWake);
    assert WorkerOk(s, s.workers[w]);
    MovedFibers(s, t, w);
    var pre := a => WakeSource(|s.queue|, w, a);
    forall a: Source | TargetAt(t, a).Some?
      ensures TargetAt(s, pre(a)) == TargetAt(t, a) && TokenOk(t, TargetAt(t, a).value) && a != AtWorker(w)
    {
      WakePulls(s, w, a);
      MovedToken(s, t, w, TargetAt(t, a).value);
    }
    UniquePull(s, t, pre);
  }

  // ----- steps that hand a fiber over -----

  /** Two workers never hold the same fiber to resume. */
  lemma HeldApart(s: Sys, v: nat, w: nat)
    requires Unique(s) && v < |s.workers| && w < |s.workers| && v != w
    requires s.workers[v].pc.Holding? && s.workers[v].pc.work.FiberWork?
    requires s.workers[w].pc.Holding? && s.workers[w].pc.work.FiberWork?
    ensures s.workers[v].pc.work.f != s.workers[w].pc.work.f
  {
    assert TargetAt(s, AtWorker(v)) == Some(s.workers[v].pc.work.f);
    assert TargetAt(s, AtWorker(w)) == Some(s.workers[w].pc.work.f);
  }

  /** A step that moves only worker `w` and changes only fiber `f`, which nobody else has. */
  ghost predicate Local(s: Sys, t: Sys, w: nat, f: nat)
  {
    && w < |s.workers| == |t.workers|
    && (forall v :: 0 <= v < |s.workers| && v != w ==> t.workers[v] == s.workers[v] && !Owns(s.workers[v], f))
    && (forall g :: g != f ==> (g in t.fibers <==> g in s.fibers) && (g in s.fibers ==> t.fibers[g] == s.fibers[g]))
    && (forall g :: g != f ==> (Owns(t.workers[w], g) <==> Owns(s.workers[w], g)))
  }

  lemma LocalUnowned(s: Sys, t: Sys, w: nat, f: nat, g: nat)
    requires Local(s, t, w, f) && g != f
    ensures Unowned(t, g) <==> Unowned(s, g)
  {
    if Unowned(s, g) { assert forall v :: 0 <= v < |t.workers| ==> !Owns(s.workers[v], g); }
    if Unowned(t, g) { assert forall v :: 0 <= v < |s.workers| ==> !Owns(t.workers[v], g); }
  }

  /** Such a step keeps the ownership invariant if worker and fiber end up in order, and nobody
      else is about to resume the fiber. */
  lemma LocalFibers(s: Sys, t: Sys, w: nat, f: nat)
    requires FiberInv(s) && Local(s, t, w, f) && WorkerOk(t, t.workers[w])
    requires f in t.fibers && (Unowned(t, f) ==> t.fibers[f].saved && t.fibers[f].state != RUNING)
    requires forall v :: 0 <= v < |s.workers| && v != w ==> s.workers[v].pc != Holding(FiberWork(f))
    ensures FiberInv(t)
  {
    forall v | 0 <= v < |t.workers| ensures WorkerOk(t, t.workers[v])
    {
      if v != w {
        var k := s.workers[v];
        assert WorkerOk(s, k);
        if k.pc.Holding? && k.pc.work.FiberWork? { LocalUnowned(s, t, w, f, k.pc.work.f); }
        if k.cache.Some? { assert Owns(k, k.cache.value); }
        if Subject(k.pc).Some? { assert Owns(k, Subject(k.pc).value); }
      }
    }
    forall g | g in t.fibers && Unowned(t, g) ensures t.fibers[g].saved && t.fibers[g].state != RUNING
    {
      if g != f { LocalUnowned(s, t, w, f, g); }
    }
  }

  /** It keeps the token of every other fiber in order. */
  lemma LocalToken(s: Sys, t: Sys, w: nat, f: nat, g: nat)
    requires Local(s, t, w, f) && g != f && TokenOk(s, g)
    requires Owns(t.workers[w], g) ==> (Running(s.workers[w].pc, g) <==> Running(t.workers[w].pc, g))
    ensures TokenOk(t, g)
  {
  }

  lemma ResumeTokens(s: Sys, w: nat)
    requires ProtocolInv(s) && w < |s.workers| && CanAct(s, w, Resume)
    ensures forall a: Source :: TargetAt(Do(s, w, Resume), a).Some? ==>
              a != AtWorker(w) && TargetAt(s, a) == TargetAt(Do(s, w, Resume), a)
  {
  }

  lemma ResumeKeeps(s: Sys, w: nat)
    requires ProtocolInv(s) && w < |s.workers| && CanAct(s, w, Resume)
    ensures ProtocolInv(Do(s, w, Resume))
  {
    var t := Do(s, w, Resume);
    var f := s.workers[w].pc.work.f;
    assert WorkerOk(s, s.workers[w]);
    assert TargetAt(s, AtWorker(w)) == Some(f);
    forall v | 0 <= v < |s.workers| && v != w ensures s.workers[v].pc != Holding(FiberWork(f))
    {
      if s.workers[v].pc == Holding(FiberWork(f)) { HeldApart(s, v, w); }
    }
    LocalFibers(s, t, w, f);
    ResumeTokens(s, w);
    UniquePull(s, t, a => a);
    forall a: Source | TargetAt(t, a).Some? ensures TokenOk(t, TargetAt(t, a).value)
    {
      LocalToken(s, t, w, f, TargetAt(t, a).value);
    }
  }

  /** A local step on a fiber that has no token before it, and adds none. */
  lemma LocalKeeps(s: Sys, t: Sys, w: nat, f: nat)
    requires ProtocolInv(s) && Local(s, t, w, f) && WorkerOk(t, t.workers[w])
    requires f in t.fibers && (Unowned(t, f) ==> t.fibers[f].saved && t.fibers[f].state != RUNING)
    requires forall v :: 0 <= v < |s.workers| && v != w ==> s.workers[v].pc != Holding(FiberWork(f))
    requires t.io == s.io && t.queue == s.queue && t.timers == s.timers
    requires PcTarget(t.workers[w].pc) in {None, PcTarget(s.workers[w].pc)} && Batch(t.workers[w].pc) == []
    requires forall g :: g != f && Owns(t.workers[w], g) ==> (Running(s.workers[w].pc, g) <==> Running(t.workers[w].pc, g))
    requires NoToken(s, f) || TokenOk(t, f)
    ensures ProtocolInv(t)
  {
    LocalFibers(s, t, w, f);
    UniquePull(s, t, a => a);
    forall a: Source | TargetAt(t, a).Some? ensures TokenOk(t, TargetAt(t, a).value)
    {
      assert TargetAt(s, a) == TargetAt(t, a);
      if TargetAt(t, a).value != f { LocalToken(s, t, w, f, TargetAt(t, a).value); }
    }
  }

  /** A fiber a worker has, other than the one it runs, waits for nothing. */
  lemma IdleFiberNoToken(s: Sys, w: nat, f: nat)
    requires ProtocolInv(s) && w < |s.workers| && Owns(s.workers[w], f)
    requires !(Running(s.workers[w].pc, f) && s.fibers[f].state == RUNING)
    ensures NoToken(s, f)
    ensures forall v :: 0 <= v < |s.workers| && v != w ==> s.workers[v].pc != Holding(FiberWork(f)) && !Owns(s.workers[v], f)
  {
    forall a: Source ensures TargetAt(s, a) != Some(f)
    {
      assert TargetAt(s, a).Some? ==> TokenOk(s, TargetAt(s, a).value);
    }
    forall v | 0 <= v < |s.workers| && v != w ensures s.workers[v].pc != Holding(FiberWork(f)) && !Owns(s.workers[v], f)
    {
      assert TargetAt(s, AtWorker(v)) != Some(f);
    }
  }

  /** Nobody else has, or holds, the fiber a worker owns. */
  lemma OwnerAlone(s: Sys, w: nat, f: nat)
    requires ProtocolInv(s) && w < |s.workers| && Owns(s.workers[w], f)
    ensures forall v :: 0 <= v < |s.workers| && v != w ==> s.workers[v].pc != Holding(FiberWork(f)) && !Owns(s.workers[v], f)
  {
    forall v | 0 <= v < |s.workers| && v != w ensures s.workers[v].pc != Holding(FiberWork(f)) && !Owns(s.workers[v], f)
    {
      assert WorkerOk(s, s.workers[v]);
      assert s.workers[v].pc == Holding(FiberWork(f)) ==> Unowned(s, f);
    }
  }

  /** A fiber that was never made is waited for by nothing and nobody's. */
  lemma UnknownFiber(s: Sys, f: nat)
    requires ProtocolInv(s) && f !in s.fibers
    ensures NoToken(s, f)
    ensures forall v :: 0 <= v < |s.workers| ==> s.workers[v].pc != Holding(FiberWork(f)) && !Owns(s.workers[v], f)
  {
    forall a: Source ensures TargetAt(s, a) != Some(f)
    {
      assert TargetAt(s, a).Some? ==> TokenOk(s, TargetAt(s, a).value);
    }
    forall v | 0 <= v < |s.workers| ensures s.workers[v].pc != Holding(FiberWork(f)) && !Owns(s.workers[v], f)
    {
      assert WorkerOk(s, s.workers[v]);
      assert TargetAt(s, AtWorker(v)) != Some(f);
    }
  }

  lemma PrepareKeeps(s: Sys, w: nat, newId: nat)
    requires ProtocolInv(s) && w < |s.workers| && CanAct(s, w, Prepare(newId))
    ensures ProtocolInv(Do(s, w, Prepare(newId)))
  {
    var t := Do(s, w, Prepare(newId));
    var k := s.workers[w];
    assert WorkerOk(s, k);
    if k.cache.Some? {
      IdleFiberNoToken(s, w, k.cache.value);
      LocalKeeps(s, t, w, k.cache.value);
    } else {
      UnknownFiber(s, newId);
      LocalKeeps(s, t, w, newId);
    }
  }

  lemma EnterKeeps(s: Sys, w: nat)
    requires ProtocolInv(s) && w < |s.workers| && CanAct(s, w, Enter)
    ensures ProtocolInv(Do(s, w, Enter))
  {
    var f := s.workers[w].pc.f;
    assert WorkerOk(s, s.workers[w]);
    IdleFiberNoToken(s, w, f);
    LocalKeeps(s, Do(s, w, Enter), w, f);
  }

  lemma SwapOutKeeps(s: Sys, w: nat)
    requires ProtocolInv(s) && w < |s.workers| && CanAct(s, w, SwapOut)
    ensures ProtocolInv(Do(s, w, SwapOut))
  {
    var f := s.workers[w].pc.f;
    assert WorkerOk(s, s.workers[w]);
    OwnerAlone(s, w, f);
    LocalKeeps(s, Do(s, w, SwapOut), w, f);
  }

  lemma FinishKeeps(s: Sys, w: nat, failed: bool)
    requires ProtocolInv(s) && w < |s.workers| && CanAct(s, w, Finish(failed))
    ensures ProtocolInv(Do(s, w, Finish(failed)))
  {
    var f := s.workers[w].pc.f;
    assert WorkerOk(s, s.workers[w]);
    OwnerAlone(s, w, f);
    LocalKeeps(s, Do(s, w, Finish(failed)), w, f);
  }

  /** Setting aside a fiber that did not ask to be queued again. */
  lemma SetAsideShape(s: Sys, w: nat, f: nat)
    requires w < |s.workers| && f in s.fibers && s.fibers[f].state != READY
    ensures var t, x, isCb := SetAside(s, w, f), s.fibers[f], s.workers[w].cache == Some(f);
            && t == s.(fibers := t.fibers, workers := t.workers)
            && t.workers == s.workers[w := Worker(Scanning, if isCb && !Dead(x) then None else s.workers[w].cache)]
            && f in t.fibers && t.fibers[f] == (if !Dead(x) then x.(state := HOLD) else if isCb then Fiber(INIT, true) else x)
            && (forall g :: g != f ==> (g in t.fibers <==> g in s.fibers) && (g in s.fibers ==> t.fibers[g] == s.fibers[g]))
  {
  }

  lemma SettleLocal(s: Sys, w: nat)
    requires ProtocolInv(s) && w < |s.workers| && CanAct(s, w, Settle)
    ensures var f, t := s.workers[w].pc.f, Do(s, w, Settle);
            && Local(s, t, w, f) && WorkerOk(t, t.workers[w])
            && t.io == s.io && t.queue == s.queue && t.timers == s.timers && t.workers[w].pc == Scanning
  {
    var f := s.workers[w].pc.f;
    assert WorkerOk(s, s.workers[w]);
    OwnerAlone(s, w, f);
    SetAsideShape(s, w, f);
    AsideLocal(s, SetAside(s, w, f), w, f);
  }

  lemma AsideLocal(s: Sys, t: Sys, w: nat, f: nat)
    requires w < |s.workers| == |t.workers| && WorkerOk(s, s.workers[w]) && s.workers[w].pc == Settling(f)
    requires forall v :: 0 <= v < |s.workers| && v != w ==> t.workers[v] == s.workers[v] && !Owns(s.workers[v], f)
    requires forall g :: g != f ==> (g in t.fibers <==> g in s.fibers) && (g in s.fibers ==> t.fibers[g] == s.fibers[g])
    requires t.workers[w].pc == Scanning && f in t.fibers
    requires t.workers[w].cache in {None, s.workers[w].cache}
    requires t.workers[w].cache == Some(f) ==> t.fibers[f] == Fiber(INIT, true)
    requires s.workers[w].cache.Some? && s.workers[w].cache != Some(f) ==> t.workers[w].cache == s.workers[w].cache
    ensures Local(s, t, w, f) && WorkerOk(t, t.workers[w])
  {
  }

  lemma SettleKeeps(s: Sys, w: nat)
    requires ProtocolInv(s) && w < |s.workers| && CanAct(s, w, Settle)
    ensures ProtocolInv(Do(s, w, Settle))
  {
    var f := s.workers[w].pc.f;
    var t := Do(s, w, Settle);
    assert WorkerOk(s, s.workers[w]);
    OwnerAlone(s, w, f);
    SettleLocal(s, w);
    if Dead(s.fibers[f]) {
      IdleFiberNoToken(s, w, f);
    } else {
      assert f in s.fibers && Unowned(t, f);
    }
    LocalKeeps(s, t, w, f);
  }

  // ----- steps that only move tokens between list, slots and timers -----

  lemma PulledKeeps(s: Sys, t: Sys, pre: Source -> Source)
    requires ProtocolInv(s) && FdEvents.Inv(t.io) && t.fibers == s.fibers && t.workers == s.workers
    requires forall a: Source :: TargetAt(t, a).Some? ==> TargetAt(s, pre(a)) == TargetAt(t, a)
    requires forall a: Source, b: Source :: a != b && TargetAt(t, a).Some? && TargetAt(t, b).Some? ==> pre(a) != pre(b)
    ensures ProtocolInv(t)
  {
    UniquePull(s, t, pre);
    SameOwnership(s, t);
    forall a: Source | TargetAt(t, a).Some? ensures TokenOk(t, TargetAt(t, a).value)
    {
      assert TargetAt(s, pre(a)) == TargetAt(t, a);
    }
  }

  lemma SameOwnership(s: Sys, t: Sys)
    requires t.fibers == s.fibers && t.workers == s.workers
    ensures FiberInv(s) ==> FiberInv(t)
    ensures forall g :: TokenOk(s, g) ==> TokenOk(t, g)
  {
    SamePeople(s, t);
    if FiberInv(s) {
      forall v | 0 <= v < |t.workers| ensures WorkerOk(t, t.workers[v])
      {
        assert WorkerOk(s, s.workers[v]);
      }
    }
  }

  /** A running fiber may get its one token. */
  lemma NewTokenKeeps(s: Sys, t: Sys, w: nat, place: Source, f: nat)
    requires ProtocolInv(s) && FdEvents.Inv(t.io) && t.fibers == s.fibers && t.workers == s.workers
    requires w < |s.workers| && s.workers[w].pc.Executing? && s.workers[w].pc.f == f && NoToken(s, f)
    requires forall a: Source :: a != place && TargetAt(t, a).Some? ==> TargetAt(s, a) == TargetAt(t, a)
    requires TargetAt(t, place).Some? ==> TargetAt(t, place) == Some(f)
    ensures ProtocolInv(t)
  {
    UniqueNew(s, t, place, f);
    SameOwnership(s, t);
    assert WorkerOk(s, s.workers[w]);
    OwnerAlone(s, w, f);
    assert TokenOk(s, f);
    forall a: Source | TargetAt(t, a).Some? ensures TokenOk(t, TargetAt(t, a).value)
    {
      if a != place { assert TargetAt(s, a) == TargetAt(t, a); }
    }
  }

  lemma PushCbKeeps(s: Sys, cb: nat, thread: Option<nat>)
    requires ProtocolInv(s)
    ensures ProtocolInv(Push(s, [Task(CbWork(cb), thread)]))
  {
    PulledKeeps(s, Push(s, [Task(CbWork(cb), thread)]), a => a);
  }

  lemma ScheduleSelfKeeps(s: Sys, w: nat)
    requires ProtocolInv(s) && w < |s.workers| && CanAct(s, w, ScheduleSelf)
    ensures ProtocolInv(Do(s, w, ScheduleSelf))
  {
    NewTokenKeeps(s, Do(s, w, ScheduleSelf), w, InQueue(|s.queue|), s.workers[w].pc.f);
  }

  lemma StartTimerKeeps(s: Sys, w: nat, id: nat, timer: Timer)
    requires ProtocolInv(s) && w < |s.workers| && CanAct(s, w, StartTimer(id, timer))
    ensures ProtocolInv(Do(s, w, StartTimer(id, timer)))
  {
    var t := Do(s, w, StartTimer(id, timer));
    if TimerWork(timer).WakeWork? {
      NewTokenKeeps(s, t, w, AtTimer(id), s.workers[w].pc.f);
    } else {
      PulledKeeps(s, t, a => a);
    }
  }

  /** Where a token was before timers were collected. */
  function CollectSource(w: nat, ts: seq<nat>, a: Source): Source {
    if a.InBatch? && a.w == w && a.i < |ts| then AtTimer(ts[a.i]) else a
  }

  lemma CollectPulls(s: Sys, w: nat, act: Act, a: Source)
    requires ProtocolInv(s) && w < |s.workers| && act.Collect? && CanAct(s, w, act)
    requires TargetAt(Do(s, w, act), a).Some?
    ensures TargetAt(s, CollectSource(w, act.ts, a)) == TargetAt(Do(s, w, act), a)
    ensures a.AtTimer? ==> a.t !in act.ts
    ensures a.InBatch? && a.w == w ==> a.i < |act.ts|
  {
  }

  /** A worker that only moves its own tokens about. */
  lemma ShiftKeeps(s: Sys, t: Sys, w: nat, pre: Source -> Source)
    requires ProtocolInv(s) && FdEvents.Inv(t.io) && Moved(s, t, w) && WorkerOk(t, t.workers[w])
    requires forall a: Source :: TargetAt(t, a).Some? ==> TargetAt(s, pre(a)) == TargetAt(t, a)
    requires forall a: Source, b: Source :: a != b && TargetAt(t, a).Some? && TargetAt(t, b).Some? ==> pre(a) != pre(b)
    ensures ProtocolInv(t)
  {
    MovedFibers(s, t, w);
    UniquePull(s, t, pre);
    forall a: Source | TargetAt(t, a).Some? ensures TokenOk(t, TargetAt(t, a).value)
    {
      assert TargetAt(s, pre(a)) == TargetAt(t, a);
      MovedToken(s, t, w, TargetAt(t, a).value);
    }
  }

  lemma CollectKeeps(s: Sys, w: nat, act: Act)
    requires ProtocolInv(s) && w < |s.workers| && act.Collect? && CanAct(s, w, act)
    ensures ProtocolInv(Do(s, w, act))
  {
    var t, ts := Do(s, w, act), act.ts;
    var pre := a => CollectSource(w, ts, a);
    forall a: Source | TargetAt(t, a).Some?
      ensures TargetAt(s, pre(a)) == TargetAt(t, a) && (a.AtTimer? ==> a.t !in ts)
      ensures a.InBatch? && a.w == w ==> a.i < |ts|
    {
      CollectPulls(s, w, act, a);
    }
    ShiftKeeps(s, t, w, pre);
  }

  /** Where a token was before collected callbacks were queued. */
  function FlushSource(q: nat, w: nat, a: Source): Source { if a.InQueue? && a.i >= q then InBatch(w, a.i - q) else a }

  lemma FlushPulls(s: Sys, w: nat, a: Source)
    requires ProtocolInv(s) && w < |s.workers| && CanAct(s, w, Flush)
    requires TargetAt(Do(s, w, Flush), a).Some?
    ensures TargetAt(s, FlushSource(|s.queue|, w, a)) == TargetAt(Do(s, w, Flush), a)
    ensures !(a.InBatch? && a.w == w)
  {
  }

  lemma FlushKeeps(s: Sys, w: nat)
    requires ProtocolInv(s) && w < |s.workers| && CanAct(s, w, Flush)
    ensures ProtocolInv(Do(s, w, Flush))
  {
    var t := Do(s, w, Flush);
    var pre := a => FlushSource(|s.queue|, w, a);
    forall a: Source | TargetAt(t, a).Some?
      ensures TargetAt(s, pre(a)) == TargetAt(t, a) && !(a.InBatch? && a.w == w)
    {
      FlushPulls(s, w, a);
    }
    ShiftKeeps(s, t, w, pre);
  }

  /** What a slot would run, after an operation that triggers. */
  lemma SlotsAfterFire(io: Io, op: Op, fd: nat, ev: Event)
    requires FdEvents.Inv(io) && Safe(io, op) && Triggers(op)
    ensures SlotWork(Apply(io, op).0, fd, ev) == if fd == op.fd && ev in Fired(io, op) then None else SlotWork(io, fd, ev)
  {
    ApplyFires(io, op);
    StepBalance(io, op, Slot(fd, ev));
  }

  /** Where a token was before slots fired: the new tasks come from the slots, reading first. */
  function FireSource(q: nat, fd: nat, evs: set<Event>, a: Source): Source {
    if a.InQueue? && a.i >= q then AtSlot(fd, if READ in evs && a.i == q then READ else WRITE) else a
  }

  lemma FirePulls(s: Sys, op: Op, a: Source)
    requires ProtocolInv(s) && Safe(s.io, op) && Triggers(op)
    requires TargetAt(DoIo(s, op), a).Some?
    ensures TargetAt(s, FireSource(|s.queue|, op.fd, Fired(s.io, op), a)) == TargetAt(DoIo(s, op), a)
    ensures a.AtSlot? ==> !(a.fd == op.fd && a.ev in Fired(s.io, op))
    ensures a.InQueue? ==> a.i < |s.queue| + Count(Fired(s.io, op))
  {
    FiredWork(s.io, op);
    if a.AtSlot? { SlotsAfterFire(s.io, op, a.fd, a.ev); }
  }

  lemma FireKeeps(s: Sys, op: Op)
    requires ProtocolInv(s) && Safe(s.io, op) && Triggers(op)
    ensures ProtocolInv(DoIo(s, op))
  {
    var t, evs, q := DoIo(s, op), Fired(s.io, op), |s.queue|;
    var pre := a => FireSource(q, op.fd, evs, a);
    StepBalance(s.io, op, Slot(0, READ));
    forall a: Source | TargetAt(t, a).Some?
      ensures TargetAt(s, pre(a)) == TargetAt(t, a)
      ensures a.AtSlot? ==> !(a.fd == op.fd && a.ev in evs)
      ensures a.InQueue? ==> a.i < q + Count(evs)
    {
      FirePulls(s, op, a);
    }
    PulledKeeps(s, t, pre);
  }

  lemma DelKeepsProtocol(s: Sys, op: Op)
    requires ProtocolInv(s) && op.DelEvent?
    ensures ProtocolInv(DoIo(s, op))
  {
    StepBalance(s.io, op, Slot(0, READ));
    PulledKeeps(s, DoIo(s, op), a => a);
  }

  lemma EnlargeKeepsProtocol(s: Sys, op: Op)
    requires ProtocolInv(s) && op.Enlarge? && Safe(s.io, op)
    ensures ProtocolInv(DoIo(s, op))
  {
    GrowKeeps(s.io, op.fd);
    PulledKeeps(s, DoIo(s, op), a => a);
  }

  /** What a slot would run, after a registration. */
  lemma SlotsAfterAdd(io: Io, op: Op, fd: nat, ev: Event)
    requires FdEvents.Inv(io) && op.AddEvent? && Safe(io, op)
    ensures var x := SlotWork(Apply(io, op).0, fd, ev);
            if op.ok && fd == op.fd && ev == op.ev then x == Some(Requested(op.req)) || (x.Some? && x.value.CbWork?)
            else x == SlotWork(io, fd, ev)
  {
  }

  /** A registration brings at most the one token it asks for. */
  lemma AddTokens(s: Sys, op: Op, a: Source)
    requires ProtocolInv(s) && op.AddEvent? && Safe(s.io, op)
    ensures a != AtSlot(op.fd, op.ev) || !op.ok ==> TargetAt(DoIo(s, op), a) == TargetAt(s, a)
    ensures a == AtSlot(op.fd, op.ev) && op.ok ==> TargetAt(DoIo(s, op), a) in {None, Target(Requested(op.req))}
  {
    if a.AtSlot? { SlotsAfterAdd(s.io, op, a.fd, a.ev); }
  }

  lemma AddKeepsProtocol(s: Sys, w: nat, op: Op)
    requires ProtocolInv(s) && w < |s.workers| && op.AddEvent? && CanAct(s, w, CallIo(op))
    ensures ProtocolInv(DoIo(s, op))
  {
    var t, place := DoIo(s, op), AtSlot(op.fd, op.ev);
    StepBalance(s.io, op, Slot(0, READ));
    if op.ok && op.req.CurrentFiber? {
      forall a: Source | a != place ensures TargetAt(t, a) == TargetAt(s, a) { AddTokens(s, op, a); }
      AddTokens(s, op, place);
      NewTokenKeeps(s, t, w, place, op.req.f);
    } else {
      AddNothing(s, op);
    }
  }

  /** A registration of a callback, or one that fails, brings none. */
  lemma AddNothing(s: Sys, op: Op)
    requires ProtocolInv(s) && op.AddEvent? && Safe(s.io, op) && (op.ok ==> op.req.Callback?)
    ensures ProtocolInv(DoIo(s, op))
  {
    var t := DoIo(s, op);
    StepBalance(s.io, op, Slot(0, READ));
    forall a: Source ensures TargetAt(t, a) == None || TargetAt(t, a) == TargetAt(s, a) { AddTokens(s, op, a); }
    PulledKeeps(s, t, a => a);
  }

  lemma IoKeepsProtocol(s: Sys, op: Op)
    requires ProtocolInv(s) && Safe(s.io, op) && !op.AddEvent?
    ensures ProtocolInv(DoIo(s, op))
  {
    if op.DelEvent? { DelKeepsProtocol(s, op); }
    else if op.Enlarge? { EnlargeKeepsProtocol(s, op); }
    else { FireKeeps(s, op); }
  }

  lemma CalledKeeps(s: Sys, call: Call)
    requires ProtocolInv(s) && CanCall(s, call)
    ensures ProtocolInv(Called(s, call))
  {
    match call
    case Submitting(cb, thread) => PushCbKeeps(s, cb, thread);
    case CallingIo(op) => if op.AddEvent? { AddNothing(s, op); } else { IoKeepsProtocol(s, op); }
    case SettingTimer(_, _) => PulledKeeps(s, Called(s, call), a => a);
    case CancellingTimer(_) => PulledKeeps(s, Called(s, call), a => a);
  }

  // ----- every run -----

  /** The worker loop and the idle worker. */
  predicate OfLoop(act: Act) {
    || act.Take? || act.Resume? || act.DropDead? || act.Prepare? || act.Enter? || act.CountDown? || act.Settle?
    || act.Deliver? || act.Collect? || act.Flush?
  }

  lemma LoopKeeps(s: Sys, w: nat, act: Act)
    requires ProtocolInv(s) && w < |s.workers| && OfLoop(act) && CanAct(s, w, act)
    ensures ProtocolInv(Do(s, w, act))
  {
    match act
    case Take => TakeKeeps(s, w);
    case Resume => ResumeKeeps(s, w);
    case DropDead => DropDeadKeeps(s, w);
    case Prepare(newId) => PrepareKeeps(s, w, newId);
    case Enter => EnterKeeps(s, w);
    case CountDown => CountDownKeeps(s, w);
    case Settle => SettleKeeps(s, w);
    case Deliver(op) => FireKeeps(s, op);
    case Collect(_, _, _) => CollectKeeps(s, w, act);
    case Flush => FlushKeeps(s, w);
  }

  /** The code a fiber runs. */
  lemma CodeKeeps(s: Sys, w: nat, act: Act)
    requires ProtocolInv(s) && w < |s.workers| && !OfLoop(act) && CanAct(s, w, act)
    ensures ProtocolInv(Do(s, w, act))
  {
    match act
    case RunWake => RunWakeKeeps(s, w);
    case SwapOut => SwapOutKeeps(s, w);
    case Finish(failed) => FinishKeeps(s, w, failed);
    case Submit(cb, thread) => PushCbKeeps(s, cb, thread);
    case ScheduleSelf => ScheduleSelfKeeps(s, w);
    case CallIo(op) => if op.AddEvent? { AddKeepsProtocol(s, w, op); } else { IoKeepsProtocol(s, op); }
    case StartTimer(t, timer) => StartTimerKeeps(s, w, t, timer);
    case CancelTimer(t) => PulledKeeps(s, Do(s, w, act), a => a);
  }

  lemma StepKeeps(s: Sys, e: Step)
    requires ProtocolInv(s) && Enabled(s, e)
    ensures ProtocolInv(Next(s, e))
  {
    match e
    case External(call) => CalledKeeps(s, call);
    case Stop => PulledKeeps(s, Next(s, e), a => a);
    case Clock(_) => PulledKeeps(s, Next(s, e), a => a);
    case By(w, act) => if OfLoop(act) { LoopKeeps(s, w, act); } else { CodeKeeps(s, w, act); }
  }

  ghost predicate RunOk(s: Sys, es: seq<Step>)
    requires ProtocolInv(s)
    decreases |es|
  {
    es == [] || (Enabled(s, es[0]) && (StepKeeps(s, es[0]); RunOk(Next(s, es[0]), es[1..])))
  }

  ghost function RunFrom(s: Sys, es: seq<Step>): Sys
    requires ProtocolInv(s) && RunOk(s, es)
    decreases |es|
  {
    if es == [] then s
    else
      StepKeeps(s, es[0]);
      RunFrom(Next(s, es[0]), es[1..])
  }

  /** `n` workers at the top of their loops, nothing queued, registered or created. */
  ghost function StartSys(n: nat, slots: nat): Sys
  {
    Sys(Start(slots), 0, map[], [], map[], seq(n, _ => Worker(Scanning, None)), 0, false, multiset{}, multiset{})
  }

  lemma StartKeeps(n: nat, slots: nat)
    requires slots >= 32
    ensures ProtocolInv(StartSys(n, slots))
  {
    StartOk(slots);
  }

  lemma {:induction false} RunKeeps(s: Sys, es: seq<Step>)
    requires ProtocolInv(s) && RunOk(s, es)
    ensures ProtocolInv(RunFrom(s, es))
    decreases |es|
  {
    if es != [] {
      StepKeeps(s, es[0]);
      RunKeeps(Next(s, es[0]), es[1..]);
    }
  }

  /** In every run under the one-wake-up discipline no fiber is in the hands of two workers, and a
      worker that is about to switch to a fiber finds its context saved and nobody on it, however
      early its event or timer fired. */
  lemma NoFiberRunsTwice(n: nat, slots: nat, es: seq<Step>)
    requires slots >= 32
    ensures ProtocolInv(StartSys(n, slots))
    ensures RunOk(StartSys(n, slots), es) ==>
              var s := RunFrom(StartSys(n, slots), es);
              && (forall v, w, f :: 0 <= v < w < |s.workers| && Subject(s.workers[v].pc) == Some(f) ==> Subject(s.workers[w].pc) != Some(f))
              && (forall w, f :: 0 <= w < |s.workers| && s.workers[w].pc == Holding(FiberWork(f)) ==>
                    && f in s.fibers && s.fibers[f].saved && s.fibers[f].state != RUNING
                    && forall v :: 0 <= v < |s.workers| ==> Subject(s.workers[v].pc) != Some(f))
  {
    StartKeeps(n, slots);
    if RunOk(StartSys(n, slots), es) {
      RunKeeps(StartSys(n, slots), es);
      var s := RunFrom(StartSys(n, slots), es);
      forall v, w, f | 0 <= v < w < |s.workers| && Subject(s.workers[v].pc) == Some(f)
        ensures Subject(s.workers[w].pc) != Some(f)
      {
        assert Owns(s.workers[v], f) && !Owns(s.workers[w], f);
      }
      forall w, f | 0 <= w < |s.workers| && s.workers[w].pc == Holding(FiberWork(f))
        ensures f in s.fibers && s.fibers[f].saved && s.fibers[f].state != RUNING
        ensures forall v :: 0 <= v < |s.workers| ==> Subject(s.workers[v].pc) != Some(f)
      {
        assert WorkerOk(s, s.workers[w]);
        forall v | 0 <= v < |s.workers| ensures Subject(s.workers[v].pc) != Some(f)
        {
          assert !Owns(s.workers[v], f);
        }
      }
    }
  }

  // ----- READY -----

  predicate NoneReady(s: Sys) { forall f :: f in s.fibers ==> s.fibers[f].state != READY }

  lemma LoopNotReady(s: Sys, w: nat, act: Act)
    requires ProtocolInv(s) && NoneReady(s) && w < |s.workers| && OfLoop(act) && CanAct(s, w, act)
    ensures NoneReady(Do(s, w, act))
  {
    if act.Settle? {
      SetAsideShape(s, w, s.workers[w].pc.f);
    }
  }

  lemma CodeNotReady(s: Sys, w: nat, act: Act)
    requires ProtocolInv(s) && NoneReady(s) && w < |s.workers| && !OfLoop(act) && CanAct(s, w, act)
    ensures NoneReady(Do(s, w, act))
  {
  }

  lemma {:induction false} RunNotReady(s: Sys, es: seq<Step>)
    requires ProtocolInv(s) && NoneReady(s) && RunOk(s, es)
    ensures NoneReady(RunFrom(s, es))
    decreases |es|
  {
    if es != [] {
      var e := es[0];
      StepKeeps(s, e);
      if e.By? {
        if OfLoop(e.act) { LoopNotReady(s, e.w, e.act); } else { CodeNotReady(s, e.w, e.act); }
      }
      RunNotReady(Next(s, e), es[1..]);
    }
  }

  /** In no run is a fiber ever READY: the branches of `run` that queue such a fiber again, after the active count
      went down, are never taken. */
  lemma NeverReady(n: nat, slots: nat, es: seq<Step>)
    requires slots >= 32
    ensures ProtocolInv(StartSys(n, slots))
    ensures RunOk(StartSys(n, slots), es) ==> NoneReady(RunFrom(StartSys(n, slots), es))
  {
    StartKeeps(n, slots);
    if RunOk(StartSys(n, slots), es) { RunNotReady(StartSys(n, slots), es); }
  }
}
