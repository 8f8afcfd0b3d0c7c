/** The scheduler's task list: submitting work and the scan by which a worker takes a task. */
module Scheduling {
  import opened Bytes
  import opened FdEvents

  /** A task may be pinned to one worker thread. */
  datatype Task = Task(work: Work, thread: Option<nat>)

  predicate PinnedElsewhere(t: Task, me: nat) { t.thread.Some? && t.thread.value != me }

  /** The scan passes over tasks of other threads and over fibers that have not been set aside by
      the worker that ran them last. */
  predicate Eligible(t: Task, me: nat, running: set<nat>)
  {
    !PinnedElsewhere(t, me) && !(t.work.FiberWork? && t.work.f in running)
  }

  /** The index of the first eligible task, or the length if there is none. */
  function FirstEligible(q: seq<Task>, me: nat, running: set<nat>): nat
  {
    if q == [] || Eligible(q[0], me, running) then 0 else 1 + FirstEligible(q[1..], me, running)
  }

  lemma {:induction false} FirstEligibleIs(q: seq<Task>, me: nat, running: set<nat>, i: nat)
    requires i <= |q| && (forall j :: 0 <= j < i ==> !Eligible(q[j], me, running))
    requires i < |q| ==> Eligible(q[i], me, running)
    ensures FirstEligible(q, me, running) == i
  {
    if i > 0 { FirstEligibleIs(q[1..], me, running, i - 1); }
  }

  lemma {:induction false} FirstEligibleBounds(q: seq<Task>, me: nat, running: set<nat>)
    ensures var i := FirstEligible(q, me, running);
            && i <= |q| && (i < |q| ==> Eligible(q[i], me, running))
            && forall j :: 0 <= j < i ==> !Eligible(q[j], me, running)
  {
    if q != [] && !Eligible(q[0], me, running) {
      FirstEligibleBounds(q[1..], me, running);
    }
  }

  function RemoveAt(q: seq<Task>, i: nat): seq<Task>
    requires i < |q|
  {
    q[..i] + q[i + 1..]
  }

  /** The tasks for a list of work, any thread. */
  function Unpinned(ws: seq<Work>): (ts: seq<Task>)
    ensures |ts| == |ws| && forall i :: 0 <= i < |ws| ==> ts[i] == Task(ws[i], None)
  {
    seq(|ws|, i requires 0 <= i < |ws| => Task(ws[i], None))
  }

  class Scheduler {
    var fibers: seq<Task>
    var active: nat
    var idle: nat
    var stopFlag: bool
    var autoStop: bool

    constructor ()
      ensures fibers == [] && active == 0 && idle == 0 && stopFlag && !autoStop
    {
      fibers, active, idle, stopFlag, autoStop := [], 0, 0, true, false;
    }

    /** An empty fiber and callback is not queued; a wake-up is due if the list was empty. */
    method ScheduleNoLock(work: Option<Work>, thread: Option<nat>) returns (needTickle: bool)
      modifies this`fibers
      ensures fibers == old(fibers) + (if work.Some? then [Task(work.value, thread)] else [])
      ensures needTickle <==> old(fibers) == []
    {
      needTickle := fibers == [];
      if work.Some? {
        fibers := fibers + [Task(work.value, thread)];
      }
    }

    /** Submit a range under one lock. */
    method ScheduleRange(works: seq<Work>) returns (needTickle: bool)
      modifies this`fibers
      ensures fibers == old(fibers) + Unpinned(works)
      ensures needTickle <==> old(fibers) == [] && works != []
    {
      needTickle := false;
      for i := 0 to |works|
        invariant fibers == old(fibers) + Unpinned(works)[..i]
        invariant needTickle <==> old(fibers) == [] && i > 0
      {
        var t := ScheduleNoLock(Some(works[i]), None);
        needTickle := t || needTickle;
        assert Unpinned(works)[..i + 1] == Unpinned(works)[..i] + [Unpinned(works)[i]];
      }
    }

    /** The locked scan of `run`: take the first eligible task. Others are told to look if a task
        of another thread was passed over, or tasks are left behind the one taken. */
    method TakeTask(me: nat, running: set<nat>) returns (ft: Option<Task>, tickleMe: bool)
      modifies this`fibers, this`active
      ensures var q, i := old(fibers), FirstEligible(old(fibers), me, running);
              && i <= |q|
              && ft == (if i < |q| then Some(q[i]) else None)
              && fibers == (if i < |q| then RemoveAt(q, i) else q)
              && active == old(active) + (if i < |q| then 1 else 0)
              && (tickleMe <==> (exists j :: 0 <= j < i && PinnedElsewhere(q[j], me)) || i + 1 < |q|)
      ensures ft.Some? ==> ft.value.thread in {None, Some(me)} && forall f :: ft.value.work == FiberWork(f) ==> f !in running
      ensures ft.None? ==> forall t :: t in old(fibers) ==>
                (t.thread != None && t.thread != Some(me)) || (exists f :: f in running && t.work == FiberWork(f))
    {
      ft, tickleMe := None, false;
      var it := 0;
      while it < |fibers| && ft.None?
        invariant 0 <= it <= |old(fibers)|
        invariant forall j :: 0 <= j < it ==> !Eligible(old(fibers)[j], me, running)
        invariant ft.None? ==> fibers == old(fibers) && active == old(active)
        invariant ft.None? ==> (tickleMe <==> exists j :: 0 <= j < it && PinnedElsewhere(old(fibers)[j], me))
        invariant ft.Some? ==> it < |old(fibers)| && Eligible(old(fibers)[it], me, running)
        invariant ft.Some? ==> ft.value == old(fibers)[it] && fibers == RemoveAt(old(fibers), it) && active == old(active) + 1
        invariant ft.Some? ==> (tickleMe <==> exists j :: 0 <= j < it && PinnedElsewhere(old(fibers)[j], me))
        decreases |old(fibers)| - it, ft.None?
      {
        var t := fibers[it];
        if PinnedElsewhere(t, me) {
          it := it + 1;
          tickleMe := true;
        } else if t.work.FiberWork? && t.work.f in running {
          it := it + 1;
        } else {
          ft := Some(t);
          fibers := RemoveAt(fibers, it);
          active := active + 1;
        }
      }
      tickleMe := tickleMe || it != |fibers|;
      FirstEligibleIs(old(fibers), me, running, it);
      if ft.None? {
        forall t | t in old(fibers) && !PinnedElsewhere(t, me) ensures exists f :: f in running && t.work == FiberWork(f)
        {
          assert !Eligible(t, me, running) && t.work == FiberWork(t.work.f);
        }
      }
    }

    predicate Stopping()
      reads this
    {
      autoStop && stopFlag && active == 0 && fibers == []
    }
  }
}
