/**
 Runs of the scheduler: any sequence of steps, with a clock that does not go back.
 */
module SchedRuns {
  import opened Timers
  import opened SchedModel
  import opened SchedSteps

  /** `thread_timerfd_handler`: the four trees are emptied of what is due, one after the other. */
  ghost function TimerFd(s: Sched, now: Timeval): Sched {
    var s1 := Expire(s, OnRead, ReadTimeout, now);
    var s2 := Expire(s1, OnWrite, WriteTimeout, now);
    var s3 := Expire(s2, OnTimer, ReadyTimer, now);
    Expire(s3, OnChild, ChildTimeout, now)
  }

  datatype World = World(s: Sched, now: Timeval)

  datatype Step =
    | Tick(time: Timeval)
    | AddThread(spare: nat, thread: Thread)
    | FdReady(t: nat, kind: ThreadType)
    | TimerFired
    | FetchNext
    | FinishCurrent
    | CancelThread(t: nat)
    | ChildDied(t: nat)
    | CleanUp(keep: bool)
    | RescheduleChildren(sands: Timeval)
    | ChangeTimeout(t: nat, sands: Timeval)
    | RequeueRead(t: nat, sands: Timeval)

  /** What an epoll event makes of a thread. */
  predicate FdKind(k: Queue, kind: ThreadType) {
    || (k == OnRead && (kind == ReadyReadFd || kind == ReadError))
    || (k == OnWrite && (kind == ReadyWriteFd || kind == WriteError))
  }

  ghost predicate Enabled(w: World, step: Step) {
    var s := w.s;
    match step
    case Tick(time) => !Earlier(time, w.now)
    case AddThread(spare, r) => spare !in s.threads && spare != 0 && Addable(r)
    case FdReady(t, kind) => t in s.threads && FdKind(s.threads[t].at, kind)
    case FetchNext => At(s, Running) == []
    case CancelThread(t) => t in s.threads && s.threads[t].at != Running
    case ChildDied(t) => t in s.threads && t in s.pids
    case ChangeTimeout(t, sands) => t in s.threads && MayUpdate(s.threads[t], sands)
    case RequeueRead(t, _) => t in s.threads
    case _ => true
  }

  ghost function Next(w: World, step: Step): World
    requires Enabled(w, step)
  {
    match step
    case Tick(time) => World(w.s, time)
    case AddThread(spare, r) => World(Add(w.s, spare, r), w.now)
    case FdReady(t, kind) => World(MoveReady(w.s, t, kind), w.now)
    case TimerFired => World(TimerFd(w.s, w.now), w.now)
    case FetchNext => World(Fetch(w.s), w.now)
    case FinishCurrent => World(Finish(w.s), w.now)
    case CancelThread(t) => World(Cancel(w.s, t), w.now)
    case ChildDied(t) => World(ChildExit(w.s, t), w.now)
    case CleanUp(keep) => World(Cleanup(w.s, keep), w.now)
    case RescheduleChildren(sands) => World(Reschedule(w.s, sands), w.now)
    case ChangeTimeout(t, sands) => World(Update(w.s, t, sands), w.now)
    case RequeueRead(t, sands) => World(Requeue(w.s, t, sands), w.now)
  }

  /** From `thread_make_master`, each state follows from the one before. */
  ghost predicate IsRun(ws: seq<World>, steps: seq<Step>) {
    && |ws| == |steps| + 1 && ws[0].s == IDLE
    && forall i :: 0 <= i < |steps| ==> Enabled(ws[i], steps[i]) && ws[i + 1] == Next(ws[i], steps[i])
  }

  // ----- Every step keeps the invariant

  lemma {:induction false} TimerFdKeeps(s: Sched, now: Timeval)
    requires Inv(s)
    ensures Inv(TimerFd(s, now))
  {
    ExpireKeeps(s, OnRead, ReadTimeout, now);
    var s1 := Expire(s, OnRead, ReadTimeout, now);
    ExpireKeeps(s1, OnWrite, WriteTimeout, now);
    var s2 := Expire(s1, OnWrite, WriteTimeout, now);
    ExpireKeeps(s2, OnTimer, ReadyTimer, now);
    ExpireKeeps(Expire(s2, OnTimer, ReadyTimer, now), OnChild, ChildTimeout, now);
  }

  lemma {:induction false} NextKeeps(w: World, step: Step)
    requires Inv(w.s) && Enabled(w, step)
    ensures Inv(Next(w, step).s)
  {
    match step
    case Tick(_) =>
    case AddThread(spare, r) => AddKeeps(w.s, spare, r);
    case FdReady(t, kind) => MoveReadyKeeps(w.s, t, kind);
    case TimerFired => TimerFdKeeps(w.s, w.now);
    case FetchNext => FetchKeeps(w.s);
    case FinishCurrent => FinishKeeps(w.s);
    case CancelThread(t) => CancelKeeps(w.s, t);
    case ChildDied(t) => ChildExitKeeps(w.s, t);
    case CleanUp(keep) => CleanupKeeps(w.s, keep);
    case RescheduleChildren(sands) => RescheduleKeeps(w.s, sands);
    case ChangeTimeout(t, sands) => UpdateKeeps(w.s, t, sands);
    case RequeueRead(t, sands) => RequeueKeeps(w.s, t, sands);
  }

  // ----- No timer fires early

  /** The thread is ready, or running, because its time was up. */
  predicate TimedOut(t: Thread) {
    || t.kind == ReadTimeout || t.kind == WriteTimeout || t.kind == ReadyTimer || t.kind == ChildTimeout
    || (t.kind == TimerShutdown && t.at != OnTimer)
  }

  ghost predicate OnTime(threads: map<nat, Thread>, now: Timeval) {
    forall t :: t in threads && TimedOut(threads[t]) ==> Due(threads[t].sands, now)
  }

  lemma {:induction false} ExpireOnTime(s: Sched, k: Queue, kind: ThreadType, now: Timeval)
    requires Holds(s.threads, k, At(s, k)) && IsTree(k) && OnTime(s.threads, now)
    ensures OnTime(Expire(s, k, kind, now).threads, now)
  {
    forall t | t in s.threads ensures
      var r := Expire(s, k, kind, now).threads[t]; TimedOut(r) ==> Due(r.sands, now)
    {
      ExpireExact(s, k, kind, now, t);
    }
  }

  lemma {:induction false} TimerFdOnTime(s: Sched, now: Timeval)
    requires Inv(s) && OnTime(s.threads, now)
    ensures OnTime(TimerFd(s, now).threads, now)
  {
    ExpireOnTimeInv(s, OnRead, ReadTimeout, now);
    var s1 := Expire(s, OnRead, ReadTimeout, now);
    ExpireOnTimeInv(s1, OnWrite, WriteTimeout, now);
    var s2 := Expire(s1, OnWrite, WriteTimeout, now);
    ExpireOnTimeInv(s2, OnTimer, ReadyTimer, now);
    ExpireOnTimeInv(Expire(s2, OnTimer, ReadyTimer, now), OnChild, ChildTimeout, now);
  }

  lemma {:induction false} ExpireOnTimeInv(s: Sched, k: Queue, kind: ThreadType, now: Timeval)
    requires Inv(s) && ReadyKind(k, kind) && OnTime(s.threads, now)
    ensures Inv(Expire(s, k, kind, now)) && OnTime(Expire(s, k, kind, now).threads, now)
  {
    assert Holds(s.threads, k, Look(s.q, k));
    ExpireKeeps(s, k, kind, now);
    ExpireOnTime(s, k, kind, now);
  }

  lemma OnTimeOne(threads: map<nat, Thread>, now: Timeval, t: nat, r: Thread)
    requires OnTime(threads, now) && (TimedOut(r) ==> Due(r.sands, now))
    ensures OnTime(threads[t := r], now)
  {}

  lemma {:induction false} FetchOnTime(s: Sched, now: Timeval)
    requires Queued(s.threads, s.q) && 0 !in s.threads && OnTime(s.threads, now)
    ensures OnTime(Fetch(s).threads, now)
  {
    var t := Chosen(s);
    if t in s.threads {
      FirstThere(s, if At(s, OnEvent) != [] then OnEvent else OnReady);
      OnTimeOne(s.threads, now, t, s.threads[t].(at := Running));
    }
  }

  lemma LaterOnTime(threads: map<nat, Thread>, now: Timeval, later: Timeval)
    requires OnTime(threads, now) && !Earlier(later, now)
    ensures OnTime(threads, later)
  {}

  lemma UpdateOnTime(s: Sched, t: nat, sands: Timeval, now: Timeval)
    requires t in s.threads && MayUpdate(s.threads[t], sands) && OnTime(s.threads, now)
    ensures OnTime(Update(s, t, sands).threads, now)
  {}

  lemma RequeueOnTime(s: Sched, t: nat, sands: Timeval, now: Timeval)
    requires t in s.threads && OnTime(s.threads, now)
    ensures OnTime(Requeue(s, t, sands).threads, now)
  {}

  lemma ChildExitOnTime(s: Sched, t: nat, now: Timeval)
    requires t in s.threads && Indexed(s.threads[t]) && OnTime(s.threads, now)
    ensures OnTime(ChildExit(s, t).threads, now)
  {}

  lemma AddOnTime(s: Sched, spare: nat, r: Thread, now: Timeval)
    requires Addable(r) && OnTime(s.threads, now)
    ensures OnTime(Add(s, spare, r).threads, now)
  {}

  lemma FdReadyOnTime(s: Sched, t: nat, kind: ThreadType, now: Timeval)
    requires t in s.threads && FdKind(s.threads[t].at, kind) && OnTime(s.threads, now)
    ensures OnTime(MoveReady(s, t, kind).threads, now)
  {}

  lemma RetireOnTime(s: Sched, t: nat, now: Timeval)
    requires OnTime(s.threads, now)
    ensures OnTime(Finish(s).threads, now) && (t in s.threads ==> OnTime(Cancel(s, t).threads, now))
  {}

  lemma CleanupOnTime(s: Sched, keep: bool, now: Timeval)
    requires OnTime(s.threads, now)
    ensures OnTime(Cleanup(s, keep).threads, now)
  {}

  lemma RescheduleOnTime(s: Sched, sands: Timeval, now: Timeval)
    requires OnTime(s.threads, now) && Typed(s.threads)
    ensures OnTime(Reschedule(s, sands).threads, now)
  {}

  lemma {:induction false} NextOnTime(w: World, step: Step)
    requires Inv(w.s) && Enabled(w, step) && OnTime(w.s.threads, w.now)
    ensures OnTime(Next(w, step).s.threads, Next(w, step).now)
  {
    match step
    case TimerFired => TimerFdOnTime(w.s, w.now);
    case FetchNext => FetchOnTime(w.s, w.now);
    case ChildDied(t) => ChildExitOnTime(w.s, t, w.now);
    case Tick(time) => LaterOnTime(w.s.threads, w.now, time);
    case AddThread(spare, r) => AddOnTime(w.s, spare, r, w.now);
    case FdReady(t, kind) => FdReadyOnTime(w.s, t, kind, w.now);
    case FinishCurrent => RetireOnTime(w.s, 0, w.now);
    case CancelThread(t) => RetireOnTime(w.s, t, w.now);
    case CleanUp(keep) => CleanupOnTime(w.s, keep, w.now);
    case RescheduleChildren(sands) => RescheduleOnTime(w.s, sands, w.now);
    case ChangeTimeout(t, sands) => UpdateOnTime(w.s, t, sands, w.now);
    case RequeueRead(t, sands) => RequeueOnTime(w.s, t, sands, w.now);
  }

  /** Whatever steps are taken: every thread is in exactly one queue, and no timer fires before its time. */
  lemma {:induction false} RunsAreSafe(ws: seq<World>, steps: seq<Step>, i: nat)
    requires IsRun(ws, steps) && i < |ws|
    ensures Inv(ws[i].s) && OnTime(ws[i].s.threads, ws[i].now)
  {
    if i == 0 {
      IdleInv();
    } else {
      RunsAreSafe(ws, steps, i - 1);
      assert ws[i - 1 + 1] == Next(ws[i - 1], steps[i - 1]);
      NextKeeps(ws[i - 1], steps[i - 1]);
      NextOnTime(ws[i - 1], steps[i - 1]);
    }
  }

  // ----- What the timer handler does to each thread

  /** What a thread timed out of tree `k` becomes. */
  function TimeoutKind(k: Queue): ThreadType {
    match k
    case OnRead => ReadTimeout
    case OnWrite => WriteTimeout
    case OnChild => ChildTimeout
    case _ => ReadyTimer
  }

  function Fired(t: Thread, now: Timeval): Thread {
    if IsTree(t.at) && Due(t.sands, now) then Readied(t, TimeoutKind(t.at)) else t
  }

  /** What the expiry of tree `k` alone makes of a thread. */
  function Popped(t: Thread, k: Queue, kind: ThreadType, now: Timeval): Thread {
    if t.at == k && Due(t.sands, now) then Readied(t, kind) else t
  }

  lemma FiredOnce(t: Thread, now: Timeval)
    ensures var a := Popped(t, OnRead, ReadTimeout, now);
      var b := Popped(a, OnWrite, WriteTimeout, now);
      Popped(Popped(b, OnTimer, ReadyTimer, now), OnChild, ChildTimeout, now) == Fired(t, now)
  {}

  lemma {:induction false} ExpireThread(s: Sched, k: Queue, kind: ThreadType, now: Timeval, t: nat)
    requires Inv(s) && ReadyKind(k, kind) && t in s.threads
    ensures var r := Expire(s, k, kind, now);
      Inv(r) && t in r.threads && r.threads[t] == Popped(s.threads[t], k, kind, now)
  {
    ExpireKeeps(s, k, kind, now);
    assert Holds(s.threads, k, Look(s.q, k));
    ExpireExact(s, k, kind, now, t);
  }

  /** One handler call makes every thread that is due ready, and touches no other, whatever tree it is in. */
  lemma {:induction false} TimerFdExact(s: Sched, now: Timeval, t: nat)
    requires Inv(s) && t in s.threads
    ensures t in TimerFd(s, now).threads && TimerFd(s, now).threads[t] == Fired(s.threads[t], now)
  {
    ExpireThread(s, OnRead, ReadTimeout, now, t);
    var s1 := Expire(s, OnRead, ReadTimeout, now);
    ExpireThread(s1, OnWrite, WriteTimeout, now, t);
    var s2 := Expire(s1, OnWrite, WriteTimeout, now);
    ExpireThread(s2, OnTimer, ReadyTimer, now, t);
    ExpireThread(Expire(s2, OnTimer, ReadyTimer, now), OnChild, ChildTimeout, now, t);
    FiredOnce(s.threads[t], now);
  }

  /** What a thread of tree `k` is once its time is up. */
  predicate Rung(was: Thread, th: Thread) {
    && th.at == OnReady && th.sands == was.sands && th.pid == was.pid
    && (was.at == OnRead ==> th.kind == ReadTimeout) && (was.at == OnWrite ==> th.kind == WriteTimeout)
    && (was.at == OnTimer ==> th.kind == if was.kind == TimerShutdown then TimerShutdown else ReadyTimer)
    && (was.at == OnChild ==> th.kind == ChildTimeout)
  }

  /**
   One handler call by the clock: a thread in a tree is made ready exactly if the microseconds of its
   deadline have been reached, and any other thread is left as it is.
   */
  lemma {:induction false} FiresOnTime(s: Sched, now: Timeval, t: nat)
    requires Inv(s) && t in s.threads && Normal(now)
    ensures t in TimerFd(s, now).threads
    ensures var was, th := s.threads[t], TimerFd(s, now).threads[t];
      && (IsTree(was.at) && Normal(was.sands) ==>
            if Micros(was.sands) <= Micros(now) then Rung(was, th) else th == was)
      && (!IsTree(was.at) || was.sands.sec == -0x8000_0000_0000_0000 ==> th == was)
  {
    TimerFdExact(s, now, t);
    DueExact(s.threads[t].sands, now);
    FiredHome(s.threads[t], now);
  }

  lemma FiredHome(was: Thread, now: Timeval)
    requires Home(was.kind, was.at)
    ensures if IsTree(was.at) && Due(was.sands, now) then Rung(was, Fired(was, now)) else Fired(was, now) == was
  {}

  /** On every run, a thread that is ready or running because of a timeout has seen its deadline pass. */
  lemma {:induction false} NeverEarly(ws: seq<World>, steps: seq<Step>, i: nat, t: nat)
    requires IsRun(ws, steps) && i < |ws| && t in ws[i].s.threads
    requires Normal(ws[i].now) && Normal(ws[i].s.threads[t].sands)
    ensures var th := ws[i].s.threads[t];
      || th.kind in {ReadTimeout, WriteTimeout, ReadyTimer, ChildTimeout}
      || (th.kind == TimerShutdown && th.at in {OnReady, Running})
      ==> Micros(th.sands) <= Micros(ws[i].now)
  {
    RunsAreSafe(ws, steps, i);
    DueExact(ws[i].s.threads[t].sands, ws[i].now);
  }

  // ----- A cancelled thread is not called

  /** `t` is free: it was never allocated, has been freed, or is on the unused list. */
  predicate Free(threads: map<nat, Thread>, t: nat) { t !in threads || threads[t].at == OnUnuse }

  lemma FreeFetch(s: Sched, t: nat)
    requires Queued(s.threads, s.q) && 0 !in s.threads && Free(s.threads, t)
    ensures Free(Fetch(s).threads, t)
  {
    if Chosen(s) in s.threads { FirstThere(s, if At(s, OnEvent) != [] then OnEvent else OnReady); }
  }

  lemma IndexedAt(s: Sched, t: nat)
    requires PidIndex(s.threads, s.pids) && Typed(s.threads) && t in s.pids
    ensures t in s.threads && Indexed(s.threads[t]) && s.threads[t].at != OnUnuse
  {}

  lemma FreeElse(w: World, step: Step, t: nat)
    requires Enabled(w, step) && Free(w.s.threads, t) && !step.TimerFired? && !step.FetchNext?
    requires step.AddThread? ==> NewId(w.s, step.spare) != t
    requires step.ChildDied? ==> Indexed(w.s.threads[step.t]) && w.s.threads[step.t].at != OnUnuse
    ensures Free(Next(w, step).s.threads, t)
  {}

  lemma {:induction false} FreeFired(s: Sched, now: Timeval, t: nat)
    requires Inv(s) && t in s.threads && Free(s.threads, t)
    ensures Free(TimerFd(s, now).threads, t)
  {
    TimerFdExact(s, now, t);
  }

  lemma {:induction false} FreeMissing(s: Sched, now: Timeval, t: nat)
    requires Inv(s) && t !in s.threads
    ensures t !in TimerFd(s, now).threads
  {}

  lemma {:induction false} FreeStays(w: World, step: Step, t: nat)
    requires Inv(w.s) && Enabled(w, step) && Free(w.s.threads, t)
    requires step.AddThread? ==> NewId(w.s, step.spare) != t
    ensures Free(Next(w, step).s.threads, t)
  {
    if step.TimerFired? {
      if t in w.s.threads { FreeFired(w.s, w.now, t); } else { FreeMissing(w.s, w.now, t); }
    } else if step.FetchNext? {
      FreeFetch(w.s, t);
    } else {
      if step.ChildDied? { IndexedAt(w.s, step.t); }
      FreeElse(w, step, t);
    }
  }

  /** Until it is added again. */
  ghost predicate NotReused(ws: seq<World>, steps: seq<Step>, i: nat, j: nat, t: nat)
    requires |ws| == |steps| + 1 && j < |ws|
  {
    forall m :: i <= m < j && steps[m].AddThread? ==> NewId(ws[m].s, steps[m].spare) != t
  }

  lemma {:induction false} FreeStep(ws: seq<World>, steps: seq<Step>, m: nat, t: nat)
    requires IsRun(ws, steps) && m < |steps| && Free(ws[m].s.threads, t)
    requires steps[m].AddThread? ==> NewId(ws[m].s, steps[m].spare) != t
    ensures Free(ws[m + 1].s.threads, t)
  {
    RunsAreSafe(ws, steps, m);
    FreeStays(ws[m], steps[m], t);
  }

  lemma {:induction false} FreeRun(ws: seq<World>, steps: seq<Step>, i: nat, j: nat, t: nat)
    requires IsRun(ws, steps) && i <= j < |ws| && Free(ws[i].s.threads, t) && NotReused(ws, steps, i, j, t)
    ensures Free(ws[j].s.threads, t)
  {
    if i < j {
      FreeRun(ws, steps, i, j - 1, t);
      FreeStep(ws, steps, j - 1, t);
    }
  }

  /** After `thread_cancel` the thread is not run again, until the same storage is handed out for a new one. */
  lemma {:induction false} CancelledIsNotRun(ws: seq<World>, steps: seq<Step>, i: nat, j: nat, t: nat)
    requires IsRun(ws, steps) && i < j < |ws| && steps[i] == CancelThread(t)
    requires Enabled(ws[i], steps[i]) && NotReused(ws, steps, i, j, t)
    requires ws[i].s.threads[t].kind !in {TimerShutdown, TerminateStart, Terminate}
    ensures Free(ws[j].s.threads, t) && t !in At(ws[j].s, Running)
  {
    assert ws[i + 1] == Next(ws[i], steps[i]);
    assert Free(ws[i + 1].s.threads, t) by {
      RunsAreSafe(ws, steps, i);
      CancelExact(ws[i].s, t);
    }
    FreeRun(ws, steps, i + 1, j, t);
    RunsAreSafe(ws, steps, j);
    assert Holds(ws[j].s.threads, Running, Look(ws[j].s.q, Running));
  }

  // ----- Two runs

  /** A run leads to `w`. */
  ghost predicate Reached(w: World) {
    exists ws, steps :: IsRun(ws, steps) && ws[|steps|] == w
  }

  lemma ReachIdle(now: Timeval)
    ensures Reached(World(IDLE, now))
  {
    var ws, steps: seq<Step> := [World(IDLE, now)], [];
    assert IsRun(ws, steps) && ws[|steps|] == World(IDLE, now);
  }

  lemma {:induction false} LongerRun(ws: seq<World>, steps: seq<Step>, step: Step)
    requires IsRun(ws, steps) && Enabled(ws[|steps|], step)
    ensures IsRun(ws + [Next(ws[|steps|], step)], steps + [step])
  {
    var ws', steps' := ws + [Next(ws[|steps|], step)], steps + [step];
    forall i | 0 <= i < |steps'| ensures Enabled(ws'[i], steps'[i]) && ws'[i + 1] == Next(ws'[i], steps'[i]) {
      if i < |steps| { assert ws'[i] == ws[i] && ws'[i + 1] == ws[i + 1] && steps'[i] == steps[i]; }
    }
  }

  lemma {:induction false} ReachNext(w: World, step: Step)
    requires Reached(w) && Enabled(w, step)
    ensures Reached(Next(w, step))
  {
    var ws, steps :| IsRun(ws, steps) && ws[|steps|] == w;
    LongerRun(ws, steps, step);
    assert (ws + [Next(w, step)])[|steps + [step]|] == Next(w, step);
  }

  lemma ReachAdd(s: Sched, now: Timeval, spare: nat, r: Thread)
    requires Reached(World(s, now)) && spare !in s.threads && spare != 0 && Addable(r)
    ensures Reached(World(Add(s, spare, r), now))
  {
    ReachNext(World(s, now), AddThread(spare, r));
  }

  lemma ReachFired(s: Sched, now: Timeval)
    requires Reached(World(s, now))
    ensures Reached(World(TimerFd(s, now), now))
  {
    ReachNext(World(s, now), TimerFired);
  }

  lemma ReachFetch(s: Sched, now: Timeval)
    requires Reached(World(s, now)) && At(s, Running) == []
    ensures Reached(World(Fetch(s), now))
  {
    ReachNext(World(s, now), FetchNext);
  }

  lemma {:induction false} ReachedSafe(w: World)
    requires Reached(w)
    ensures Inv(w.s) && OnTime(w.s.threads, w.now)
  {
    var ws, steps :| IsRun(ws, steps) && ws[|steps|] == w;
    RunsAreSafe(ws, steps, |steps|);
  }

  lemma ReachFirst(t: nat, r: Thread, now: Timeval)
    requires Addable(r) && t != 0
    ensures Reached(World(Add(IDLE, t, r), now))
  {
    ReachIdle(now);
    ReachAdd(IDLE, now, t, r);
  }

  lemma FirstAdded(t: nat, r: Thread)
    requires Addable(r) && t != 0
    ensures var s := Add(IDLE, t, r);
      && s.threads == map[t := r] && At(s, Running) == [] && At(s, OnUnuse) == []
      && (r.at == OnEvent ==> At(s, OnEvent) == [t])
  {
    CreateAt(IDLE, t, r, Running);
    CreateAt(IDLE, t, r, OnUnuse);
    CreateAt(IDLE, t, r, OnEvent);
  }

  lemma CancelledTwice(s: Sched, t: nat)
    requires Inv(s) && At(s, Running) == [t] && (t in s.threads ==> s.threads[t].kind == Event)
    ensures t in s.threads && !Inv(Cancel(s, t))
    ensures At(Cancel(s, t), Running) == At(s, Running) && t in At(Cancel(s, t), OnUnuse)
  {
    assert Holds(s.threads, Running, Look(s.q, Running)) && t in At(s, Running);
    CancelKeeps(s, t);
    assert At(Cancel(s, t), OnUnuse)[|At(s, OnUnuse)|] == t;
  }

  lemma FetchFirst(t: nat, r: Thread)
    requires t != 0 && r.kind == Event && r.at == OnEvent
    ensures var s := Fetch(Add(IDLE, t, r)); At(s, Running) == [t] && s.threads == map[t := r.(at := Running)]
  {
    FirstAdded(t, r);
    FetchFrom(Add(IDLE, t, r), OnEvent);
  }

  /** An event that is running, cancelled by its own function, is in two queues at once. */
  lemma {:induction false} RunningCancelled(t: nat, r: Thread, now: Timeval)
    requires t != 0 && r.kind == Event && r.at == OnEvent
    ensures var s := Fetch(Add(IDLE, t, r));
      && Reached(World(s, now)) && Inv(s) && t in s.threads && !Inv(Cancel(s, t))
      && t in At(Cancel(s, t), Running) && t in At(Cancel(s, t), OnUnuse)
  {
    ReachFirst(t, r, now);
    FirstAdded(t, r);
    ReachFetch(Add(IDLE, t, r), now);
    ReachedSafe(World(Fetch(Add(IDLE, t, r)), now));
    FetchFirst(t, r);
    CancelledTwice(Fetch(Add(IDLE, t, r)), t);
  }

  lemma FirstFired(t: nat, r: Thread, now: Timeval)
    requires t != 0 && r.kind == TimerShutdown && r.at == OnTimer && Due(r.sands, now)
    ensures var s := TimerFd(Add(IDLE, t, r), now); t in s.threads && s.threads[t] == r.(at := OnReady)
  {
    FirstAdded(t, r);
    IdleInv();
    AddKeeps(IDLE, t, r);
    TimerFdExact(Add(IDLE, t, r), now, t);
  }

  /** A shutdown timer that is due is ready and of a waiting type: its timeout may not be changed any more. */
  lemma {:induction false} ShutdownTimerReady(t: nat, r: Thread, now: Timeval)
    requires t != 0 && r.kind == TimerShutdown && r.at == OnTimer && Due(r.sands, now)
    ensures var s := TimerFd(Add(IDLE, t, r), now);
      && Reached(World(s, now)) && t in s.threads && s.threads[t] == r.(at := OnReady)
      && forall sands :: sands != r.sands ==> !MayUpdate(s.threads[t], sands)
  {
    ReachFirst(t, r, now);
    ReachFired(Add(IDLE, t, r), now);
    FirstFired(t, r, now);
  }
}
