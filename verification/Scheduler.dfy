/**
 The thread master of lib/scheduler.c: every operation is proved to be the step of `SchedSteps`
 it stands for.
 */
module Scheduler {
  import opened SortedSeq
  import opened Timers
  import opened SchedModel
  import opened SchedSteps
  import opened SchedRuns
  import opened SchedFields
  import T = SchedTimer
  import F = Forest

  /** What a master stands for, if its trees are sound and the invariant holds. */
  datatype Status = Bad | Good(s: Sched)

  /** `thread_master_t` */
  class Master {
    const forest: F.Trees
    var m: Fields

    ghost function Repr(): set<object> { {this, forest, forest.childPid} + forest.trees.Values }

    ghost function Raw(): Sched
      reads Repr()
    {
      View(m, forest.Contents())
    }

    ghost function Now(): (r: Status)
      reads Repr()
      ensures r.Good? ==> Inv(r.s)
    {
      if forest.Contents().Index? && Inv(Raw()) then Good(Raw()) else Bad
    }

    /** `thread_make_master` */
    constructor (f: F.Trees)
      requires f.Contents() == F.Index(F.NO_TREES, [])
      ensures Now() == Good(IDLE) && forest == f
    {
      IdleInv();
      IdleView();
      forest := f;
      m := Fields(map[], [], [], [], 0, 0);
    }

    lemma FieldsShown()
      requires forest.Contents().Index?
      ensures m.event == At(Raw(), OnEvent) && m.ready == At(Raw(), OnReady) && m.unuse == At(Raw(), OnUnuse)
      ensures At(Raw(), Running) == (if m.current == 0 then [] else [m.current])
    {
      var held := forest.Contents().held;
      QueuesAt(m, held, OnEvent);
      QueuesAt(m, held, OnReady);
      QueuesAt(m, held, OnUnuse);
      QueuesAt(m, held, Running);
    }

    // ----- Moving threads

    /** The thread leaves its tree or list and joins that of `r`. */
    method Rehang(t: nat, from: Queue, r: Thread)
      requires forest.Contents().Index? && t in m.threads && m.threads[t].at == from
      requires F.Transferable(forest.Contents().held, t, from, r.at, ByDeadline(m.threads[t := r]))
      modifies Repr()
      ensures m == Moved(old(m), t, from, r)
        && forest.Contents() == Rehung(old(forest.Contents()), old(m).threads, t, r)
    {
      m := Moved(m, t, from, r);
      forest.Transfer(t, from, r.at, ByDeadline(m.threads));
    }

    method Move(t: nat, from: Queue, r: Thread)
      requires Now().Good? && t in m.threads && m.threads[t].at == from && (r.at == Running ==> m.current == 0)
      modifies Repr()
      ensures forest.Contents().Index? && Raw() == Relocate(old(Now()).s, t, r)
    {
      InvCanMove(m, forest.Contents(), t, r);
      MovedView(m, forest.Contents(), t, r);
      Rehang(t, from, r);
    }

    /** `thread_move_ready` */
    method MoveReady(k: Queue, t: nat, kind: ThreadType)
      requires Now().Good? && t in m.threads && m.threads[t].at == k && ReadyKind(k, kind)
      modifies Repr()
      ensures Now() == Good(SchedSteps.MoveReady(old(Now()).s, t, kind))
    {
      MoveReadyKeeps(Now().s, t, kind);
      Move(t, k, Readied(m.threads[t], kind));
    }

    // ----- Adding threads

    method Plant(t: nat, r: Thread)
      requires forest.Contents().Index?
        && F.Transferable(forest.Contents().held, t, OnUnuse, r.at, ByDeadline(m.threads[t := r]))
      modifies Repr()
      ensures m == Made(old(m), t, r) && forest.Contents() == Planted(old(forest.Contents()), old(m).threads, t, r)
    {
      m := Made(m, t, r);
      forest.Transfer(t, OnUnuse, r.at, ByDeadline(m.threads));
    }

    method Reuse(r: Thread) returns (t: nat)
      requires Now().Good? && m.unuse != [] && r.at != Running
      modifies Repr()
      ensures var v := old(Now()).s;
        t == First(At(v, OnUnuse)) && t in v.threads && forest.Contents().Index? && Raw() == Relocate(v, t, r)
    {
      FieldsShown();
      FirstThere(Now().s, OnUnuse);
      t := m.unuse[0];
      Move(t, OnUnuse, r);
    }

    method Allocate(t: nat, r: Thread)
      requires Now().Good? && t !in m.threads && t != 0 && r.at != Running
      modifies Repr()
      ensures forest.Contents().Index? && Raw() == Create(old(Now()).s, t, r)
    {
      InvCanMake(m, forest.Contents(), t, r);
      MadeView(m, forest.Contents(), t, r);
      Plant(t, r);
    }

    /** `thread_new`, and the thread put where it belongs. */
    method New(spare: nat, r: Thread) returns (t: nat)
      requires Now().Good? && spare !in m.threads && spare != 0 && r.at != Running
      modifies Repr()
      ensures var v := old(Now()).s;
        && t == NewId(v, spare) && forest.Contents().Index?
        && Raw() == if t in v.threads then Relocate(v, t, r) else Create(v, t, r)
    {
      FieldsShown();
      if m.unuse != [] {
        t := Reuse(r);
      } else {
        t := spare;
        Allocate(t, r);
      }
    }

    method IndexChild(t: nat)
      requires forest.Contents().Index? && t != 0 && t !in Raw().pids
      requires StrictWeak(ByPid(m.threads)) && SortedBy(ByPid(m.threads), Raw().pids)
      modifies forest, forest.childPid
      ensures forest.Contents().Index? && Raw() == old(Raw()).(pids := Insert(ByPid(m.threads), old(Raw()).pids, t))
    {
      forest.AddPid(t, ByPid(m.threads));
    }

    /** `thread_add_read`, `thread_add_write`, `thread_add_timer`, `thread_add_child`, `thread_add_event`, ... */
    method Add(spare: nat, r: Thread) returns (t: nat)
      requires Now().Good? && spare !in m.threads && spare != 0 && Addable(r)
      modifies Repr()
      ensures Now() == Good(SchedSteps.Add(old(Now()).s, spare, r)) && t == NewId(old(Now()).s, spare)
    {
      AddKeeps(Now().s, spare, r);
      InvCanIndex(Now().s, spare, r);
      t := New(spare, r);
      if r.kind == Child {
        assert m.threads == Raw().threads;
        IndexChild(t);
      }
    }

    // ----- The timer descriptor

    /** What the loop in `thread_rb_move_ready` looks at: the first thread of tree `k`, or 0 if it is not due. */
    function FirstDue(k: Queue, now: Timeval): nat
      requires k in forest.trees
      reads Repr()
    {
      var t := forest.FirstOf(k);
      if t in m.threads && Due(m.threads[t].sands, now) then t else 0
    }

    lemma FirstDueIsNext(k: Queue, now: Timeval)
      requires Now().Good? && IsTree(k)
      ensures k in forest.trees
      ensures var t := FirstDue(k, now);
        t == NextDue(Now().s, k, now) && (t != 0 ==> t in m.threads && m.threads[t].at == k)
    {
      forest.FirstOfIsFirst(k);
      QueuesAt(m, forest.Contents().held, k);
      FirstIfDue(Now().s, k, now);
    }

    /** `thread_rb_move_ready` */
    method RbMoveReady(k: Queue, kind: ThreadType, now: Timeval)
      requires Now().Good? && ReadyKind(k, kind)
      modifies Repr()
      ensures Now() == Good(Expire(old(Now()).s, k, kind, now))
    {
      ghost var goal := Drain(Now().s, k, kind, now);
      ExpireKeeps(Now().s, k, kind, now);
      DrainIsExpire(Now().s, k, kind, now);
      FirstDueIsNext(k, now);
      while FirstDue(k, now) != 0
        invariant Now().Good? && Drain(Now().s, k, kind, now) == goal && FirstDue(k, now) == NextDue(Now().s, k, now)
        decreases |At(Now().s, k)|
      {
        FirstDueIsNext(k, now);
        DrainShrinks(Now().s, k, kind);
        MoveReady(k, FirstDue(k, now), kind);
        FirstDueIsNext(k, now);
      }
    }

    /** `thread_timerfd_handler` */
    method TimerFd(now: Timeval)
      requires Now().Good?
      modifies Repr()
      ensures Now() == Good(SchedRuns.TimerFd(old(Now()).s, now))
    {
      RbMoveReady(OnRead, ReadTimeout, now);
      RbMoveReady(OnWrite, WriteTimeout, now);
      RbMoveReady(OnTimer, ReadyTimer, now);
      RbMoveReady(OnChild, ChildTimeout, now);
    }

    // ----- Running threads

    method UnindexChild(t: nat)
      requires forest.Contents().Index? && t in Raw().pids
      modifies forest, forest.childPid
      ensures forest.Contents().Index? && Raw() == old(Raw()).(pids := Remove(old(Raw()).pids, t))
    {
      forest.ErasePid(t);
    }

    /** The head of the loop in `process_threads`. */
    method Fetch() returns (t: nat)
      requires Now().Good? && m.current == 0
      modifies Repr()
      ensures Now() == Good(SchedSteps.Fetch(old(Now()).s)) && t == Chosen(old(Now()).s)
    {
      FieldsShown();
      ChosenFacts(Now().s);
      FetchKeeps(Now().s);
      t := 0;
      if m.event != [] || m.ready != [] {
        t := if m.event != [] then m.event[0] else m.ready[0];
        var th := m.threads[t];
        Move(t, th.at, th.(at := Running));
        if th.kind == ChildTimeout {
          UnindexChild(t);
        }
      }
    }

    /** The end of the loop in `process_threads`. */
    method Finish()
      requires Now().Good?
      modifies Repr()
      ensures Now() == Good(SchedSteps.Finish(old(Now()).s))
    {
      FieldsShown();
      FinishKeeps(Now().s);
      if m.current != 0 {
        RunningFacts(Now().s);
        Move(m.current, Running, Retired(m.threads[m.current]));
      }
    }

    method CancelQueued(t: nat)
      requires Now().Good? && t in m.threads && m.threads[t].at != Running && !NotCancelled(m.threads[t].kind)
      modifies Repr()
      ensures forest.Contents().Index? && Raw() == SchedSteps.Cancel(old(Now()).s, t)
    {
      var th := m.threads[t];
      CancelFacts(Now().s, t);
      Move(t, QueueOf(th.kind), Retired(th));
      if th.kind == Child || th.kind == ChildTimeout {
        UnindexChild(t);
      }
    }

    /** The links of the running thread are in no list, so it only joins the unused ones. */
    method CancelRunning(t: nat)
      requires Now().Good? && t in m.threads && m.threads[t].at == Running && !NotCancelled(m.threads[t].kind)
      requires m.threads[t].kind != ChildTimeout
      modifies this
      ensures forest.Contents().Index? && Raw() == SchedSteps.Cancel(old(Now()).s, t)
    {
      DumpedView(m, forest.Contents(), t, Retired(m.threads[t]));
      m := Dumped(m, t, Retired(m.threads[t]));
    }

    /** `thread_cancel`: what it stands for is lost exactly if the thread cancelled is the one running. */
    method Cancel(t: nat)
      requires Now().Good? && t in m.threads && !(m.threads[t].kind == ChildTimeout && m.threads[t].at == Running)
      modifies Repr()
      ensures forest.Contents().Index? && Raw() == SchedSteps.Cancel(old(Now()).s, t)
      ensures Now().Good? <==>
        old(m).threads[t].at != Running || old(m).threads[t].kind in {TimerShutdown, TerminateStart, Terminate}
    {
      CancelKeeps(Now().s, t);
      if !NotCancelled(m.threads[t].kind) {
        if m.threads[t].at == Running {
          CancelRunning(t);
        } else {
          CancelQueued(t);
        }
      }
    }

    // ----- Children

    method FindChild(pid: int) returns (t: nat)
      requires Now().Good?
      ensures Now() == old(Now())
      ensures t == 0 ==> forall x :: x in Now().s.pids ==> PidOf(m.threads, x) != pid
      ensures t != 0 ==> t in Now().s.pids && PidOf(m.threads, t) == pid
    {
      PidsDescend(m.threads, pid, Now().s.pids);
      t := forest.FindPid(PidCmp(m.threads, pid));
    }

    /** `process_child_termination` once the thread has been found. */
    method Reap(t: nat)
      requires Now().Good? && t in Now().s.pids
      modifies Repr()
      ensures t in old(m.threads) && Now() == Good(ChildExit(old(Now()).s, t))
    {
      ChildExitKeeps(Now().s, t);
      IndexedFacts(Now().s, t);
      var th := m.threads[t];
      if th.kind == ChildTimeout {
        RecordsView(m, forest.Contents(), m.threads[t := th.(kind := ChildTerminated)]);
        m := m.(threads := m.threads[t := th.(kind := ChildTerminated)]);
      } else {
        Move(t, OnChild, Readied(th, ChildTerminated));
      }
      UnindexChild(t);
    }

    /** `process_child_termination` */
    method ChildProcessed(pid: int) returns (t: nat)
      requires Now().Good?
      modifies Repr()
      ensures var v := old(Now()).s;
        if t == 0 then Now() == Good(v) && forall x :: x in v.pids ==> v.threads[x].pid != pid
        else t in v.pids && v.threads[t].pid == pid && Now() == Good(ChildExit(v, t))
    {
      t := FindChild(pid);
      if t != 0 {
        Reap(t);
      }
    }

    // ----- Changed deadlines

    method Rewrite(k: Queue, t: nat, sands: Timeval)
      requires forest.Contents().Index? && IsTree(k) && t in m.threads
      requires Movable(forest.Contents().held, k, t, ByDeadline(Resanded(m.threads, t, sands)))
      modifies Repr()
      ensures m == old(m).(threads := Resanded(old(m).threads, t, sands))
      ensures forest.Contents() == Retimed(old(forest.Contents()), m.threads, k, t)
    {
      m := m.(threads := Resanded(m.threads, t, sands));
      forest.Move(k, t, ByDeadline(m.threads));
    }

    method Retime(k: Queue, t: nat, sands: Timeval)
      requires Now().Good? && IsTree(k) && t in m.threads && m.threads[t].at == k
      modifies Repr()
      ensures Now() == Good(SchedSteps.Retime(old(Now()).s, k, t, sands))
    {
      RetimeKeeps(Now().s, k, t, sands);
      InvCanRetime(m, forest.Contents(), k, t, sands);
      RetimeView(m, forest.Contents(), k, t, sands);
      Rewrite(k, t, sands);
    }

    /** `timer_thread_update_timeout` */
    method UpdateTimeout(t: nat, sands: Timeval)
      requires Now().Good? && t in m.threads && MayUpdate(m.threads[t], sands)
      modifies Repr()
      ensures Now() == Good(Update(old(Now()).s, t, sands))
    {
      if Waiting(m.threads[t].kind) && m.threads[t].sands != sands {
        Retime(OnTimer, t, sands);
      }
    }

    /** `thread_read_requeue` */
    method RequeueRead(t: nat, sands: Timeval)
      requires Now().Good? && t in m.threads
      modifies Repr()
      ensures Now() == Good(Requeue(old(Now()).s, t, sands))
    {
      RequeueKeeps(Now().s, t, sands);
      if m.threads[t].kind == Read {
        Retime(OnRead, t, sands);
      }
    }

    method Bump(t: nat, sands: Timeval) returns (n: nat)
      requires forest.Contents().Index? && t in forest.Contents().held[OnChild] && t in m.threads
      modifies this
      ensures forest.Contents() == old(forest.Contents()) && m == old(m).(threads := Resanded(old(m).threads, t, sands))
      ensures n == NextIn(forest.Contents().held[OnChild], t)
    {
      m := m.(threads := Resanded(m.threads, t, sands));
      n := forest.NextOf(OnChild, t);
    }

    method BumpChildren(sands: Timeval)
      requires forest.Contents().Index? && Sound(m.threads, forest.Contents().held[OnChild])
      modifies this
      ensures forest.Contents() == old(forest.Contents())
      ensures m == old(m).(threads := Bumped(old(m).threads, forest.Contents().held[OnChild], sands))
    {
      ghost var c, n := forest.Contents(), 0;
      forest.FirstOfIsFirst(OnChild);
      var t := forest.FirstOf(OnChild);
      while t != 0
        invariant forest.Contents() == c && m == old(m).(threads := m.threads)
        invariant Bumping(m.threads, old(m).threads, c.held[OnChild], n, t, sands)
        decreases |c.held[OnChild]| - n
      {
        BumpStep(m.threads, old(m).threads, c.held[OnChild], n, t, sands);
        t := Bump(t, sands);
        n := n + 1;
      }
      assert c.held[OnChild][..n] == c.held[OnChild];
    }

    /** `thread_children_reschedule` */
    method RescheduleChildren(sands: Timeval)
      requires Now().Good?
      modifies Repr()
      ensures Now() == Good(Reschedule(old(Now()).s, sands))
    {
      ghost var v := Now().s;
      RescheduleKeeps(v, sands);
      QueuesAt(m, forest.Contents().held, OnChild);
      assert Holds(v.threads, OnChild, Look(v.q, OnChild));
      BumpAll(v, sands);
      RecordsView(m, forest.Contents(), Reschedule(v, sands).threads);
      BumpChildren(sands);
    }

    // ----- Clearing everything

    method Discard(ts: seq<nat>)
      modifies this
      ensures m == Discarded(old(m), ts)
    {
      assert Discarded(m, ts[..0]) == m;
      for i := 0 to |ts|
        invariant m == Discarded(old(m), ts[..i])
      {
        DiscardOne(old(m), ts, i);
        m := Discarded(m, [ts[i]]);
      }
      assert ts[..|ts|] == ts;
    }

    ghost function Here(): Snap
      reads Repr()
    {
      Snap(m, forest.Contents())
    }

    /** `thread_destroy_rb` */
    method DestroyRb(k: Queue) returns (ghost ts: seq<nat>)
      requires forest.Contents().Index? && IsTree(k)
      modifies Repr()
      ensures Uprooted(old(Here()), k, ts, Here())
    {
      var visited := forest.Destroy(k);
      Discard(visited);
      ts := visited;
    }

    method DropTimedOut(l: seq<nat>)
      requires l == m.ready && TimedOutIndexed(m, forest.Contents())
      modifies forest, forest.childPid
      ensures var c := old(forest.Contents()); forest.Contents() == c.(pids := RemoveEach(c.pids, l))
    {
      ghost var c := forest.Contents();
      for i := 0 to |l|
        invariant forest.Contents() == c.(pids := RemoveEach(c.pids, l[..i]))
      {
        DropOne(c.pids, l, i);
        if m.threads[l[i]].kind == ChildTimeout {
          forest.ErasePid(l[i]);
        }
      }
      assert l[..|l|] == l;
    }

    /** `thread_destroy_list`, and the current thread likewise. */
    method DestroyList(k: Queue)
      modifies this
      ensures Here() == Unlisted(old(Here()), k)
    {
      Discard(ListOf(m, k));
      m := WithList(m, k, []);
    }

    /** `thread_clean_unuse` */
    method CleanUnuse()
      requires |m.unuse| <= m.alloc
      modifies this
      ensures Here() == Snap(Swept(old(m)), old(forest.Contents()))
    {
      while m.unuse != []
        invariant |m.unuse| <= m.alloc && Swept(m) == Swept(old(m))
        decreases |m.unuse|
      {
        SweepOne(m);
        m := m.(threads := m.threads - {m.unuse[0]}, unuse := m.unuse[1..], alloc := m.alloc - 1);
      }
      assert m.threads - (set t | t in m.unuse) == m.threads;
    }

    method DestroyTrees()
      returns (ghost a: seq<nat>, ghost s1: Snap, ghost b: seq<nat>, ghost s2: Snap, ghost d: seq<nat>)
      requires forest.Contents().Index?
      modifies Repr()
      ensures Uprooted(old(Here()), OnRead, a, s1) && Uprooted(s1, OnWrite, b, s2) && Uprooted(s2, OnTimer, d, Here())
    {
      a := DestroyRb(OnRead);
      s1 := Here();
      b := DestroyRb(OnWrite);
      s2 := Here();
      d := DestroyRb(OnTimer);
    }

    method ClearPids()
      requires forest.Contents().Index?
      modifies forest, forest.childPid
      ensures var s := old(Here()); Here() == Snap(s.m, s.c.(pids := []))
    {
      forest.ClearPids();
    }

    method DestroyRest() returns (ghost e: seq<nat>, ghost s4: Snap, ghost s5: Snap, ghost s6: Snap, ghost s7: Snap)
      requires forest.Contents().Index?
      modifies Repr()
      ensures Uprooted(old(Here()), OnChild, e, s4) && s5 == Unlisted(s4, OnEvent) && s6 == Unlisted(s5, OnReady)
      ensures s6.c.Index? && s7 == Snap(s6.m, s6.c.(pids := [])) && Here() == Unlisted(s7, Running)
    {
      e := DestroyRb(OnChild);
      s4 := Here();
      DestroyList(OnEvent);
      s5 := Here();
      DestroyList(OnReady);
      s6 := Here();
      ClearPids();
      s7 := Here();
      DestroyList(Running);
    }

    method DestroyReady() returns (ghost s5: Snap, ghost s6: Snap)
      requires TimedOutIndexed(m, forest.Contents())
      modifies Repr()
      ensures var s4 := old(Here());
        && s5 == Snap(s4.m, s4.c.(pids := RemoveEach(s4.c.pids, s4.m.ready)))
        && s6 == Unlisted(s5, OnReady) && Here() == Unlisted(s6, Running)
    {
      DropTimedOut(m.ready);
      s5 := Here();
      DestroyList(OnReady);
      s6 := Here();
      DestroyList(Running);
    }

    /** `thread_cleanup_master` but for its last step, nothing being kept. */
    method TearAll(ghost v: Sched)
      requires Begins(v, Here())
      modifies Repr()
      ensures Cleaned(v, Here(), false)
    {
      ghost var s0 := Here();
      ghost var a, s1, b, s2, d := DestroyTrees();
      ghost var s3 := Here();
      ghost var e, s4, s5, s6, s7 := DestroyRest();
      AllCleaned(v, s0, a, s1, b, s2, d, s3, e, s4, s5, s6, s7, Here());
    }

    /** The same, the children being kept. */
    method TearKeeping(ghost v: Sched)
      requires Begins(v, Here())
      modifies Repr()
      ensures Cleaned(v, Here(), true)
    {
      ghost var s0 := Here();
      ghost var a, s1, b, s2, d := DestroyTrees();
      ghost var s3 := Here();
      KeptReady(v, s0, a, s1, b, s2, d, s3);
      DestroyList(OnEvent);
      ghost var s4 := Here();
      ghost var s5, s6 := DestroyReady();
      KeptCleaned(v, s0, a, s1, b, s2, d, s3, s4, s5, s6, Here());
    }

    method Sweep(ghost v: Sched, ghost keep: bool)
      requires Cleaned(v, Here(), keep)
      modifies this
      ensures forest.Contents().Index? && Raw() == SchedSteps.Cleanup(v, keep)
    {
      CleanUnuse();
    }

    /** `thread_cleanup_master` */
    method Cleanup(keep: bool)
      requires Now().Good?
      modifies Repr()
      ensures Now() == Good(SchedSteps.Cleanup(old(Now()).s, keep))
    {
      ghost var v := Now().s;
      CleanupKeeps(v, keep);
      if keep {
        TearKeeping(v);
      } else {
        TearAll(v);
      }
      Sweep(v, keep);
    }

    // ----- Arming the timer descriptor

    /** `thread_update_timer` */
    function UpdateTimer(k: Queue, least: Timeval): Timeval
      requires k in forest.trees
      reads Repr()
    {
      var first := forest.FirstOf(k);
      if first !in m.threads || Disabled(m.threads[first].sands) then least
      else if !T.IsSet(least) || !Earlier(least, m.threads[first].sands) then m.threads[first].sands
      else least
    }

    lemma UpdateTimerIs(k: Queue, least: Timeval)
      requires Now().Good? && IsTree(k)
      ensures k in forest.trees && UpdateTimer(k, least) == T.UpdateTimer(m.threads, At(Now().s, k), least)
    {
      forest.FirstOfIsFirst(k);
      QueuesAt(m, forest.Contents().held, k);
      FirstOrNone(Now().s, k);
    }

    lemma ArmedIsEarliest(now: Timeval)
      requires Now().Good?
      ensures T.Normalised(m.threads) && Normal(now) ==>
        forall e :: T.IsEarliest(m.threads, e) ==>
          (T.Armed(T.Deadline(Now().s), now) == T.Left(e, now) <==> T.Timely(Now().s, now))
    {
      if T.Normalised(m.threads) && Normal(now) {
        forall e | T.IsEarliest(m.threads, e) ensures
          T.Armed(T.Deadline(Now().s), now) == T.Left(e, now) <==> T.Timely(Now().s, now)
        {
          T.ArmedForEarliest(Now().s, e, now);
        }
      }
    }

    /** `thread_set_timer` */
    method SetTimer(now: Timeval) returns (armed: T.Timespec)
      requires Now().Good?
      ensures armed == T.Armed(T.Deadline(Now().s), now)
      ensures T.Normalised(m.threads) && Normal(now) ==>
        forall e :: T.IsEarliest(m.threads, e) ==>
          (armed == T.Left(e, now) <==> T.Timely(Now().s, now))
    {
      ArmedIsEarliest(now);
      UpdateTimerIs(OnTimer, T.ZERO);
      var a := UpdateTimer(OnTimer, T.ZERO);
      UpdateTimerIs(OnWrite, a);
      var b := UpdateTimer(OnWrite, a);
      UpdateTimerIs(OnRead, b);
      var c := UpdateTimer(OnRead, b);
      UpdateTimerIs(OnChild, c);
      armed := T.Armed(UpdateTimer(OnChild, c), now);
    }
  }
}
