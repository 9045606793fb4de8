/**
 The steps of the scheduler on its queues, and what every step keeps.
 */
module SchedSteps {
  import opened SortedSeq
  import opened Timers
  import opened SchedModel

  lemma FirstThere(s: Sched, k: Queue)
    requires Queued(s.threads, s.q) && At(s, k) != []
    ensures At(s, k)[0] in s.threads && s.threads[At(s, k)[0]].at == k
  {
    assert Holds(s.threads, k, Look(s.q, k)) && At(s, k)[0] in At(s, k);
  }

  // ----- Adding threads

  /** Where a thread of some type is added, or `Running` if none is. */
  function AddedTo(kind: ThreadType): Queue {
    match kind
    case Read => OnRead
    case Write => OnWrite
    case Timer => OnTimer
    case TimerShutdown => OnTimer
    case Child => OnChild
    case Event => OnEvent
    case TerminateStart => OnEvent
    case Terminate => OnEvent
    case _ => Running
  }

  /** A thread as it is when it is added. */
  predicate Addable(r: Thread) { r.at != Running && r.at == AddedTo(r.kind) }

  /** `thread_new`: the first unused thread, or one newly allocated. */
  ghost function NewId(s: Sched, spare: nat): nat {
    if At(s, OnUnuse) != [] then At(s, OnUnuse)[0] else spare
  }

  /** The `thread_add_*` family. */
  ghost function Add(s: Sched, spare: nat, r: Thread): Sched {
    var t := NewId(s, spare);
    var s1 := if t in s.threads then Relocate(s, t, r) else Create(s, t, r);
    if r.kind == Child then s1.(pids := Insert(ByPid(s1.threads), s.pids, t)) else s1
  }

  lemma {:induction false} ReusedIsFree(s: Sched, spare: nat)
    requires Inv(s) && spare !in s.threads
    ensures var t := NewId(s, spare);
      t in s.threads ==> At(s, OnUnuse) != [] && s.threads[t].at == OnUnuse && s.threads[t].kind == Unused
  {
    if At(s, OnUnuse) != [] { FirstThere(s, OnUnuse); }
  }

  lemma {:induction false} AddKeeps(s: Sched, spare: nat, r: Thread)
    requires Inv(s) && spare !in s.threads && spare != 0 && Addable(r)
    ensures Inv(Add(s, spare, r))
  {
    var t := NewId(s, spare);
    ReusedIsFree(s, spare);
    if t in s.threads { RelocateInv(s, t, r); } else { CreateInv(s, t, r); }
  }

  /** The longest unused thread is reused, and one is allocated only if there is none; lists are joined at their end. */
  lemma {:induction false} AddPlaces(s: Sched, spare: nat, r: Thread)
    requires Inv(s) && spare !in s.threads && spare != 0 && Addable(r)
    ensures var s1, t := Add(s, spare, r), NewId(s, spare);
      && s1.threads == s.threads[t := r]
      && (At(s, OnUnuse) != [] ==>
            t == At(s, OnUnuse)[0] && s1.alloc == s.alloc && At(s1, OnUnuse) == At(s, OnUnuse)[1..])
      && (At(s, OnUnuse) == [] ==> t == spare && s1.alloc == s.alloc + 1)
      && (r.at == OnEvent ==> At(s1, OnEvent) == At(s, OnEvent) + [t])
  {
    if At(s, OnUnuse) != [] {
      FirstThere(s, OnUnuse);
      RelocateAt(s, At(s, OnUnuse)[0], r, OnUnuse);
      RelocateAt(s, At(s, OnUnuse)[0], r, OnEvent);
    } else {
      CreateAt(s, spare, r, OnEvent);
    }
  }

  // ----- Timers running out

  function Readied(t: Thread, kind: ThreadType): Thread {
    t.(kind := if t.kind == TimerShutdown then TimerShutdown else kind, at := OnReady)
  }

  /** `thread_move_ready` */
  ghost function MoveReady(s: Sched, t: nat, kind: ThreadType): Sched
    requires t in s.threads
  {
    Relocate(s, t, Readied(s.threads[t], kind))
  }

  /** What a thread taken off tree `k` may become. */
  predicate ReadyKind(k: Queue, kind: ThreadType) {
    match k
    case OnRead => kind == ReadTimeout || kind == ReadyReadFd || kind == ReadError
    case OnWrite => kind == WriteTimeout || kind == ReadyWriteFd || kind == WriteError
    case OnTimer => kind == ReadyTimer
    case OnChild => kind == ChildTimeout
    case _ => false
  }

  lemma ReadiedHome(t: Thread, kind: ThreadType)
    requires Home(t.kind, t.at) && ReadyKind(t.at, kind)
    ensures Home(Readied(t, kind).kind, OnReady) && (Indexed(Readied(t, kind)) <==> Indexed(t))
  {}

  lemma {:induction false} MoveReadyKeeps(s: Sched, t: nat, kind: ThreadType)
    requires Inv(s) && t in s.threads && ReadyKind(s.threads[t].at, kind)
    ensures Inv(MoveReady(s, t, kind))
  {
    var r := Readied(s.threads[t], kind);
    ReadiedHome(s.threads[t], kind);
    RelocateInv(s, t, r);
    assert Relocate(s, t, r).(pids := PidsAfter(s, t, r)) == MoveReady(s, t, kind);
  }

  /** How many timers at the front of `q` are due. */
  ghost function DueCount(threads: map<nat, Thread>, q: seq<nat>, now: Timeval): (n: nat)
    ensures n <= |q|
  {
    if q == [] || !Due(SandsOf(threads)(q[0]), now) then 0 else 1 + DueCount(threads, q[1..], now)
  }

  /** Because the tree is sorted, these are exactly the timers that are due. */
  lemma {:induction false} DueCountExact(threads: map<nat, Thread>, q: seq<nat>, now: Timeval, i: nat)
    requires SortedBy(ByDeadline(threads), q) && i < |q|
    ensures i < DueCount(threads, q, now) <==> Due(SandsOf(threads)(q[i]), now)
  {
    if Due(SandsOf(threads)(q[i]), now) { DueFirst(SandsOf(threads), q, now, 0, i); }
    if Due(SandsOf(threads)(q[0]), now) && i > 0 {
      DueCountExact(threads, q[1..], now, i - 1);
    }
  }

  /** The threads of `ts`, made ready one after the other. */
  ghost function ReadyAll(s: Sched, ts: seq<nat>, kind: ThreadType): (r: Sched)
    ensures r.threads.Keys == s.threads.Keys && r.pids == s.pids && r.alloc == s.alloc
    decreases |ts|
  {
    if ts == [] || ts[0] !in s.threads then s else ReadyAll(MoveReady(s, ts[0], kind), ts[1..], kind)
  }

  lemma {:induction false} ReadyAllThreads(s: Sched, ts: seq<nat>, kind: ThreadType, t: nat)
    requires (forall x :: x in ts ==> x in s.threads) && NoRepeat(ts) && t in s.threads
    ensures ReadyAll(s, ts, kind).threads[t] == if t in ts then Readied(s.threads[t], kind) else s.threads[t]
    decreases |ts|
  {
    if ts != [] {
      assert ts[0] !in ts[1..];
      assert ts[0] in ts && (t in ts <==> t == ts[0] || t in ts[1..]);
      assert forall x :: x in ts[1..] ==> x in ts;
      ReadyAllThreads(MoveReady(s, ts[0], kind), ts[1..], kind, t);
    }
  }

  ghost predicate AllAt(threads: map<nat, Thread>, k: Queue, ts: seq<nat>) {
    NoRepeat(ts) && forall t :: t in ts ==> t in threads && threads[t].at == k
  }

  lemma AllAtRest(s: Sched, k: Queue, ts: seq<nat>, kind: ThreadType)
    requires AllAt(s.threads, k, ts) && ts != []
    ensures ts[0] in s.threads && s.threads[ts[0]].at == k && AllAt(MoveReady(s, ts[0], kind).threads, k, ts[1..])
  {
    assert ts[0] in ts && forall t :: t in ts[1..] ==> t in ts;
    assert ts[0] !in ts[1..];
  }

  lemma {:induction false} ReadyAllKeeps(s: Sched, k: Queue, ts: seq<nat>, kind: ThreadType)
    requires Inv(s) && ReadyKind(k, kind) && AllAt(s.threads, k, ts)
    ensures Inv(ReadyAll(s, ts, kind))
    decreases |ts|
  {
    if ts != [] {
      AllAtRest(s, k, ts, kind);
      MoveReadyKeeps(s, ts[0], kind);
      ReadyAllKeeps(MoveReady(s, ts[0], kind), k, ts[1..], kind);
    }
  }

  /** The front of a tree is made ready in its order. */
  lemma {:induction false} ReadyAllQueues(s: Sched, k: Queue, ts: seq<nat>, rest: seq<nat>, kind: ThreadType)
    requires ReadyKind(k, kind) && AllAt(s.threads, k, ts) && At(s, k) == ts + rest
    ensures var r := ReadyAll(s, ts, kind); At(r, k) == rest && At(r, OnReady) == At(s, OnReady) + ts
    decreases |ts|
  {
    if ts == [] {
      assert ts + rest == rest && At(s, OnReady) + ts == At(s, OnReady);
    } else {
      AllAtRest(s, k, ts, kind);
      MoveFront(s, k, ts, rest, kind);
      ReadyAllQueues(MoveReady(s, ts[0], kind), k, ts[1..], rest, kind);
      Rejoin(At(s, OnReady), ts);
    }
  }

  lemma Rejoin(a: seq<nat>, ts: seq<nat>)
    requires ts != []
    ensures a + [ts[0]] + ts[1..] == a + ts
  {}

  lemma {:induction false} MoveFront(s: Sched, k: Queue, ts: seq<nat>, rest: seq<nat>, kind: ThreadType)
    requires ts != [] && ts[0] in s.threads && s.threads[ts[0]].at == k && ReadyKind(k, kind) && At(s, k) == ts + rest
    ensures var s1 := MoveReady(s, ts[0], kind);
      At(s1, k) == ts[1..] + rest && At(s1, OnReady) == At(s, OnReady) + [ts[0]]
  {
    RelocateAt(s, ts[0], Readied(s.threads[ts[0]], kind), k);
    RelocateAt(s, ts[0], Readied(s.threads[ts[0]], kind), OnReady);
    assert (ts + rest)[1..] == ts[1..] + rest;
  }

  /** The due threads of tree `k`. */
  ghost function DueOf(s: Sched, k: Queue, now: Timeval): seq<nat> {
    At(s, k)[..DueCount(s.threads, At(s, k), now)]
  }

  /** `thread_rb_move_ready` */
  ghost function Expire(s: Sched, k: Queue, kind: ThreadType, now: Timeval): Sched {
    ReadyAll(s, DueOf(s, k, now), kind)
  }

  lemma {:induction false} ExpireKeeps(s: Sched, k: Queue, kind: ThreadType, now: Timeval)
    requires Inv(s) && ReadyKind(k, kind)
    ensures AllAt(s.threads, k, At(s, k)) && Inv(Expire(s, k, kind, now))
  {
    assert Holds(s.threads, k, Look(s.q, k));
    ReadyAllKeeps(s, k, DueOf(s, k, now), kind);
  }

  lemma {:induction false} ExpireQueues(s: Sched, k: Queue, kind: ThreadType, now: Timeval)
    requires ReadyKind(k, kind) && AllAt(s.threads, k, At(s, k))
    ensures var r, n := Expire(s, k, kind, now), |DueOf(s, k, now)|;
      At(r, k) == At(s, k)[n..] && At(r, OnReady) == At(s, OnReady) + DueOf(s, k, now)
  {
    var ts, rest := DueOf(s, k, now), At(s, k)[|DueOf(s, k, now)|..];
    assert At(s, k) == ts + rest;
    ReadyAllQueues(s, k, ts, rest, kind);
  }

  /** The prefix taken is the due threads, all of them and no other, in order of deadline. */
  lemma {:induction false} DueOfExact(s: Sched, k: Queue, now: Timeval)
    requires Holds(s.threads, k, At(s, k)) && IsTree(k)
    ensures SortedBy(ByDeadline(s.threads), DueOf(s, k, now))
    ensures forall t :: t in At(s, k) ==> (t in DueOf(s, k, now) <==> Due(s.threads[t].sands, now))
  {
    var q, n := At(s, k), DueCount(s.threads, At(s, k), now);
    forall t | t in q ensures t in q[..n] <==> Due(s.threads[t].sands, now) {
      var i :| 0 <= i < |q| && q[i] == t;
      DueCountExact(s.threads, q, now, i);
      if i < n { assert q[..n][i] == t; }
    }
  }

  lemma {:induction false} DueCountSame(threads: map<nat, Thread>, threads': map<nat, Thread>, q: seq<nat>,
                                        now: Timeval)
    requires forall x: nat :: SandsOf(threads)(x) == SandsOf(threads')(x)
    ensures DueCount(threads, q, now) == DueCount(threads', q, now)
  {
    if q != [] { DueCountSame(threads, threads', q[1..], now); }
  }

  /** One round of the loop in `thread_rb_move_ready`. */
  lemma {:induction false} ExpireStep(s: Sched, k: Queue, kind: ThreadType, now: Timeval)
    requires ReadyKind(k, kind) && AllAt(s.threads, k, At(s, k))
    requires At(s, k) != [] && Due(s.threads[At(s, k)[0]].sands, now)
    ensures Expire(s, k, kind, now) == Expire(MoveReady(s, At(s, k)[0], kind), k, kind, now)
  {
    var q, t := At(s, k), At(s, k)[0];
    var s1 := MoveReady(s, t, kind);
    assert q[1..] + [] == q[1..] && q + [] == q;
    MoveFront(s, k, q, [], kind);
    DueCountSame(s.threads, s1.threads, q[1..], now);
    assert DueOf(s, k, now)[1..] == DueOf(s1, k, now);
  }

  /** A thread is made ready by the expiry of tree `k` exactly if it is in that tree and due. */
  lemma {:induction false} ExpireExact(s: Sched, k: Queue, kind: ThreadType, now: Timeval, t: nat)
    requires Holds(s.threads, k, At(s, k)) && IsTree(k) && t in s.threads
    ensures Expire(s, k, kind, now).threads[t] ==
      if s.threads[t].at == k && Due(s.threads[t].sands, now) then Readied(s.threads[t], kind) else s.threads[t]
  {
    DueOfExact(s, k, now);
    assert forall x :: x in DueOf(s, k, now) ==> x in At(s, k);
    ReadyAllThreads(s, DueOf(s, k, now), kind, t);
  }

  // ----- Running, finishing and cancelling

  function Retired(t: Thread): Thread { t.(kind := Unused, at := OnUnuse) }

  /** The thread `thread_trim_head` picks: events first. */
  ghost function Chosen(s: Sched): nat {
    if At(s, OnEvent) != [] then At(s, OnEvent)[0] else if At(s, OnReady) != [] then At(s, OnReady)[0] else 0
  }

  /** The thread chosen becomes the current one; a child whose time is up now leaves the pid index. */
  ghost function Fetch(s: Sched): Sched {
    var t := Chosen(s);
    if t !in s.threads then s
    else
      var s1 := Relocate(s, t, s.threads[t].(at := Running));
      if s.threads[t].kind == ChildTimeout then s1.(pids := Remove(s.pids, t)) else s1
  }

  lemma {:induction false} FetchKeeps(s: Sched)
    requires Inv(s) && At(s, Running) == []
    ensures Inv(Fetch(s))
  {
    var t := Chosen(s);
    if t in s.threads {
      if At(s, OnEvent) != [] { FirstThere(s, OnEvent); } else { FirstThere(s, OnReady); }
      RelocateInv(s, t, s.threads[t].(at := Running));
    }
  }

  /** An event that waits goes first; within a list the oldest thread goes first; no other thread moves. */
  lemma {:induction false} FetchOldest(s: Sched)
    requires Inv(s) && At(s, Running) == []
    ensures At(s, OnEvent) != [] ==>
      && At(Fetch(s), Running) == [At(s, OnEvent)[0]] && At(Fetch(s), OnEvent) == At(s, OnEvent)[1..]
      && At(Fetch(s), OnReady) == At(s, OnReady)
    ensures At(s, OnEvent) == [] && At(s, OnReady) != [] ==>
      At(Fetch(s), Running) == [At(s, OnReady)[0]] && At(Fetch(s), OnReady) == At(s, OnReady)[1..]
    ensures At(s, OnEvent) == [] && At(s, OnReady) == [] ==> Fetch(s) == s
  {
    if At(s, OnEvent) != [] {
      FirstThere(s, OnEvent);
      FetchFrom(s, OnEvent);
    } else if At(s, OnReady) != [] {
      FirstThere(s, OnReady);
      FetchFrom(s, OnReady);
    }
  }

  /** Only the place of the thread that is fetched changes, and a child whose time is up leaves the pid index. */
  lemma {:induction false} FetchThread(s: Sched)
    requires Inv(s)
    ensures var t := if At(s, OnEvent) != [] then At(s, OnEvent)[0] else First(At(s, OnReady));
      if At(s, OnEvent) == [] && At(s, OnReady) == [] then Fetch(s) == s
      else
        && t in s.threads && Fetch(s).threads == s.threads[t := s.threads[t].(at := Running)]
        && Fetch(s).pids == if s.threads[t].kind == ChildTimeout then Remove(s.pids, t) else s.pids
  {
    if At(s, OnEvent) != [] { FirstThere(s, OnEvent); } else if At(s, OnReady) != [] { FirstThere(s, OnReady); }
  }

  lemma {:induction false} FetchFrom(s: Sched, k: Queue)
    requires (k == OnEvent || (k == OnReady && At(s, OnEvent) == [])) && At(s, k) != [] && At(s, Running) == []
    requires At(s, k)[0] in s.threads && s.threads[At(s, k)[0]].at == k
    ensures At(Fetch(s), Running) == [At(s, k)[0]] && At(Fetch(s), k) == At(s, k)[1..]
    ensures k == OnEvent ==> At(Fetch(s), OnReady) == At(s, OnReady)
  {
    var t := At(s, k)[0];
    var r := s.threads[t].(at := Running);
    RelocateAt(s, t, r, Running);
    RelocateAt(s, t, r, k);
    RelocateAt(s, t, r, OnReady);
    assert [] + [t] == [t];
  }

  /** The current thread has been called and is unused again. */
  ghost function Finish(s: Sched): Sched {
    var t := First(At(s, Running));
    if t in s.threads then Relocate(s, t, Retired(s.threads[t])) else s
  }

  lemma RunningAlone(s: Sched, t: nat)
    requires Inv(s) && At(s, Running) != [] && t == At(s, Running)[0]
    ensures At(s, Running) == [t] && t in s.threads && s.threads[t].at == Running && Remove(At(s, Running), t) == []
  {
    FirstThere(s, Running);
  }

  lemma {:induction false} FinishKeeps(s: Sched)
    requires Inv(s)
    ensures Inv(Finish(s)) && At(Finish(s), Running) == []
    ensures forall t :: t in At(s, Running) ==> t in s.threads && Finish(s).threads[t] == Retired(s.threads[t])
  {
    if At(s, Running) != [] {
      var t := At(s, Running)[0];
      RunningAlone(s, t);
      var r := Retired(s.threads[t]);
      assert Inv(Relocate(s, t, r)) by { RelocateInv(s, t, r); }
      assert At(Relocate(s, t, r), Running) == [] by { RelocateAt(s, t, r, Running); }
    }
  }

  /** Thread types `thread_cancel` returns early for. */
  predicate NotCancelled(kind: ThreadType) {
    kind == Unused || kind == TimerShutdown || kind == TerminateStart || kind == Terminate
  }

  /** `thread_cancel`: a thread on no queue, the one running, is put with the unused ones all the same. */
  ghost function Cancel(s: Sched, t: nat): Sched
    requires t in s.threads
  {
    var th := s.threads[t];
    if NotCancelled(th.kind) then s
    else
      var s1 :=
        if th.at == Running then s.(threads := s.threads[t := Retired(th)], q := s.q[OnUnuse := At(s, OnUnuse) + [t]])
        else Relocate(s, t, Retired(th));
      if th.kind == Child || th.kind == ChildTimeout then s1.(pids := Remove(s.pids, t)) else s1
  }

  /** Cancelling is safe for every thread but the one that is running, unless the call is refused. */
  lemma {:induction false} CancelKeeps(s: Sched, t: nat)
    requires Inv(s) && t in s.threads
    ensures Inv(Cancel(s, t)) <==>
      s.threads[t].at != Running || s.threads[t].kind in {TimerShutdown, TerminateStart, Terminate}
  {
    var th := s.threads[t];
    if !NotCancelled(th.kind) {
      if th.at == Running {
        var s1 := Cancel(s, t);
        assert Holds(s.threads, Running, Look(s.q, Running));
        assert t in Look(s1.q, Running) && (At(s, OnUnuse) + [t])[|At(s, OnUnuse)|] == t && t in Look(s1.q, OnUnuse);
        assert !(Holds(s1.threads, Running, Look(s1.q, Running)) && Holds(s1.threads, OnUnuse, Look(s1.q, OnUnuse)));
      } else {
        RelocateInv(s, t, Retired(th));
      }
    }
  }

  /** A thread that is unused, a shutdown timer or a termination event is left alone; any other is unused afterwards. */
  lemma {:induction false} CancelExact(s: Sched, t: nat)
    requires Inv(s) && t in s.threads && s.threads[t].at != Running
    ensures s.threads[t].kind in {Unused, TimerShutdown, TerminateStart, Terminate} ==> Cancel(s, t) == s
    ensures s.threads[t].kind !in {Unused, TimerShutdown, TerminateStart, Terminate} ==>
      && Cancel(s, t).threads == s.threads[t := s.threads[t].(kind := Unused, at := OnUnuse)]
      && t !in Cancel(s, t).pids && At(Cancel(s, t), OnUnuse) == At(s, OnUnuse) + [t]
  {
    if s.threads[t].kind !in {Unused, TimerShutdown, TerminateStart, Terminate} {
      CancelPids(s, t);
      CancelQueue(s, t, OnUnuse);
    }
  }

  lemma {:induction false} CancelPids(s: Sched, t: nat)
    requires Inv(s) && t in s.threads && s.threads[t].at != Running && !NotCancelled(s.threads[t].kind)
    ensures t !in Cancel(s, t).pids
  {
    RemoveFacts(s.pids, t);
  }

  /** What is left of each queue. */
  lemma {:induction false} CancelQueue(s: Sched, t: nat, k: Queue)
    requires Inv(s) && t in s.threads && s.threads[t].at != Running && !NotCancelled(s.threads[t].kind)
    ensures At(Cancel(s, t), k) == if k == OnUnuse then At(s, k) + [t] else Remove(At(s, k), t)
  {
    var r := Retired(s.threads[t]);
    assert s.threads[t].at != OnUnuse;
    assert At(Cancel(s, t), k) == At(Relocate(s, t, r), k);
    RelocateAt(s, t, r, k);
    if k != OnUnuse && k != s.threads[t].at {
      assert Holds(s.threads, k, Look(s.q, k));
      RemoveNone(At(s, k), t);
    }
  }

  // ----- Children

  /** `process_child_termination`, `t` being the thread found under the pid. */
  ghost function ChildExit(s: Sched, t: nat): Sched
    requires t in s.threads
  {
    var th := s.threads[t];
    var s1 :=
      if th.kind == ChildTimeout then s.(threads := s.threads[t := th.(kind := ChildTerminated)])
      else Relocate(s, t, Readied(th, ChildTerminated));
    s1.(pids := Remove(s.pids, t))
  }

  /** A change of type alone does not move a thread. */
  lemma RetypeQueued(threads: map<nat, Thread>, q: map<Queue, seq<nat>>, t: nat, kind: ThreadType)
    requires Queued(threads, q) && t in threads
    ensures Queued(threads[t := threads[t].(kind := kind)], q)
  {
    var th := threads[t := threads[t].(kind := kind)];
    forall k: Queue ensures Holds(th, k, Look(q, k)) {
      assert Holds(threads, k, Look(q, k));
      if IsTree(k) { SortedElsewhere(threads, th, Look(q, k)); }
    }
  }

  /** An exit is noticed once: the thread is ready with its final type and the index has let go of it. */
  lemma {:induction false} ChildExitKeeps(s: Sched, t: nat)
    requires Inv(s) && t in s.pids
    ensures t in s.threads && Inv(ChildExit(s, t))
    ensures ChildExit(s, t).threads[t] == s.threads[t].(kind := ChildTerminated, at := OnReady)
    ensures t !in ChildExit(s, t).pids
  {
    var th := s.threads[t];
    RemoveFacts(s.pids, t);
    if th.kind == ChildTimeout {
      RetypeQueued(s.threads, s.q, t, ChildTerminated);
      PidsKept(s, t, th.(kind := ChildTerminated));
      assert s.threads[t := th.(kind := ChildTerminated)].Keys == s.threads.Keys;
    } else {
      RelocateInv(s, t, Readied(th, ChildTerminated));
    }
  }

  function Rescheduled(t: Thread, sands: Timeval): Thread { if t.at == OnChild then t.(sands := sands) else t }

  /** `thread_children_reschedule` */
  ghost function Reschedule(s: Sched, sands: Timeval): Sched {
    s.(threads := map t | t in s.threads :: Rescheduled(s.threads[t], sands))
  }

  /** The child tree is not rebuilt and needs no rebuilding, all its deadlines being equal now. */
  lemma {:induction false} RescheduleKeeps(s: Sched, sands: Timeval)
    requires Inv(s)
    ensures Inv(Reschedule(s, sands)) && Reschedule(s, sands).q == s.q
    ensures forall t :: t in s.threads && s.threads[t].at == OnChild ==> Reschedule(s, sands).threads[t].sands == sands
  {
    var th := Reschedule(s, sands).threads;
    assert th.Keys == s.threads.Keys;
    forall k: Queue ensures Holds(th, k, Look(s.q, k)) { RescheduleQueue(s, sands, k); }
    PidsElsewhere(s.threads, th, s.pids);
  }

  lemma {:induction false} RescheduleQueue(s: Sched, sands: Timeval, k: Queue)
    requires Queued(s.threads, s.q)
    ensures Holds(Reschedule(s, sands).threads, k, Look(s.q, k))
  {
    var th, q := Reschedule(s, sands).threads, Look(s.q, k);
    assert Holds(s.threads, k, q);
    if k == OnChild {
      forall i, j | 0 <= i < j < |q| ensures !ByDeadline(th)(q[j], q[i]) {
        assert q[i] in q && q[j] in q;
      }
    } else if IsTree(k) {
      SortedElsewhere(s.threads, th, q);
    }
  }

  // ----- Changing a deadline

  /** Types at most THREAD_MAX_WAITING. */
  predicate Waiting(kind: ThreadType) {
    kind == Read || kind == Write || kind == Timer || kind == TimerShutdown || kind == Child
  }

  function Resanded(threads: map<nat, Thread>, t: nat, sands: Timeval): map<nat, Thread>
    requires t in threads
  {
    threads[t := threads[t].(sands := sands)]
  }

  /** The deadline is written, then `rb_move_cached` is called on tree `k`. */
  ghost function Retime(s: Sched, k: Queue, t: nat, sands: Timeval): Sched
    requires t in s.threads
  {
    var threads := Resanded(s.threads, t, sands);
    s.(threads := threads, q := s.q[k := Resort(ByDeadline(threads), At(s, k), t)])
  }

  /** `timer_thread_update_timeout` */
  ghost function Update(s: Sched, t: nat, sands: Timeval): Sched
    requires t in s.threads
  {
    if !Waiting(s.threads[t].kind) || s.threads[t].sands == sands then s else Retime(s, OnTimer, t, sands)
  }

  /** `thread_read_requeue`, `t` being the read thread of the file descriptor. */
  ghost function Requeue(s: Sched, t: nat, sands: Timeval): Sched
    requires t in s.threads
  {
    if s.threads[t].kind != Read then s else Retime(s, OnRead, t, sands)
  }

  /** What callers owe: if the deadline of a thread of a waiting type changes, it must be in the timer tree. */
  predicate MayUpdate(t: Thread, sands: Timeval) { Waiting(t.kind) && t.sands != sands ==> t.at == OnTimer }

  lemma {:induction false} ResortHolds(threads: map<nat, Thread>, k: Queue, q: seq<nat>, t: nat, sands: Timeval)
    requires Holds(threads, k, q) && IsTree(k) && t in threads && threads[t].at == k && 0 !in threads
    ensures var th := Resanded(threads, t, sands); Holds(th, k, Resort(ByDeadline(th), q, t))
  {
    var th := Resanded(threads, t, sands);
    var less := ByDeadline(th);
    TimerOrder(SandsOf(th));
    RemoveFacts(q, t);
    RemoveSorted(ByDeadline(threads), q, t);
    SortedElsewhere(threads, th, Remove(q, t));
    ResortSorted(less, q, t);
    if !Stays(less, q, t) {
      var i := Cut(less, Remove(q, t), t);
      Spread(Remove(q, t), i, t);
    }
  }

  /** A queue that `t` is not in does not notice. */
  lemma {:induction false} ResandedElsewhere(threads: map<nat, Thread>, t: nat, sands: Timeval, k: Queue, q: seq<nat>)
    requires Holds(threads, k, q) && t in threads && threads[t].at != k
    ensures Holds(Resanded(threads, t, sands), k, q)
  {
    if IsTree(k) { SortedElsewhere(threads, Resanded(threads, t, sands), q); }
  }

  lemma {:induction false} RetimeQueue(s: Sched, j: Queue, t: nat, sands: Timeval, k: Queue)
    requires Queued(s.threads, s.q) && 0 !in s.threads && t in s.threads && s.threads[t].at == j && IsTree(j)
    ensures Holds(Retime(s, j, t, sands).threads, k, Look(Retime(s, j, t, sands).q, k))
  {
    assert Holds(s.threads, k, Look(s.q, k));
    if k == j {
      ResortHolds(s.threads, k, At(s, k), t, sands);
    } else {
      ResandedElsewhere(s.threads, t, sands, k, Look(s.q, k));
      assert Look(Retime(s, j, t, sands).q, k) == Look(s.q, k);
    }
  }

  lemma {:induction false} RetimeKeeps(s: Sched, j: Queue, t: nat, sands: Timeval)
    requires Inv(s) && t in s.threads && s.threads[t].at == j && IsTree(j)
    ensures Inv(Retime(s, j, t, sands))
  {
    var s1 := Retime(s, j, t, sands);
    forall k: Queue ensures Holds(s1.threads, k, Look(s1.q, k)) { RetimeQueue(s, j, t, sands, k); }
    PidsKept(s, t, s1.threads[t]);
    assert s1.threads.Keys == s.threads.Keys;
  }

  /** A thread in the timer tree has a new deadline; any other is left alone. */
  function NewDeadline(threads: map<nat, Thread>, t: nat, sands: Timeval): map<nat, Thread>
    requires t in threads
  {
    if threads[t].at == OnTimer then Resanded(threads, t, sands) else threads
  }

  /** A node that is moved is in the timer tree exactly if `MayUpdate`; then only the deadline is changed. */
  lemma {:induction false} UpdateKeeps(s: Sched, t: nat, sands: Timeval)
    requires Inv(s) && t in s.threads
    ensures MayUpdate(s.threads[t], sands) <==>
      (Waiting(s.threads[t].kind) && s.threads[t].sands != sands ==> t in At(s, OnTimer))
    ensures MayUpdate(s.threads[t], sands) ==>
      Inv(Update(s, t, sands)) && Update(s, t, sands).threads == NewDeadline(s.threads, t, sands)
  {
    assert Holds(s.threads, OnTimer, Look(s.q, OnTimer));
    if MayUpdate(s.threads[t], sands) && Waiting(s.threads[t].kind) && s.threads[t].sands != sands {
      RetimeKeeps(s, OnTimer, t, sands);
    }
  }

  /** A read thread is always in the read tree; any other is left alone. */
  lemma {:induction false} RequeueKeeps(s: Sched, t: nat, sands: Timeval)
    requires Inv(s) && t in s.threads
    ensures s.threads[t].kind == Read ==> t in At(s, OnRead)
    ensures Inv(Requeue(s, t, sands))
    ensures Requeue(s, t, sands).threads ==
      if s.threads[t].at == OnRead then Resanded(s.threads, t, sands) else s.threads
  {
    assert Holds(s.threads, OnRead, Look(s.q, OnRead));
    if s.threads[t].kind == Read { RetimeKeeps(s, OnRead, t, sands); }
  }

  /** Threads made by `thread_add_timer` and its variants. */
  predicate IsTimer(kind: ThreadType) { kind == Timer || kind == TimerShutdown || kind == ReadyTimer }

  /** A timer that is ready is left alone, unless it is a shutdown timer: that one keeps its waiting type. */
  lemma TimerMayUpdate(s: Sched, t: nat, sands: Timeval)
    requires Inv(s) && t in s.threads && IsTimer(s.threads[t].kind)
    ensures var th := s.threads[t];
      MayUpdate(th, sands) <==> !(th.kind == TimerShutdown && th.at in {OnReady, Running} && th.sands != sands)
  {}

  // ----- Clearing everything

  /** `s` without any of `ts`, removed one by one. */
  ghost function RemoveEach(s: seq<nat>, ts: seq<nat>): seq<nat>
    decreases |ts|
  {
    if ts == [] then s else RemoveEach(Remove(s, ts[0]), ts[1..])
  }

  lemma {:induction false} RemoveEachFacts(less: Less, s: seq<nat>, ts: seq<nat>)
    requires NoRepeat(s) && SortedBy(less, s)
    ensures NoRepeat(RemoveEach(s, ts)) && SortedBy(less, RemoveEach(s, ts))
    ensures forall x :: x in RemoveEach(s, ts) <==> x in s && x !in ts
    decreases |ts|
  {
    if ts != [] {
      RemoveFacts(s, ts[0]);
      RemoveSorted(less, s, ts[0]);
      RemoveEachFacts(less, Remove(s, ts[0]), ts[1..]);
      assert forall x :: x in ts <==> x == ts[0] || x in ts[1..];
    }
  }

  ghost function ChildrenOf(threads: map<nat, Thread>): map<nat, Thread> {
    map t | t in threads && threads[t].at == OnChild :: threads[t]
  }

  /** `thread_cleanup_master`: everything is freed, or everything but the children still waited for. */
  ghost function Cleanup(s: Sched, keep: bool): Sched {
    if keep then
      var q := map k | k in s.q :: if k == OnChild then s.q[k] else [];
      Sched(ChildrenOf(s.threads), q, RemoveEach(s.pids, At(s, OnReady)), |At(s, OnChild)|)
    else
      Sched(map[], map k | k in s.q :: [], [], 0)
  }

  lemma {:induction false} SeqCard(s: seq<nat>, keys: set<nat>)
    requires NoRepeat(s) && forall x :: x in s <==> x in keys
    ensures |s| == |keys|
  {
    if s == [] {
      assert keys == {};
    } else {
      assert s[0] in s && s[0] !in s[1..];
      SeqCard(s[1..], keys - {s[0]});
    }
  }

  lemma {:induction false} ChildrenQueue(threads: map<nat, Thread>, q: map<Queue, seq<nat>>)
    requires Holds(threads, OnChild, Look(q, OnChild)) && forall k: Queue :: k != OnChild ==> Look(q, k) == []
    ensures Queued(ChildrenOf(threads), q) && |Look(q, OnChild)| == |ChildrenOf(threads)|
  {
    var th := ChildrenOf(threads);
    SortedElsewhere(threads, th, Look(q, OnChild));
    SeqCard(Look(q, OnChild), th.Keys);
    forall k: Queue ensures Holds(th, k, Look(q, k)) {}
  }

  lemma {:induction false} ChildrenPids(threads: map<nat, Thread>, pids: seq<nat>, ready: seq<nat>)
    requires PidIndex(threads, pids) && Typed(threads) && Holds(threads, OnReady, ready)
    ensures PidIndex(ChildrenOf(threads), RemoveEach(pids, ready))
  {
    RemoveEachFacts(ByPid(threads), pids, ready);
    PidsElsewhere(threads, ChildrenOf(threads), RemoveEach(pids, ready));
  }

  lemma {:induction false} CleanupKept(s: Sched)
    requires Inv(s)
    ensures Inv(Cleanup(s, true))
  {
    var s1 := Cleanup(s, true);
    assert Holds(s.threads, OnChild, At(s, OnChild)) && Holds(s.threads, OnReady, At(s, OnReady)) by {
      assert Holds(s.threads, OnChild, Look(s.q, OnChild)) && Holds(s.threads, OnReady, Look(s.q, OnReady));
    }
    assert Queued(s1.threads, s1.q) && s1.alloc == |s1.threads| by { ChildrenQueue(s.threads, s1.q); }
    assert PidIndex(s1.threads, s1.pids) by { ChildrenPids(s.threads, s.pids, At(s, OnReady)); }
    assert At(s1, Running) == [];
  }

  lemma {:induction false} CleanupNothing(s: Sched)
    ensures Inv(Cleanup(s, false))
  {
    var q := Cleanup(s, false).q;
    assert forall k: Queue :: Look(q, k) == [];
  }

  /** Nothing is left, or the children waited for, and exactly they are in the pid index. */
  lemma {:induction false} CleanupKeeps(s: Sched, keep: bool)
    requires Inv(s)
    ensures Inv(Cleanup(s, keep))
    ensures !keep ==> Cleanup(s, keep).threads == map[] && Cleanup(s, keep).alloc == 0
    ensures keep ==> forall t: nat :: t in Cleanup(s, keep).pids <==> t in At(s, OnChild)
    ensures keep ==> forall t: nat :: t in Cleanup(s, keep).threads <==> t in s.threads && s.threads[t].at == OnChild
    ensures keep ==> At(Cleanup(s, keep), OnChild) == At(s, OnChild)
    ensures keep ==> forall t :: t in Cleanup(s, keep).threads ==> Cleanup(s, keep).threads[t] == s.threads[t]
  {
    if keep {
      CleanupKept(s);
      KeptPids(s);
    } else {
      CleanupNothing(s);
    }
  }

  lemma {:induction false} KeptPids(s: Sched)
    requires Inv(s)
    ensures forall t: nat :: t in Cleanup(s, true).pids <==> t in At(s, OnChild)
  {
    assert Holds(s.threads, OnChild, Look(s.q, OnChild)) && Holds(s.threads, OnReady, Look(s.q, OnReady));
    RemoveEachFacts(ByPid(s.threads), s.pids, At(s, OnReady));
  }
}
