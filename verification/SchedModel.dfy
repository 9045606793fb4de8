/**
 The queues of the thread scheduler as values: four deadline trees seen as sorted sequences, three
 lists, the running slot and the index of children by pid.
 */
module SchedModel {
  import opened SortedSeq
  import opened Timers

  datatype ThreadType =
    | Read | Write | Timer | TimerShutdown | Child
    | Unused
    | Ready | Event | WriteTimeout | ReadTimeout | ChildTimeout | ChildTerminated | TerminateStart | Terminate
    | ReadyTimer | ReadyReadFd | ReadyWriteFd | ReadError | WriteError

  datatype Queue = OnRead | OnWrite | OnTimer | OnChild | OnEvent | OnReady | OnUnuse | Running

  /** `thread_t`; `at` names the queue its links are in. */
  datatype Thread = Thread(kind: ThreadType, sands: Timeval, pid: int, at: Queue)

  /** `thread_master_t` */
  datatype Sched = Sched(threads: map<nat, Thread>, q: map<Queue, seq<nat>>, pids: seq<nat>, alloc: nat)

  const NO_QUEUES: map<Queue, seq<nat>> :=
    map[OnRead := [], OnWrite := [], OnTimer := [], OnChild := [],
        OnEvent := [], OnReady := [], OnUnuse := [], Running := []]

  /** `thread_make_master` */
  const IDLE := Sched(map[], NO_QUEUES, [], 0)

  predicate IsTree(k: Queue) { k in {OnRead, OnWrite, OnTimer, OnChild} }

  function Look(q: map<Queue, seq<nat>>, k: Queue): seq<nat> { if k in q then q[k] else [] }

  function At(s: Sched, k: Queue): seq<nat> { Look(s.q, k) }

  function SandsOf(threads: map<nat, Thread>): nat -> Timeval {
    (t: nat) => if t in threads then threads[t].sands else Timeval(0, 0)
  }

  /** `thread_timer_less` */
  function ByDeadline(threads: map<nat, Thread>): Less { LessBy(SandsOf(threads)) }

  function PidOf(threads: map<nat, Thread>, t: nat): int { if t in threads then threads[t].pid else 0 }

  /** `thread_child_pid_less` */
  function ByPid(threads: map<nat, Thread>): Less {
    (a: nat, b: nat) => PidOf(threads, a) < PidOf(threads, b)
  }

  // ----- What holds between steps

  /** Where the type of a thread allows it to be. */
  predicate Home(kind: ThreadType, k: Queue) {
    match kind
    case Read => k == OnRead
    case Write => k == OnWrite
    case Timer => k == OnTimer
    case TimerShutdown => k in {OnTimer, OnReady, Running}
    case Child => k == OnChild
    case Unused => k == OnUnuse
    case Event => k in {OnEvent, Running}
    case TerminateStart => k in {OnEvent, Running}
    case Terminate => k in {OnEvent, Running}
    case _ => k in {OnReady, Running}
  }

  /** The child is in the pid index: it is waited for, or its timeout is still queued. */
  predicate Indexed(t: Thread) { t.kind == Child || (t.kind == ChildTimeout && t.at == OnReady) }

  /** `s` is what queue `k` should be: the threads that are there, each once, trees in order of deadline. */
  ghost predicate Holds(threads: map<nat, Thread>, k: Queue, s: seq<nat>) {
    && NoRepeat(s)
    && (forall x :: x in s <==> x in threads && threads[x].at == k)
    && (IsTree(k) ==> SortedBy(ByDeadline(threads), s))
  }

  ghost predicate Queued(threads: map<nat, Thread>, q: map<Queue, seq<nat>>) {
    forall k: Queue :: Holds(threads, k, Look(q, k))
  }

  ghost predicate Counted(threads: map<nat, Thread>, running: seq<nat>, alloc: nat) {
    |running| <= 1 && alloc == |threads| && 0 !in threads
  }

  ghost predicate Typed(threads: map<nat, Thread>) {
    forall t :: t in threads ==> Home(threads[t].kind, threads[t].at)
  }

  ghost predicate PidIndex(threads: map<nat, Thread>, pids: seq<nat>) {
    && NoRepeat(pids) && SortedBy(ByPid(threads), pids)
    && forall t: nat :: t in pids <==> t in threads && Indexed(threads[t])
  }

  ghost predicate Inv(s: Sched) {
    && Queued(s.threads, s.q) && Counted(s.threads, At(s, Running), s.alloc) && Typed(s.threads)
    && PidIndex(s.threads, s.pids)
  }

  lemma IdleInv()
    ensures Inv(IDLE)
  {
    forall k: Queue ensures Holds(map[], k, Look(NO_QUEUES, k)) {}
  }

  /** The invariant for one thread: it is in one queue, as its type dictates, and in the pid index if it must be. */
  lemma ExactlyOne(s: Sched, t: nat)
    requires Inv(s) && t in s.threads
    ensures exists k: Queue ::
      t in At(s, k) && Home(s.threads[t].kind, k) && forall l: Queue :: t in At(s, l) ==> l == k
    ensures t in s.pids <==> s.threads[t].kind == Child || (s.threads[t].kind == ChildTimeout && t in At(s, OnReady))
  {
    var k := s.threads[t].at;
    assert Holds(s.threads, k, At(s, k)) && Holds(s.threads, OnReady, At(s, OnReady));
    forall l: Queue | t in At(s, l) ensures l == k { assert Holds(s.threads, l, At(s, l)); }
    assert t in At(s, k);
  }

  /** What the order of the two kinds of tree means: sooner deadlines and smaller pids come first. */
  lemma InOrder(s: Sched, k: Queue, i: nat, j: nat)
    requires Inv(s)
    ensures i < j < |s.pids| ==> PidOf(s.threads, s.pids[i]) <= PidOf(s.threads, s.pids[j])
    ensures IsTree(k) && i < j < |At(s, k)| ==>
      var a, b := s.threads[At(s, k)[i]].sands, s.threads[At(s, k)[j]].sands;
      (Normal(a) && Normal(b) ==> Micros(a) <= Micros(b)) && (Disabled(a) ==> !Normal(b))
  {
    if i < j < |s.pids| { assert !ByPid(s.threads)(s.pids[j], s.pids[i]); }
    if IsTree(k) && i < j < |At(s, k)| {
      var q := At(s, k);
      assert Holds(s.threads, k, Look(s.q, k)) && q[i] in q && q[j] in q;
      assert !ByDeadline(s.threads)(q[j], q[i]);
      TimerLessExact(s.threads[q[j]].sands, s.threads[q[i]].sands);
    }
  }

  // ----- Moving a thread

  /** Queue `k` with `t` added: trees are sorted, lists are first in, first out. */
  ghost function Put(threads: map<nat, Thread>, k: Queue, s: seq<nat>, t: nat): seq<nat> {
    if IsTree(k) then Insert(ByDeadline(threads), s, t) else s + [t]
  }

  /** `t` leaves its queue, becomes `r`, and joins the queue of `r`. */
  ghost function Relocate(s: Sched, t: nat, r: Thread): Sched
    requires t in s.threads
  {
    var from := s.threads[t].at;
    var threads := s.threads[t := r];
    var q := s.q[from := Remove(At(s, from), t)];
    s.(threads := threads, q := q[r.at := Put(threads, r.at, Look(q, r.at), t)])
  }

  /** A thread just allocated. */
  ghost function Create(s: Sched, t: nat, r: Thread): Sched {
    var threads := s.threads[t := r];
    s.(threads := threads, q := s.q[r.at := Put(threads, r.at, At(s, r.at), t)], alloc := s.alloc + 1)
  }

  lemma {:induction false} PutFacts(threads: map<nat, Thread>, k: Queue, s: seq<nat>, t: nat)
    requires NoRepeat(s) && t !in s && (IsTree(k) ==> SortedBy(ByDeadline(threads), s))
    ensures var r := Put(threads, k, s, t);
      && NoRepeat(r) && (forall x :: x in r <==> x == t || x in s)
      && (IsTree(k) ==> SortedBy(ByDeadline(threads), r)) && |r| == |s| + 1
  {
    var r := Put(threads, k, s, t);
    if IsTree(k) {
      TimerOrder(SandsOf(threads));
      var i := Cut(ByDeadline(threads), s, t);
      InsertSorted(ByDeadline(threads), s, t);
      Spread(s, i, t);
    }
  }

  lemma Spread(s: seq<nat>, i: nat, t: nat)
    requires i <= |s| && NoRepeat(s) && t !in s
    ensures var r := s[..i] + [t] + s[i..]; NoRepeat(r) && |r| == |s| + 1 && (forall x :: x in r <==> x == t || x in s)
  {
    var a, b := s[..i], s[i..];
    assert s == a + b;
    NoRepeatConcat(a, b);
    NoRepeatConcat(a, [t]);
    assert forall x :: x in a + [t] <==> x in a || x == t;
    NoRepeatConcat(a + [t], b);
  }

  lemma RemoveFacts(s: seq<nat>, t: nat)
    requires NoRepeat(s)
    ensures NoRepeat(Remove(s, t)) && forall x :: x in Remove(s, t) <==> x in s && x != t
    ensures |Remove(s, t)| <= |s|
  {
    if t in s {
      var a, b := SplitAt(s, t);
      assert forall i, j :: 0 <= i < j < |a + b| ==> (a + b)[i] != (a + b)[j] by {
        assert forall i :: 0 <= i < |a + b| ==> (a + b)[i] == s[if i < |a| then i else i + 1];
      }
    } else {
      RemoveNone(s, t);
    }
  }

  lemma {:induction false} RemoveNone(s: seq<nat>, t: nat)
    requires t !in s
    ensures Remove(s, t) == s
  {
    if s != [] { RemoveNone(s[1..], t); }
  }

  /** A record that is not in the sequence does not matter to its order. */
  lemma SortedElsewhere(threads: map<nat, Thread>, threads': map<nat, Thread>, s: seq<nat>)
    requires SortedBy(ByDeadline(threads), s)
    requires forall x :: x in s ==> SandsOf(threads)(x) == SandsOf(threads')(x)
    ensures SortedBy(ByDeadline(threads'), s)
  {
    forall i, j | 0 <= i < j < |s| ensures !ByDeadline(threads')(s[j], s[i]) {
      assert !ByDeadline(threads)(s[j], s[i]) && s[i] in s && s[j] in s;
    }
  }

  /** The queue `t` joins, before it does. */
  ghost function Base(threads: map<nat, Thread>, t: nat, k: Queue, s: seq<nat>): seq<nat>
    requires t in threads
  {
    if k == threads[t].at then Remove(s, t) else s
  }

  lemma RelocateAt(s: Sched, t: nat, r: Thread, k: Queue)
    requires t in s.threads
    ensures var s', base := Relocate(s, t, r), Base(s.threads, t, k, At(s, k));
      At(s', k) == (if k == r.at then Put(s'.threads, k, base, t) else base) && (k in s.q ==> k in s'.q)
  {}

  /** Without `t`, what is left of a queue is still right for the others. */
  lemma {:induction false} HoldsBase(threads: map<nat, Thread>, t: nat, r: Thread, k: Queue, s: seq<nat>)
    requires Holds(threads, k, s) && t in threads
    ensures var base, th := Base(threads, t, k, s), threads[t := r];
      && NoRepeat(base) && |base| <= |s| && t !in base
      && (forall x :: x in base <==> x != t && x in th && th[x].at == k)
      && (IsTree(k) ==> SortedBy(ByDeadline(th), base))
  {
    RemoveFacts(s, t);
    if IsTree(k) {
      RemoveSorted(ByDeadline(threads), s, t);
      SortedElsewhere(threads, threads[t := r], Base(threads, t, k, s));
    }
  }

  lemma {:induction false} RelocateQueue(s: Sched, t: nat, r: Thread, k: Queue)
    requires Queued(s.threads, s.q) && t in s.threads
    ensures Holds(Relocate(s, t, r).threads, k, At(Relocate(s, t, r), k))
  {
    RelocateAt(s, t, r, k);
    assert Holds(s.threads, k, At(s, k));
    HoldsBase(s.threads, t, r, k, At(s, k));
    if k == r.at { PutFacts(s.threads[t := r], k, Base(s.threads, t, k, At(s, k)), t); }
  }

  lemma {:induction false} RelocateQueued(s: Sched, t: nat, r: Thread)
    requires Queued(s.threads, s.q) && t in s.threads
    ensures Queued(Relocate(s, t, r).threads, Relocate(s, t, r).q)
  {
    var threads, q := Relocate(s, t, r).threads, Relocate(s, t, r).q;
    forall k: Queue ensures Holds(threads, k, Look(q, k)) { RelocateQueue(s, t, r, k); }
  }

  lemma {:induction false} RelocateCounted(s: Sched, t: nat, r: Thread)
    requires Holds(s.threads, Running, At(s, Running)) && t in s.threads
    requires Counted(s.threads, At(s, Running), s.alloc) && (r.at == Running ==> At(s, Running) == [])
    ensures var s' := Relocate(s, t, r); Counted(s'.threads, At(s', Running), s'.alloc)
  {
    RelocateAt(s, t, r, Running);
    HoldsBase(s.threads, t, r, Running, At(s, Running));
    assert Relocate(s, t, r).threads.Keys == s.threads.Keys;
  }

  lemma CreateAt(s: Sched, t: nat, r: Thread, k: Queue)
    ensures At(Create(s, t, r), k) == if k == r.at then Put(s.threads[t := r], k, At(s, k), t) else At(s, k)
    ensures k in s.q ==> k in Create(s, t, r).q
  {}

  lemma {:induction false} CreateQueue(s: Sched, t: nat, r: Thread, k: Queue)
    requires Queued(s.threads, s.q) && t !in s.threads
    ensures Holds(Create(s, t, r).threads, k, At(Create(s, t, r), k))
  {
    var th := s.threads[t := r];
    CreateAt(s, t, r, k);
    assert Holds(s.threads, k, Look(s.q, k));
    if IsTree(k) { SortedElsewhere(s.threads, th, At(s, k)); }
    if k == r.at { PutFacts(th, k, At(s, k), t); }
  }

  lemma {:induction false} CreateQueued(s: Sched, t: nat, r: Thread)
    requires Queued(s.threads, s.q) && t !in s.threads
    ensures Queued(Create(s, t, r).threads, Create(s, t, r).q)
  {
    var threads, q := Create(s, t, r).threads, Create(s, t, r).q;
    forall k: Queue ensures Holds(threads, k, Look(q, k)) { CreateQueue(s, t, r, k); }
  }

  lemma CreateCounted(s: Sched, t: nat, r: Thread)
    requires Counted(s.threads, At(s, Running), s.alloc) && t !in s.threads && t != 0 && r.at != Running
    ensures var s' := Create(s, t, r); Counted(s'.threads, At(s', Running), s'.alloc)
  {
    assert Create(s, t, r).threads.Keys == s.threads.Keys + {t};
  }

  // ----- The pid index

  lemma PidOrder(threads: map<nat, Thread>)
    ensures StrictWeak(ByPid(threads))
  {}

  lemma PidsElsewhere(threads: map<nat, Thread>, threads': map<nat, Thread>, s: seq<nat>)
    requires SortedBy(ByPid(threads), s)
    requires forall x :: x in s ==> PidOf(threads, x) == PidOf(threads', x)
    ensures SortedBy(ByPid(threads'), s)
  {
    forall i, j | 0 <= i < j < |s| ensures !ByPid(threads')(s[j], s[i]) {
      assert !ByPid(threads)(s[j], s[i]) && s[i] in s && s[j] in s;
    }
  }

  lemma {:induction false} ReindexDrop(was: map<nat, Thread>, pids: seq<nat>, t: nat, r: Thread)
    requires PidIndex(was, pids) && !Indexed(r)
    ensures PidIndex(was[t := r], Remove(pids, t))
  {
    RemoveFacts(pids, t);
    RemoveSorted(ByPid(was), pids, t);
    PidsElsewhere(was, was[t := r], Remove(pids, t));
  }

  lemma {:induction false} ReindexStay(was: map<nat, Thread>, pids: seq<nat>, t: nat, r: Thread)
    requires PidIndex(was, pids) && Indexed(r) && t in pids && r.pid == was[t].pid
    ensures PidIndex(was[t := r], pids)
  {
    PidsElsewhere(was, was[t := r], pids);
  }

  lemma {:induction false} ReindexAdd(was: map<nat, Thread>, pids: seq<nat>, t: nat, r: Thread)
    requires PidIndex(was, pids) && Indexed(r) && t !in pids
    ensures PidIndex(was[t := r], Insert(ByPid(was[t := r]), pids, t))
  {
    var threads := was[t := r];
    PidsElsewhere(was, threads, pids);
    PidOrder(threads);
    var i := Cut(ByPid(threads), pids, t);
    InsertSorted(ByPid(threads), pids, t);
    Spread(pids, i, t);
  }

  // ----- Both together

  /** The index as a step must leave it. */
  ghost function PidsAfter(s: Sched, t: nat, r: Thread): seq<nat> {
    var was := t in s.threads && Indexed(s.threads[t]);
    if was == Indexed(r) then s.pids
    else if was then Remove(s.pids, t)
    else Insert(ByPid(s.threads[t := r]), s.pids, t)
  }

  lemma {:induction false} PidsKept(s: Sched, t: nat, r: Thread)
    requires PidIndex(s.threads, s.pids) && (t in s.pids ==> r.pid == s.threads[t].pid)
    ensures PidIndex(s.threads[t := r], PidsAfter(s, t, r))
  {
    if !Indexed(r) {
      ReindexDrop(s.threads, s.pids, t, r);
      if t !in s.pids { RemoveNone(s.pids, t); }
    } else if t in s.pids {
      ReindexStay(s.threads, s.pids, t, r);
    } else {
      ReindexAdd(s.threads, s.pids, t, r);
    }
  }

  /** A move keeps the invariant if it leaves the index as it must. */
  lemma {:induction false} RelocateInv(s: Sched, t: nat, r: Thread)
    requires Inv(s) && t in s.threads && Home(r.kind, r.at) && (r.at == Running ==> At(s, Running) == [])
    requires t in s.pids ==> r.pid == s.threads[t].pid
    ensures Inv(Relocate(s, t, r).(pids := PidsAfter(s, t, r)))
  {
    RelocateQueued(s, t, r);
    assert Holds(s.threads, Running, Look(s.q, Running));
    RelocateCounted(s, t, r);
    PidsKept(s, t, r);
  }

  lemma {:induction false} CreateInv(s: Sched, t: nat, r: Thread)
    requires Inv(s) && t !in s.threads && t != 0 && Home(r.kind, r.at) && r.at != Running
    ensures Inv(Create(s, t, r).(pids := PidsAfter(s, t, r)))
  {
    CreateQueued(s, t, r);
    CreateCounted(s, t, r);
    PidsKept(s, t, r);
  }
}
