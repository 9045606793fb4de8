/**
 The fields of a thread master as values: what they say of the queues, and how each operation on
 them changes that.
 */
module SchedFields {
  import opened SortedSeq
  import opened Timers
  import opened SchedModel
  import opened SchedSteps
  import opened SchedRuns
  import F = Forest
  import opened RbWalk

  /** The members of `thread_master_t` that are not trees; `threads` holds the thread records. */
  datatype Fields = Fields(
    threads: map<nat, Thread>, event: seq<nat>, ready: seq<nat>, unuse: seq<nat>, current: nat, alloc: nat)

  function ListOf(m: Fields, k: Queue): seq<nat> {
    match k
    case OnEvent => m.event
    case OnReady => m.ready
    case OnUnuse => m.unuse
    case _ => if m.current == 0 then [] else [m.current]
  }

  function WithList(m: Fields, k: Queue, s: seq<nat>): Fields {
    match k
    case OnEvent => m.(event := s)
    case OnReady => m.(ready := s)
    case OnUnuse => m.(unuse := s)
    case _ => m.(current := First(s))
  }

  /** `list_del_init`, then `list_add_tail` of `t` as `r`. */
  function Moved(m: Fields, t: nat, from: Queue, r: Thread): Fields {
    var m1 := if IsTree(from) then m else WithList(m, from, Remove(ListOf(m, from), t));
    var m2 := if IsTree(r.at) then m1 else WithList(m1, r.at, ListOf(m1, r.at) + [t]);
    m2.(threads := m.threads[t := r])
  }

  ghost function Kept(m: Fields, held: map<Queue, seq<nat>>, k: Queue): seq<nat> {
    if k in held then held[k] else ListOf(m, k)
  }

  /** Fields and trees as the value the steps are defined on. */
  ghost function View(m: Fields, c: F.Contents): Sched {
    if c.Broken? then IDLE else Sched(m.threads, Queues(m, c.held), c.pids, m.alloc)
  }

  ghost function Queues(m: Fields, held: map<Queue, seq<nat>>): map<Queue, seq<nat>> {
    map k | k in NO_QUEUES :: Kept(m, held, k)
  }

  lemma QueuesAt(m: Fields, held: map<Queue, seq<nat>>, k: Queue)
    ensures k in Queues(m, held) && Look(Queues(m, held), k) == Kept(m, held, k)
  {}

  lemma SameQueues(q: map<Queue, seq<nat>>, m: Fields, held: map<Queue, seq<nat>>)
    requires (forall k: Queue :: k in q) && forall k: Queue :: Look(q, k) == Kept(m, held, k)
    ensures q == Queues(m, held)
  {
    forall k: Queue ensures k in q && k in Queues(m, held) && q[k] == Queues(m, held)[k] { QueuesAt(m, held, k); }
  }

  lemma MovedTree(held: map<Queue, seq<nat>>, was: map<nat, Thread>, t: nat, r: Thread, k: Queue)
    requires F.Keyed(held) && t in was && IsTree(k)
    ensures var held', base := F.Inserted(F.Erased(held, was[t].at, t), ByDeadline(was[t := r]), r.at, t),
      Base(was, t, k, held[k]);
      k in held' && held'[k] == if k == r.at then Put(was[t := r], k, base, t) else base
  {}

  lemma MovedList(m: Fields, t: nat, r: Thread, k: Queue)
    requires t in m.threads && t != 0 && !IsTree(k)
    requires m.threads[t].at == Running ==> m.current == t
    requires r.at == Running ==> m.current == 0 && m.threads[t].at != Running
    ensures var base := Base(m.threads, t, k, ListOf(m, k));
      ListOf(Moved(m, t, m.threads[t].at, r), k) == if k == r.at then Put(m.threads[t := r], k, base, t) else base
  {}

  /** The trees after `t` has become `r`. */
  ghost function Rehung(c: F.Contents, was: map<nat, Thread>, t: nat, r: Thread): F.Contents
    requires c.Index? && t in was
  {
    c.(held := F.Inserted(F.Erased(c.held, was[t].at, t), ByDeadline(was[t := r]), r.at, t))
  }

  ghost predicate CanMove(m: Fields, t: nat, r: Thread) {
    && t in m.threads && t != 0
    && (m.threads[t].at == Running ==> m.current == t)
    && (r.at == Running ==> m.current == 0 && m.threads[t].at != Running)
  }

  lemma KeptMoved(m: Fields, c: F.Contents, t: nat, r: Thread, k: Queue)
    requires c.Index? && F.Keyed(c.held) && CanMove(m, t, r)
    ensures var base := Base(m.threads, t, k, Kept(m, c.held, k));
      Kept(Moved(m, t, m.threads[t].at, r), Rehung(c, m.threads, t, r).held, k) ==
        if k == r.at then Put(m.threads[t := r], k, base, t) else base
  {
    if IsTree(k) { MovedTree(c.held, m.threads, t, r, k); } else { MovedList(m, t, r, k); }
  }

  lemma {:induction false} MovedQueue(m: Fields, c: F.Contents, t: nat, r: Thread, k: Queue)
    requires c.Index? && F.Keyed(c.held) && CanMove(m, t, r)
    ensures var q := Relocate(View(m, c), t, r).q;
      k in q && Look(q, k) == Kept(Moved(m, t, m.threads[t].at, r), Rehung(c, m.threads, t, r).held, k)
  {
    var v, was, th := View(m, c), Kept(m, c.held, k), m.threads[t := r];
    var base := Base(m.threads, t, k, was);
    var goal := if k == r.at then Put(th, k, base, t) else base;
    assert k in v.q && At(v, k) == was by { QueuesAt(m, c.held, k); }
    assert k in Relocate(v, t, r).q && At(Relocate(v, t, r), k) == goal by { RelocateAt(v, t, r, k); }
    KeptMoved(m, c, t, r, k);
  }

  lemma {:induction false} MovedView(m: Fields, c: F.Contents, t: nat, r: Thread)
    requires c.Index? && F.Keyed(c.held) && CanMove(m, t, r)
    ensures View(Moved(m, t, m.threads[t].at, r), Rehung(c, m.threads, t, r)) == Relocate(View(m, c), t, r)
  {
    var m', held', q := Moved(m, t, m.threads[t].at, r), Rehung(c, m.threads, t, r).held, Relocate(View(m, c), t, r).q;
    forall k: Queue ensures k in q && Look(q, k) == Kept(m', held', k) { MovedQueue(m, c, t, r, k); }
    SameQueues(q, m', held');
  }

  /** Under the invariant a thread can be moved anywhere but into an occupied running slot. */
  lemma {:induction false} InvCanMove(m: Fields, c: F.Contents, t: nat, r: Thread)
    requires c.Index? && F.Keyed(c.held) && Inv(View(m, c)) && t in m.threads && (r.at == Running ==> m.current == 0)
    ensures CanMove(m, t, r) && F.Transferable(c.held, t, m.threads[t].at, r.at, ByDeadline(m.threads[t := r]))
  {
    var from, v := m.threads[t].at, View(m, c);
    QueuesAt(m, c.held, from);
    QueuesAt(m, c.held, r.at);
    assert Holds(v.threads, from, Look(v.q, from)) && Holds(v.threads, r.at, Look(v.q, r.at));
    HoldsBase(v.threads, t, r, r.at, At(v, r.at));
    TimerOrder(SandsOf(v.threads[t := r]));
  }

  // ----- Allocation

  function Made(m: Fields, t: nat, r: Thread): Fields {
    var m1 := if IsTree(r.at) then m else WithList(m, r.at, ListOf(m, r.at) + [t]);
    m1.(threads := m.threads[t := r], alloc := m.alloc + 1)
  }

  /** The trees once `t` has been added as `r`. */
  ghost function Planted(c: F.Contents, was: map<nat, Thread>, t: nat, r: Thread): F.Contents
    requires c.Index?
  {
    c.(held := F.Inserted(F.Erased(c.held, OnUnuse, t), ByDeadline(was[t := r]), r.at, t))
  }

  lemma MadeTree(held: map<Queue, seq<nat>>, was: map<nat, Thread>, t: nat, r: Thread, k: Queue)
    requires F.Keyed(held) && IsTree(k)
    ensures var held' := F.Inserted(F.Erased(held, OnUnuse, t), ByDeadline(was[t := r]), r.at, t);
      k in held' && held'[k] == if k == r.at then Put(was[t := r], k, held[k], t) else held[k]
  {}

  lemma MadeList(m: Fields, t: nat, r: Thread, k: Queue)
    requires !IsTree(k) && r.at != Running
    ensures ListOf(Made(m, t, r), k) == if k == r.at then Put(m.threads[t := r], k, ListOf(m, k), t) else ListOf(m, k)
  {}

  lemma {:induction false} MadeQueue(m: Fields, c: F.Contents, t: nat, r: Thread, k: Queue)
    requires c.Index? && F.Keyed(c.held) && r.at != Running
    ensures var q := Create(View(m, c), t, r).q;
      k in q && Look(q, k) == Kept(Made(m, t, r), Planted(c, m.threads, t, r).held, k)
  {
    CreateAt(View(m, c), t, r, k);
    QueuesAt(m, c.held, k);
    if IsTree(k) { MadeTree(c.held, m.threads, t, r, k); } else { MadeList(m, t, r, k); }
  }

  lemma {:induction false} MadeView(m: Fields, c: F.Contents, t: nat, r: Thread)
    requires c.Index? && F.Keyed(c.held) && r.at != Running
    ensures View(Made(m, t, r), Planted(c, m.threads, t, r)) == Create(View(m, c), t, r)
  {
    var m', held', q := Made(m, t, r), Planted(c, m.threads, t, r).held, Create(View(m, c), t, r).q;
    forall k: Queue ensures k in q && Look(q, k) == Kept(m', held', k) { MadeQueue(m, c, t, r, k); }
    SameQueues(q, m', held');
  }

  lemma {:induction false} InvCanMake(m: Fields, c: F.Contents, t: nat, r: Thread)
    requires c.Index? && F.Keyed(c.held) && Inv(View(m, c)) && t !in m.threads && t != 0
    ensures F.Transferable(c.held, t, OnUnuse, r.at, ByDeadline(m.threads[t := r]))
  {
    var v := View(m, c);
    QueuesAt(m, c.held, r.at);
    assert Holds(v.threads, r.at, Look(v.q, r.at));
    if IsTree(r.at) { SortedElsewhere(v.threads, v.threads[t := r], At(v, r.at)); }
    TimerOrder(SandsOf(v.threads[t := r]));
  }

  /** What the pid index must be like for a child to be added. */
  lemma {:induction false} InvCanIndex(v: Sched, spare: nat, r: Thread)
    requires Inv(v) && spare !in v.threads && spare != 0
    ensures var t := NewId(v, spare);
      t != 0 && t !in v.pids && StrictWeak(ByPid(v.threads[t := r])) && SortedBy(ByPid(v.threads[t := r]), v.pids)
  {
    var t := NewId(v, spare);
    if At(v, OnUnuse) != [] { FirstThere(v, OnUnuse); }
    PidOrder(v.threads[t := r]);
    PidsElsewhere(v.threads, v.threads[t := r], v.pids);
  }

  lemma IdleView()
    ensures View(Fields(map[], [], [], [], 0, 0), F.Index(F.NO_TREES, [])) == IDLE
  {}

  /** The first thread of tree `k`, if it is due. */
  ghost function NextDue(v: Sched, k: Queue, now: Timeval): nat {
    if At(v, k) == [] || !Due(SandsOf(v.threads)(At(v, k)[0]), now) then 0 else At(v, k)[0]
  }

  lemma {:induction false} FirstIfDue(v: Sched, k: Queue, now: Timeval)
    requires Inv(v)
    ensures var t := First(At(v, k));
      && NextDue(v, k, now) == (if t in v.threads && Due(v.threads[t].sands, now) then t else 0)
      && (t in v.threads ==> v.threads[t].at == k)
  {
    if At(v, k) != [] { FirstThere(v, k); }
  }

  lemma {:induction false} FirstOrNone(v: Sched, k: Queue)
    requires Inv(v)
    ensures First(At(v, k)) in v.threads <==> At(v, k) != []
  {
    if At(v, k) != [] { FirstThere(v, k); }
  }

  /** The loop of `thread_rb_move_ready`, round by round. */
  ghost function Drain(v: Sched, k: Queue, kind: ThreadType, now: Timeval): Sched
    decreases |At(v, k)|
  {
    var t := NextDue(v, k, now);
    if t == 0 || t !in v.threads || v.threads[t].at != k || !ReadyKind(k, kind) then v
    else
      DrainShrinks(v, k, kind);
      Drain(MoveReady(v, t, kind), k, kind, now)
  }

  lemma DrainShrinks(v: Sched, k: Queue, kind: ThreadType)
    requires At(v, k) != [] && At(v, k)[0] in v.threads && v.threads[At(v, k)[0]].at == k && ReadyKind(k, kind)
    ensures |At(MoveReady(v, At(v, k)[0], kind), k)| < |At(v, k)|
  {
    assert At(v, k) + [] == At(v, k);
    MoveFront(v, k, At(v, k), [], kind);
  }

  lemma {:induction false} DrainIsExpire(v: Sched, k: Queue, kind: ThreadType, now: Timeval)
    requires ReadyKind(k, kind) && AllAt(v.threads, k, At(v, k)) && 0 !in v.threads
    ensures Drain(v, k, kind, now) == Expire(v, k, kind, now)
    decreases |At(v, k)|
  {
    var q, t := At(v, k), NextDue(v, k, now);
    if q != [] { assert q[0] in q; }
    if t != 0 {
      assert q + [] == q && q[1..] + [] == q[1..] && q[0] in q;
      AllAtRest(v, k, q, kind);
      MoveFront(v, k, q, [], kind);
      ExpireStep(v, k, kind, now);
      DrainIsExpire(MoveReady(v, t, kind), k, kind, now);
    }
  }

  // ----- Running and cancelling

  lemma {:induction false} ChosenFacts(v: Sched)
    requires Inv(v)
    ensures var t := Chosen(v);
      if At(v, OnEvent) == [] && At(v, OnReady) == [] then t == 0 && t !in v.threads
      else
        && t != 0 && t in v.threads && v.threads[t].at == (if At(v, OnEvent) != [] then OnEvent else OnReady)
        && (v.threads[t].kind == ChildTimeout ==> t in v.pids)
  {
    if At(v, OnEvent) != [] { FirstThere(v, OnEvent); } else if At(v, OnReady) != [] { FirstThere(v, OnReady); }
  }

  lemma {:induction false} RunningFacts(v: Sched)
    requires Inv(v) && At(v, Running) != []
    ensures var t := At(v, Running)[0]; t != 0 && t in v.threads && v.threads[t].at == Running
  {
    FirstThere(v, Running);
  }

  /** Where `thread_cancel` takes a thread of some type from. */
  function QueueOf(kind: ThreadType): Queue {
    match kind
    case Read => OnRead
    case Write => OnWrite
    case Timer => OnTimer
    case Child => OnChild
    case Event => OnEvent
    case _ => OnReady
  }

  lemma {:induction false} CancelFacts(v: Sched, t: nat)
    requires Inv(v) && t in v.threads && v.threads[t].at != Running && !NotCancelled(v.threads[t].kind)
    ensures v.threads[t].at == QueueOf(v.threads[t].kind)
    ensures v.threads[t].kind == Child || v.threads[t].kind == ChildTimeout ==> t in v.pids
  {}

  /** `thread_add_unuse` of a thread that leaves no queue. */
  function Dumped(m: Fields, t: nat, r: Thread): Fields {
    m.(threads := m.threads[t := r], unuse := m.unuse + [t])
  }

  lemma {:induction false} DumpedView(m: Fields, c: F.Contents, t: nat, r: Thread)
    requires c.Index? && F.Keyed(c.held)
    ensures var v := View(m, c);
      View(Dumped(m, t, r), c) == v.(threads := v.threads[t := r], q := v.q[OnUnuse := At(v, OnUnuse) + [t]])
  {
    var m', q := Dumped(m, t, r), View(m, c).q[OnUnuse := At(View(m, c), OnUnuse) + [t]];
    forall k: Queue ensures k in q && Look(q, k) == Kept(m', c.held, k) {
      QueuesAt(m, c.held, k);
    }
    SameQueues(q, m', c.held);
  }

  // ----- Children and changed deadlines

  /** Thread records alone do not move threads. */
  lemma RecordsView(m: Fields, c: F.Contents, threads: map<nat, Thread>)
    requires c.Index?
    ensures View(m.(threads := threads), c) == View(m, c).(threads := threads)
  {
    assert Queues(m.(threads := threads), c.held) == Queues(m, c.held);
  }

  /** `thread_child_pid_cmp` */
  function PidCmp(threads: map<nat, Thread>, pid: int): nat -> int {
    (x: nat) => if pid < PidOf(threads, x) then -1 else if pid > PidOf(threads, x) then 1 else 0
  }

  lemma PidsDescend(threads: map<nat, Thread>, pid: int, pids: seq<nat>)
    requires SortedBy(ByPid(threads), pids)
    ensures Descending(PidCmp(threads, pid), pids)
  {
    forall i, j | 0 <= i < j < |pids| ensures !ByPid(threads)(pids[j], pids[i]) {}
  }

  lemma {:induction false} IndexedFacts(v: Sched, t: nat)
    requires Inv(v) && t in v.pids
    ensures t in v.threads && v.threads[t].at == if v.threads[t].kind == ChildTimeout then OnReady else OnChild
  {}

  ghost function Retimed(c: F.Contents, threads: map<nat, Thread>, j: Queue, t: nat): F.Contents
    requires c.Index? && j in c.held
  {
    c.(held := c.held[j := Resort(ByDeadline(threads), c.held[j], t)])
  }

  lemma {:induction false} RetimeView(m: Fields, c: F.Contents, j: Queue, t: nat, sands: Timeval)
    requires c.Index? && F.Keyed(c.held) && IsTree(j) && t in m.threads
    ensures var th := Resanded(m.threads, t, sands);
      View(m.(threads := th), Retimed(c, th, j, t)) == Retime(View(m, c), j, t, sands)
  {
    var v, th := View(m, c), Resanded(m.threads, t, sands);
    var m', held', q := m.(threads := th), Retimed(c, th, j, t).held, Retime(v, j, t, sands).q;
    forall k: Queue ensures k in q && Look(q, k) == Kept(m', held', k) {
      QueuesAt(m, c.held, k);
      QueuesAt(m, c.held, j);
    }
    SameQueues(q, m', held');
  }

  ghost predicate Movable(held: map<Queue, seq<nat>>, k: Queue, t: nat, less: Less) {
    k in held && t in held[k] && StrictWeak(less) && SortedBy(less, Remove(held[k], t))
  }

  lemma {:induction false} InvCanRetime(m: Fields, c: F.Contents, j: Queue, t: nat, sands: Timeval)
    requires c.Index? && F.Keyed(c.held) && Inv(View(m, c)) && IsTree(j) && t in m.threads && m.threads[t].at == j
    ensures Movable(c.held, j, t, ByDeadline(Resanded(m.threads, t, sands)))
  {
    var v, th := View(m, c), Resanded(m.threads, t, sands);
    QueuesAt(m, c.held, j);
    assert Holds(v.threads, j, Look(v.q, j));
    TimerOrder(SandsOf(th));
    HoldsBase(v.threads, t, th[t], j, At(v, j));
  }

  /** The loop of `thread_children_reschedule` once it has seen `ts`. */
  ghost function Bumped(threads: map<nat, Thread>, ts: seq<nat>, sands: Timeval): map<nat, Thread> {
    map t | t in threads :: if t in ts then threads[t].(sands := sands) else threads[t]
  }

  /** How far the loop has come: `t` is next. */
  ghost predicate Bumping(threads: map<nat, Thread>, was: map<nat, Thread>, q: seq<nat>, n: nat, t: nat,
                          sands: Timeval) {
    n <= |q| && t == First(q[n..]) && (t == 0 <==> n == |q|) && threads == Bumped(was, q[..n], sands)
  }

  ghost predicate Sound(was: map<nat, Thread>, q: seq<nat>) {
    NoRepeat(q) && 0 !in q && forall x :: x in q ==> x in was
  }

  lemma BumpNext(q: seq<nat>, n: nat)
    requires NoRepeat(q) && 0 !in q && n < |q|
    ensures var t := NextIn(q, q[n]); t == First(q[n + 1..]) && (t == 0 <==> n + 1 == |q|)
  {
    var a, x, b := q[..n], q[n], q[n + 1..];
    assert x !in a by { assert forall i :: 0 <= i < n ==> q[i] != q[n]; }
    assert NextIn(q, x) == First(b) by {
      NextAt(a, x, b);
      assert q == a + [x] + b;
    }
    if n + 1 < |q| { assert First(b) == q[n + 1] && q[n + 1] in q; }
  }

  lemma BumpOne(was: map<nat, Thread>, ts: seq<nat>, t: nat, sands: Timeval)
    requires t in was
    ensures t in Bumped(was, ts, sands) && Resanded(Bumped(was, ts, sands), t, sands) == Bumped(was, ts + [t], sands)
  {}

  lemma BumpStep(threads: map<nat, Thread>, was: map<nat, Thread>, q: seq<nat>, n: nat, t: nat, sands: Timeval)
    requires Sound(was, q) && Bumping(threads, was, q, n, t, sands) && t != 0
    ensures t in q && t in threads && n < |q|
      && Bumping(Resanded(threads, t, sands), was, q, n + 1, NextIn(q, t), sands)
  {
    assert q[n] == t && q[..n + 1] == q[..n] + [t];
    BumpNext(q, n);
    BumpOne(was, q[..n], t, sands);
  }

  lemma BumpAll(v: Sched, sands: Timeval)
    requires Holds(v.threads, OnChild, At(v, OnChild))
    ensures Bumped(v.threads, At(v, OnChild), sands) == Reschedule(v, sands).threads
  {}

  // ----- Clearing everything

  /** `thread_add_unuse` of each of `ts`. */
  function Discarded(m: Fields, ts: seq<nat>): Fields {
    m.(threads := map t | t in m.threads :: if t in ts then Retired(m.threads[t]) else m.threads[t],
      unuse := m.unuse + ts)
  }

  lemma DiscardOne(m: Fields, ts: seq<nat>, i: nat)
    requires i < |ts|
    ensures Discarded(Discarded(m, ts[..i]), [ts[i]]) == Discarded(m, ts[..i + 1])
  {
    assert ts[..i + 1] == ts[..i] + [ts[i]];
    assert m.unuse + ts[..i] + [ts[i]] == m.unuse + ts[..i + 1];
  }

  /** `v` with the queues `gone` torn down: their threads are on the unused list. */
  ghost predicate TornDown(v: Sched, m: Fields, held: map<Queue, seq<nat>>, gone: set<Queue>) {
    && TornThreads(v, m, gone) && m.alloc == v.alloc
    && forall k: Queue :: k != OnUnuse ==> Kept(m, held, k) == if k in gone then [] else At(v, k)
  }

  ghost predicate TornThreads(v: Sched, m: Fields, gone: set<Queue>) {
    && m.threads == (map t | t in v.threads :: if v.threads[t].at in gone then Retired(v.threads[t]) else v.threads[t])
    && NoRepeat(m.unuse)
    && forall t :: t in m.unuse <==> t in v.threads && (v.threads[t].at in gone || v.threads[t].at == OnUnuse)
  }

  lemma {:induction false} TornMore(v: Sched, m: Fields, gone: set<Queue>, k: Queue, ts: seq<nat>)
    requires TornThreads(v, m, gone) && k !in gone && k != OnUnuse && NoRepeat(ts)
    requires forall t :: t in ts <==> t in v.threads && v.threads[t].at == k
    ensures TornThreads(v, Discarded(m, ts), gone + {k})
  {
    NoRepeatConcat(m.unuse, ts);
  }

  lemma {:induction false} TornTree(v: Sched, m: Fields, held: map<Queue, seq<nat>>, gone: set<Queue>, k: Queue,
                                    ts: seq<nat>)
    requires TornDown(v, m, held, gone) && F.Keyed(held) && IsTree(k) && k !in gone && Holds(v.threads, k, At(v, k))
    requires NoRepeat(ts) && forall t :: t in ts <==> t in held[k]
    ensures TornDown(v, Discarded(m, ts), held[k := []], gone + {k})
  {
    assert Kept(m, held, k) == At(v, k);
    TornMore(v, m, gone, k, ts);
    var m', held' := Discarded(m, ts), held[k := []];
    forall j: Queue | j != OnUnuse ensures Kept(m', held', j) == if j in gone + {k} then [] else At(v, j) {
      assert Kept(m, held, j) == if j in gone then [] else At(v, j);
    }
  }

  lemma {:induction false} TornList(v: Sched, m: Fields, held: map<Queue, seq<nat>>, gone: set<Queue>, k: Queue)
    requires TornDown(v, m, held, gone) && F.Keyed(held) && !IsTree(k) && k != OnUnuse && k !in gone
      && Holds(v.threads, k, At(v, k))
    ensures ListOf(m, k) == At(v, k) && TornDown(v, WithList(Discarded(m, ListOf(m, k)), k, []), held, gone + {k})
  {
    assert Kept(m, held, k) == At(v, k);
    TornMore(v, m, gone, k, At(v, k));
    var m' := WithList(Discarded(m, ListOf(m, k)), k, []);
    forall j: Queue | j != OnUnuse ensures Kept(m', held, j) == if j in gone + {k} then [] else At(v, j) {
      assert Kept(m, held, j) == if j in gone then [] else At(v, j);
    }
  }

  /** A master at some moment. */
  datatype Snap = Snap(m: Fields, c: F.Contents)

  /** One tree torn down: `ts` were its threads. */
  ghost predicate Uprooted(a: Snap, k: Queue, ts: seq<nat>, b: Snap) {
    && a.c.Index? && k in a.c.held && b.c == a.c.(held := a.c.held[k := []]) && b.m == Discarded(a.m, ts)
    && NoRepeat(ts) && forall t :: t in ts <==> t in a.c.held[k]
  }

  /** The master between two steps of its teardown. */
  ghost predicate Stage(v: Sched, a: Snap, gone: set<Queue>) {
    a.c.Index? && F.Keyed(a.c.held) && TornDown(v, a.m, a.c.held, gone) && Queued(v.threads, v.q)
  }

  lemma {:induction false} UprootStage(v: Sched, a: Snap, gone: set<Queue>, k: Queue, ts: seq<nat>, b: Snap)
    requires Stage(v, a, gone) && IsTree(k) && k !in gone && Uprooted(a, k, ts, b)
    ensures Stage(v, b, gone + {k})
  {
    assert Holds(v.threads, k, Look(v.q, k));
    TornTree(v, a.m, a.c.held, gone, k, ts);
  }

  /** One list torn down. */
  ghost function Unlisted(a: Snap, k: Queue): Snap { Snap(WithList(Discarded(a.m, ListOf(a.m, k)), k, []), a.c) }

  lemma {:induction false} ListStage(v: Sched, a: Snap, gone: set<Queue>, k: Queue)
    requires Stage(v, a, gone) && !IsTree(k) && k != OnUnuse && k !in gone
    ensures ListOf(a.m, k) == At(v, k) && Stage(v, Unlisted(a, k), gone + {k})
  {
    assert Holds(v.threads, k, Look(v.q, k));
    TornList(v, a.m, a.c.held, gone, k);
  }

  lemma PidsStage(v: Sched, a: Snap, gone: set<Queue>, pids: seq<nat>)
    requires Stage(v, a, gone)
    ensures Stage(v, Snap(a.m, a.c.(pids := pids)), gone)
  {}

  const TREES_GONE: set<Queue> := {} + {OnRead} + {OnWrite} + {OnTimer}

  lemma {:induction false} TreesStage(v: Sched, s0: Snap, a: seq<nat>, s1: Snap, b: seq<nat>, s2: Snap, d: seq<nat>,
                                      s3: Snap)
    requires Stage(v, s0, {}) && Uprooted(s0, OnRead, a, s1) && Uprooted(s1, OnWrite, b, s2)
      && Uprooted(s2, OnTimer, d, s3)
    ensures Stage(v, s3, TREES_GONE) && s3.c.pids == s0.c.pids
  {
    UprootStage(v, s0, {}, OnRead, a, s1);
    UprootStage(v, s1, {} + {OnRead}, OnWrite, b, s2);
    UprootStage(v, s2, {} + {OnRead} + {OnWrite}, OnTimer, d, s3);
  }

  lemma AllGone()
    ensures TREES_GONE + {OnChild} + {OnEvent} + {OnReady} + {Running} == Gone(false)
    ensures TREES_GONE + {OnEvent} + {OnReady} + {Running} == Gone(true)
  {}

  /** All the rest, when nothing is kept. */
  lemma {:induction false} AllStage(v: Sched, s3: Snap, e: seq<nat>, s4: Snap, s5: Snap, s6: Snap, s7: Snap, s8: Snap)
    requires Stage(v, s3, TREES_GONE) && Uprooted(s3, OnChild, e, s4)
    requires s5 == Unlisted(s4, OnEvent) && s6 == Unlisted(s5, OnReady)
    requires s6.c.Index? && s7 == Snap(s6.m, s6.c.(pids := [])) && s8 == Unlisted(s7, Running)
    ensures Stage(v, s8, Gone(false)) && s8.c.pids == []
  {
    UprootStage(v, s3, TREES_GONE, OnChild, e, s4);
    ListStage(v, s4, TREES_GONE + {OnChild}, OnEvent);
    ListStage(v, s5, TREES_GONE + {OnChild} + {OnEvent}, OnReady);
    PidsStage(v, s6, TREES_GONE + {OnChild} + {OnEvent} + {OnReady}, []);
    ListStage(v, s7, TREES_GONE + {OnChild} + {OnEvent} + {OnReady}, Running);
    AllGone();
  }

  /** All the rest, when the children stay. */
  lemma {:induction false} KeepStage(v: Sched, s3: Snap, s4: Snap, s5: Snap, s6: Snap, s7: Snap)
    requires Stage(v, s3, TREES_GONE) && s4 == Unlisted(s3, OnEvent) && s4.c.Index?
    requires s5 == Snap(s4.m, s4.c.(pids := RemoveEach(s4.c.pids, s4.m.ready))) && s6 == Unlisted(s5, OnReady)
      && s7 == Unlisted(s6, Running)
    ensures Stage(v, s7, Gone(true)) && s7.c.pids == RemoveEach(s3.c.pids, At(v, OnReady))
  {
    ListStage(v, s3, TREES_GONE, OnEvent);
    PidsStage(v, s4, TREES_GONE + {OnEvent}, s5.c.pids);
    ListStage(v, s5, TREES_GONE + {OnEvent}, OnReady);
    ListStage(v, s6, TREES_GONE + {OnEvent} + {OnReady}, Running);
    AllGone();
  }

  lemma {:induction false} ReadyIndexed(v: Sched, t: nat)
    requires Inv(v) && t in At(v, OnReady)
    ensures t in v.threads && v.threads[t].at == OnReady && (v.threads[t].kind == ChildTimeout <==> t in v.pids)
      && NoRepeat(v.pids)
  {
    assert Holds(v.threads, OnReady, Look(v.q, OnReady));
  }

  /** Which threads on the ready list are still in the pid index. */
  ghost predicate TimedOutIndexed(m: Fields, c: F.Contents) {
    && c.Index? && NoRepeat(m.ready) && NoRepeat(c.pids)
    && forall t :: t in m.ready ==> t in m.threads && (m.threads[t].kind == ChildTimeout <==> t in c.pids)
  }

  lemma {:induction false} ReadyOne(v: Sched, a: Snap, t: nat)
    requires TornThreads(v, a.m, TREES_GONE + {OnEvent}) && Inv(v) && t in At(v, OnReady)
    ensures t in a.m.threads && (a.m.threads[t].kind == ChildTimeout <==> t in v.pids)
  {
    ReadyIndexed(v, t);
  }

  lemma {:induction false} ReadyTimedOut(v: Sched, a: Snap)
    requires Stage(v, a, TREES_GONE + {OnEvent}) && Inv(v) && a.c.pids == v.pids
    ensures TimedOutIndexed(a.m, a.c)
  {
    assert a.m.ready == At(v, OnReady) && NoRepeat(a.m.ready) by { ReadyList(v, a); }
    assert forall t :: t in a.m.ready ==> t in a.m.threads && (a.m.threads[t].kind == ChildTimeout <==> t in v.pids)
      by {
      forall t | t in a.m.ready ensures t in a.m.threads && (a.m.threads[t].kind == ChildTimeout <==> t in v.pids) {
        ReadyOne(v, a, t);
      }
    }
  }

  lemma ReadyList(v: Sched, a: Snap)
    requires Stage(v, a, TREES_GONE + {OnEvent})
    ensures a.m.ready == At(v, OnReady) && NoRepeat(a.m.ready)
  {
    assert Holds(v.threads, OnReady, Look(v.q, OnReady));
    assert Kept(a.m, a.c.held, OnReady) == At(v, OnReady);
  }

  lemma TornNone(v: Sched, m: Fields, c: F.Contents)
    requires c.Index? && F.Keyed(c.held) && v == View(m, c) && Holds(v.threads, OnUnuse, At(v, OnUnuse))
    ensures TornDown(v, m, c.held, {})
  {
    forall k: Queue ensures At(v, k) == Kept(m, c.held, k) { QueuesAt(m, c.held, k); }
  }

  // Children that timed out leave the pid index

  lemma {:induction false} RemoveEachOne(s: seq<nat>, ts: seq<nat>, t: nat)
    ensures RemoveEach(s, ts + [t]) == Remove(RemoveEach(s, ts), t)
    decreases |ts|
  {
    if ts == [] {
      assert ts + [t] == [t] && [t][1..] == [];
    } else {
      assert (ts + [t])[1..] == ts[1..] + [t];
      RemoveEachOne(Remove(s, ts[0]), ts[1..], t);
    }
  }

  /** What must be erased from the index at position `i` of the list. */
  lemma {:induction false} DropOne(pids: seq<nat>, l: seq<nat>, i: nat)
    requires i < |l| && NoRepeat(pids) && NoRepeat(l)
    ensures l[i] in RemoveEach(pids, l[..i]) <==> l[i] in pids
    ensures RemoveEach(pids, l[..i + 1]) == Remove(RemoveEach(pids, l[..i]), l[i])
    ensures l[i] !in pids ==> RemoveEach(pids, l[..i + 1]) == RemoveEach(pids, l[..i])
  {
    assert l[..i + 1] == l[..i] + [l[i]];
    RemoveEachOne(pids, l[..i], l[i]);
    RemoveEachFacts((a: nat, b: nat) => false, pids, l[..i]);
    if l[i] !in pids { RemoveNone(RemoveEach(pids, l[..i]), l[i]); }
  }

  /** `thread_clean_unuse` */
  function Swept(m: Fields): Fields
    requires |m.unuse| <= m.alloc
  {
    m.(threads := m.threads - (set t | t in m.unuse), unuse := [], alloc := m.alloc - |m.unuse|)
  }

  lemma SweepOne(m: Fields)
    requires m.unuse != [] && |m.unuse| <= m.alloc
    ensures Swept(m) == Swept(m.(threads := m.threads - {m.unuse[0]}, unuse := m.unuse[1..], alloc := m.alloc - 1))
  {
    var rest := m.unuse[1..];
    assert m.unuse == [m.unuse[0]] + rest;
    assert m.threads - (set t | t in m.unuse) == m.threads - {m.unuse[0]} - (set t | t in rest);
  }

  /** Every queue but the unused list, and perhaps the children. */
  function Gone(keep: bool): set<Queue> {
    {OnRead, OnWrite, OnTimer, OnEvent, OnReady, Running} + if keep then {} else {OnChild}
  }

  lemma GoneIs(keep: bool, k: Queue)
    ensures k in Gone(keep) <==> k != OnUnuse && !(keep && k == OnChild)
  {}

  lemma {:induction false} UnuseOrKept(v: Sched, m: Fields, keep: bool, t: nat)
    requires TornThreads(v, m, Gone(keep)) && t in v.threads
    ensures t !in m.unuse <==> keep && v.threads[t].at == OnChild
    ensures t in m.threads && (t !in m.unuse ==> m.threads[t] == v.threads[t])
  {
    GoneIs(keep, v.threads[t].at);
  }

  ghost function KeptThreads(v: Sched, keep: bool): map<nat, Thread> { if keep then ChildrenOf(v.threads) else map[] }

  lemma {:induction false} SweptThreads(v: Sched, m: Fields, keep: bool)
    requires TornThreads(v, m, Gone(keep))
    ensures m.threads - (set t | t in m.unuse) == KeptThreads(v, keep)
    ensures v.threads.Keys == (set t | t in m.unuse) + KeptThreads(v, keep).Keys
  {
    forall t | t in v.threads ensures
      && (t !in m.unuse <==> keep && v.threads[t].at == OnChild)
      && t in m.threads && (t !in m.unuse ==> m.threads[t] == v.threads[t])
    {
      UnuseOrKept(v, m, keep, t);
    }
  }

  lemma {:induction false} SweptAlloc(v: Sched, m: Fields, keep: bool)
    requires TornThreads(v, m, Gone(keep)) && m.alloc == |v.threads| && Holds(v.threads, OnChild, At(v, OnChild))
    ensures |m.unuse| <= m.alloc && m.alloc - |m.unuse| == if keep then |At(v, OnChild)| else 0
  {
    var out := set t | t in m.unuse;
    SweptThreads(v, m, keep);
    SeqCard(m.unuse, out);
    assert out !! KeptThreads(v, keep).Keys;
    assert |v.threads.Keys| == |out| + |KeptThreads(v, keep).Keys|;
    if keep { SeqCard(At(v, OnChild), ChildrenOf(v.threads).Keys); }
  }

  lemma {:induction false} SweptQueue(v: Sched, m: Fields, c: F.Contents, keep: bool, k: Queue)
    requires c.Index? && F.Keyed(c.held) && TornDown(v, m, c.held, Gone(keep)) && k in v.q && |m.unuse| <= m.alloc
    ensures var q := Cleanup(v, keep).q; k in q && Look(q, k) == Kept(Swept(m), c.held, k)
  {
    GoneIs(keep, k);
    assert k != OnUnuse ==> Kept(m, c.held, k) == if k in Gone(keep) then [] else At(v, k);
  }

  lemma {:induction false} SweptQueues(v: Sched, m: Fields, c: F.Contents, keep: bool)
    requires c.Index? && F.Keyed(c.held) && TornDown(v, m, c.held, Gone(keep)) && (forall k: Queue :: k in v.q)
      && |m.unuse| <= m.alloc
    ensures Cleanup(v, keep).q == Queues(Swept(m), c.held)
  {
    var q := Cleanup(v, keep).q;
    forall k: Queue ensures k in q && Look(q, k) == Kept(Swept(m), c.held, k) { SweptQueue(v, m, c, keep, k); }
    SameQueues(q, Swept(m), c.held);
  }

  lemma SameCleanup(v: Sched, m: Fields, c: F.Contents, keep: bool)
    requires c.Index? && m.threads == KeptThreads(v, keep) && m.alloc == (if keep then |At(v, OnChild)| else 0)
    requires Queues(m, c.held) == Cleanup(v, keep).q && c.pids == Cleanup(v, keep).pids
    ensures View(m, c) == Cleanup(v, keep)
  {}

  /** What is left once the unused list is freed. */
  lemma {:induction false} SweptView(v: Sched, m: Fields, c: F.Contents, keep: bool)
    requires c.Index? && F.Keyed(c.held) && TornDown(v, m, c.held, Gone(keep)) && (forall k: Queue :: k in v.q)
    requires v.alloc == |v.threads| && Holds(v.threads, OnChild, At(v, OnChild)) && c.pids == Cleanup(v, keep).pids
    ensures |m.unuse| <= m.alloc && View(Swept(m), c) == Cleanup(v, keep)
  {
    assert |m.unuse| <= m.alloc && m.alloc - |m.unuse| == (if keep then |At(v, OnChild)| else 0)
      by { SweptAlloc(v, m, keep); }
    assert Swept(m).threads == KeptThreads(v, keep) by { SweptThreads(v, m, keep); }
    assert Queues(Swept(m), c.held) == Cleanup(v, keep).q by { SweptQueues(v, m, c, keep); }
    SameCleanup(v, Swept(m), c, keep);
  }

  lemma {:induction false} InvParts(v: Sched)
    requires Inv(v)
    ensures v.alloc == |v.threads| && Holds(v.threads, OnChild, At(v, OnChild))
  {
    assert Holds(v.threads, OnChild, Look(v.q, OnChild));
  }

  ghost predicate Cleaned(v: Sched, a: Snap, keep: bool) {
    a.c.Index? && |a.m.unuse| <= a.m.alloc && View(Swept(a.m), a.c) == Cleanup(v, keep)
  }

  lemma {:induction false} StageCleaned(v: Sched, a: Snap, keep: bool)
    requires Stage(v, a, Gone(keep)) && Inv(v) && (forall k: Queue :: k in v.q) && a.c.pids == Cleanup(v, keep).pids
    ensures Cleaned(v, a, keep)
  {
    InvParts(v);
    SweptView(v, a.m, a.c, keep);
  }

  ghost predicate Begins(v: Sched, a: Snap) { a.c.Index? && F.Keyed(a.c.held) && v == View(a.m, a.c) && Inv(v) }

  lemma {:induction false} StartStage(v: Sched, a: Snap)
    requires Begins(v, a)
    ensures Stage(v, a, {}) && forall k: Queue :: k in v.q
  {
    assert Holds(v.threads, OnUnuse, Look(v.q, OnUnuse));
    TornNone(v, a.m, a.c);
    forall k: Queue ensures k in v.q { QueuesAt(a.m, a.c.held, k); }
  }

  lemma {:induction false} AllCleaned(v: Sched, s0: Snap, a: seq<nat>, s1: Snap, b: seq<nat>, s2: Snap, d: seq<nat>,
                                      s3: Snap, e: seq<nat>, s4: Snap, s5: Snap, s6: Snap, s7: Snap, s8: Snap)
    requires Begins(v, s0) && Uprooted(s0, OnRead, a, s1) && Uprooted(s1, OnWrite, b, s2)
      && Uprooted(s2, OnTimer, d, s3)
    requires Uprooted(s3, OnChild, e, s4) && s5 == Unlisted(s4, OnEvent) && s6 == Unlisted(s5, OnReady)
    requires s6.c.Index? && s7 == Snap(s6.m, s6.c.(pids := [])) && s8 == Unlisted(s7, Running)
    ensures Cleaned(v, s8, false)
  {
    StartStage(v, s0);
    TreesStage(v, s0, a, s1, b, s2, d, s3);
    AllStage(v, s3, e, s4, s5, s6, s7, s8);
    StageCleaned(v, s8, false);
  }

  lemma {:induction false} EventsGone(v: Sched, a: Snap)
    requires Stage(v, a, TREES_GONE) && Inv(v) && a.c.pids == v.pids
    ensures TimedOutIndexed(Unlisted(a, OnEvent).m, a.c)
  {
    ListStage(v, a, TREES_GONE, OnEvent);
    ReadyTimedOut(v, Unlisted(a, OnEvent));
  }

  lemma {:induction false} KeptReady(v: Sched, s0: Snap, a: seq<nat>, s1: Snap, b: seq<nat>, s2: Snap, d: seq<nat>,
                                     s3: Snap)
    requires Begins(v, s0) && Uprooted(s0, OnRead, a, s1) && Uprooted(s1, OnWrite, b, s2)
      && Uprooted(s2, OnTimer, d, s3)
    ensures TimedOutIndexed(Unlisted(s3, OnEvent).m, s3.c)
  {
    StartStage(v, s0);
    TreesStage(v, s0, a, s1, b, s2, d, s3);
    EventsGone(v, s3);
  }

  lemma {:induction false} KeptCleaned(v: Sched, s0: Snap, a: seq<nat>, s1: Snap, b: seq<nat>, s2: Snap, d: seq<nat>,
                                       s3: Snap, s4: Snap, s5: Snap, s6: Snap, s7: Snap)
    requires Begins(v, s0) && Uprooted(s0, OnRead, a, s1) && Uprooted(s1, OnWrite, b, s2)
      && Uprooted(s2, OnTimer, d, s3)
    requires s4 == Unlisted(s3, OnEvent) && s4.c.Index?
    requires s5 == Snap(s4.m, s4.c.(pids := RemoveEach(s4.c.pids, s4.m.ready))) && s6 == Unlisted(s5, OnReady)
      && s7 == Unlisted(s6, Running)
    ensures Cleaned(v, s7, true)
  {
    StartStage(v, s0);
    TreesStage(v, s0, a, s1, b, s2, d, s3);
    KeepStage(v, s3, s4, s5, s6, s7);
    StageCleaned(v, s7, true);
  }
}
