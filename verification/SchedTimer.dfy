/**
 What the timer descriptor is armed for: `thread_set_timer` looks at the first thread of each
 tree and takes zero to mean that no deadline has been seen yet.
 */
module SchedTimer {
  import opened Timers
  import opened SchedModel
  import opened SchedSteps
  import opened SchedRuns

  const ZERO := Timeval(0, 0)

  const LONG_MAX: int := 0x7fff_ffff_ffff_ffff

  /** `timerisset` */
  predicate IsSet(a: Timeval) { a.sec != 0 || a.usec != 0 }

  /** `thread_update_timer` */
  function UpdateTimer(threads: map<nat, Thread>, tree: seq<nat>, least: Timeval): Timeval {
    if tree == [] then least
    else
      var first := SandsOf(threads)(tree[0]);
      if Disabled(first) then least
      else if !IsSet(least) || !Earlier(least, first) then first
      else least
  }

  /** The deadline `thread_set_timer` waits for, or zero. */
  function Deadline(s: Sched): Timeval {
    var a := UpdateTimer(s.threads, At(s, OnTimer), ZERO);
    var b := UpdateTimer(s.threads, At(s, OnWrite), a);
    var c := UpdateTimer(s.threads, At(s, OnRead), b);
    UpdateTimer(s.threads, At(s, OnChild), c)
  }

  /** `timersub` */
  function Minus(a: Timeval, b: Timeval): Timeval {
    if a.usec < b.usec then Timeval(a.sec - b.sec - 1, a.usec - b.usec + 1000000)
    else Timeval(a.sec - b.sec, a.usec - b.usec)
  }

  /** `struct timespec` */
  datatype Timespec = Timespec(sec: int, nsec: int)

  /** What the descriptor is armed for when there is no deadline. */
  const FOREVER := Timespec(LONG_MAX, 0)

  /** A nanosecond, zero being what disarms the descriptor. */
  const AT_ONCE := Timespec(0, 1)

  /** What `timerfd_settime` is given for deadline `d`. */
  function Armed(d: Timeval, now: Timeval): Timespec {
    var wait := if !IsSet(d) then Timeval(LONG_MAX, 0) else if Minus(d, now).sec < 0 then ZERO else Minus(d, now);
    Timespec(wait.sec, if IsSet(wait) then wait.usec * 1000 else 1)
  }

  // ----- What is meant

  /** Thread `t` waits for a deadline. */
  predicate Waits(threads: map<nat, Thread>, t: nat) {
    t in threads && IsTree(threads[t].at) && !Disabled(threads[t].sands)
  }

  ghost predicate IsEarliest(threads: map<nat, Thread>, d: Timeval) {
    && (exists t :: Waits(threads, t) && threads[t].sands == d)
    && forall t :: Waits(threads, t) ==> !Earlier(threads[t].sands, d)
  }

  ghost predicate Normalised(threads: map<nat, Thread>) {
    forall t :: Waits(threads, t) ==> Normal(threads[t].sands)
  }

  /** The deadlines `thread_set_timer` compares, in its order. */
  function Heads(s: Sched): seq<Timeval> {
    Head(s, OnTimer) + Head(s, OnWrite) + Head(s, OnRead) + Head(s, OnChild)
  }

  function Head(s: Sched, k: Queue): seq<Timeval> {
    if At(s, k) == [] || Disabled(SandsOf(s.threads)(At(s, k)[0])) then [] else [SandsOf(s.threads)(At(s, k)[0])]
  }

  /** No tree starts with deadline zero, unless the last one compared does. */
  predicate ZeroLast(ds: seq<Timeval>) { ZERO in ds ==> ds[|ds| - 1] == ZERO }

  // ----- The comparison of up to four deadlines

  function Least(ds: seq<Timeval>, least: Timeval): Timeval {
    if ds == [] then least
    else Least(ds[1..], if !IsSet(least) || !Earlier(least, ds[0]) then ds[0] else least)
  }

  lemma {:induction false} LeastConcat(a: seq<Timeval>, b: seq<Timeval>, least: Timeval)
    ensures Least(a + b, least) == Least(b, Least(a, least))
  {
    if a == [] {
      assert a + b == b;
    } else {
      assert (a + b)[1..] == a[1..] + b;
      LeastConcat(a[1..], b, if !IsSet(least) || !Earlier(least, a[0]) then a[0] else least);
    }
  }

  lemma LeastHead(s: Sched, k: Queue, least: Timeval)
    ensures Least(Head(s, k), least) == UpdateTimer(s.threads, At(s, k), least)
  {}

  lemma {:induction false} DeadlineIsLeast(s: Sched)
    ensures Deadline(s) == Least(Heads(s), ZERO)
  {
    var a := Head(s, OnTimer) + Head(s, OnWrite);
    LeastConcat(a + Head(s, OnRead), Head(s, OnChild), ZERO);
    LeastConcat(a, Head(s, OnRead), ZERO);
    LeastConcat(Head(s, OnTimer), Head(s, OnWrite), ZERO);
    LeastHead(s, OnTimer, ZERO);
    LeastHead(s, OnWrite, Least(Head(s, OnTimer), ZERO));
    LeastHead(s, OnRead, Least(a, ZERO));
    LeastHead(s, OnChild, Least(a + Head(s, OnRead), ZERO));
  }

  ghost predicate IsMin(ds: seq<Timeval>, d: Timeval) { d in ds && forall x :: x in ds ==> !Earlier(x, d) }

  ghost predicate AllNormal(ds: seq<Timeval>) { forall x :: x in ds ==> Normal(x) }

  /** The new least stands for itself and for the deadline it was compared with. */
  lemma MinStep(least: Timeval, d: Timeval, rest: seq<Timeval>, m: Timeval)
    requires Normal(least) && Normal(d) && d != ZERO
    requires IsMin([if !IsSet(least) || !Earlier(least, d) then d else least] + rest, m)
    ensures IsMin(if IsSet(least) then [least] + ([d] + rest) else [d] + rest, m)
  {
    var next := if !IsSet(least) || !Earlier(least, d) then d else least;
    assert next in [next] + rest && forall x :: x in rest ==> x in [next] + rest;
    assert !Earlier(next, m);
    assert m == next || m in rest;
    assert forall x :: x in [d] + rest <==> x == d || x in rest;
    assert forall x :: x in [least] + ([d] + rest) <==> x == least || x == d || x in rest;
  }

  lemma {:induction false} LeastNoZero(ds: seq<Timeval>, least: Timeval)
    requires AllNormal(ds) && Normal(least) && ZERO !in ds
    ensures ds != [] || IsSet(least) ==> IsMin(if IsSet(least) then [least] + ds else ds, Least(ds, least))
  {
    if ds == [] {
      assert IsSet(least) ==> IsMin([least] + ds, least) by { assert [least] + ds == [least]; }
    } else {
      var next := if !IsSet(least) || !Earlier(least, ds[0]) then ds[0] else least;
      assert ds[0] in ds && ds == [ds[0]] + ds[1..];
      LeastNoZero(ds[1..], next);
      MinStep(least, ds[0], ds[1..], Least(ds, least));
    }
  }

  lemma {:induction false} LeastZero(ds: seq<Timeval>, least: Timeval)
    requires AllNormal(ds) && Normal(least) && ZERO in ds
    ensures Least(ds, least) == ZERO <==> ds[|ds| - 1] == ZERO
  {
    var next := if !IsSet(least) || !Earlier(least, ds[0]) then ds[0] else least;
    assert ds[0] in ds && ds == [ds[0]] + ds[1..];
    if ZERO in ds[1..] {
      LeastZero(ds[1..], next);
    } else {
      LeastNoZero(ds[1..], next);
    }
  }

  /** Zero is taken for unset, so it is lost if a deadline follows it. */
  lemma {:induction false} LeastIsMin(ds: seq<Timeval>)
    requires AllNormal(ds) && ds != []
    ensures IsMin(ds, Least(ds, ZERO)) <==> ZeroLast(ds)
  {
    if ZERO in ds { LeastZero(ds, ZERO); } else { LeastNoZero(ds, ZERO); }
  }

  lemma ZeroIsMin(ds: seq<Timeval>)
    requires AllNormal(ds) && ZERO in ds
    ensures IsMin(ds, ZERO)
  {}

  // ----- The four trees

  /** The head of a tree is the earliest deadline in it. */
  lemma {:induction false} HeadIsEarliest(s: Sched, k: Queue, t: nat)
    requires Holds(s.threads, k, At(s, k)) && IsTree(k) && Waits(s.threads, t) && s.threads[t].at == k
    ensures Head(s, k) == [s.threads[At(s, k)[0]].sands] && !Earlier(s.threads[t].sands, Head(s, k)[0])
  {
    var q := At(s, k);
    var i :| 0 <= i < |q| && q[i] == t;
    assert q[0] in q;
    if i > 0 { assert !ByDeadline(s.threads)(q[i], q[0]); }
  }

  lemma HeadIsThere(s: Sched, k: Queue)
    requires Holds(s.threads, k, At(s, k)) && IsTree(k) && Head(s, k) != []
    ensures var t := At(s, k)[0]; Waits(s.threads, t) && s.threads[t].sands == Head(s, k)[0]
  {
    assert At(s, k)[0] in At(s, k);
  }

  lemma InHeads(s: Sched, k: Queue)
    requires IsTree(k)
    ensures forall x :: x in Head(s, k) ==> x in Heads(s)
  {}

  lemma HeadsFrom(s: Sched, d: Timeval) returns (k: Queue)
    requires d in Heads(s)
    ensures IsTree(k) && d in Head(s, k)
  {
    k := if d in Head(s, OnTimer) then OnTimer else if d in Head(s, OnWrite) then OnWrite
         else if d in Head(s, OnRead) then OnRead else OnChild;
  }

  lemma {:induction false} HeadBefore(s: Sched, t: nat)
    requires Queued(s.threads, s.q) && Waits(s.threads, t)
    ensures var h := Head(s, s.threads[t].at); |h| == 1 && h[0] in Heads(s) && !Earlier(s.threads[t].sands, h[0])
  {
    var k := s.threads[t].at;
    assert Holds(s.threads, k, Look(s.q, k));
    HeadIsEarliest(s, k, t);
    InHeads(s, k);
  }

  lemma {:induction false} MinIsEarliest(s: Sched, d: Timeval)
    requires Queued(s.threads, s.q) && IsMin(Heads(s), d)
    ensures IsEarliest(s.threads, d)
  {
    var k := HeadsFrom(s, d);
    assert Holds(s.threads, k, Look(s.q, k));
    HeadIsThere(s, k);
    forall t | Waits(s.threads, t) ensures !Earlier(s.threads[t].sands, d) { HeadBefore(s, t); }
  }

  lemma EarliestOnce(threads: map<nat, Thread>, a: Timeval, b: Timeval)
    requires IsEarliest(threads, a) && IsEarliest(threads, b)
    ensures a == b
  {}

  lemma {:induction false} HeadsNormal(s: Sched)
    requires Queued(s.threads, s.q) && Normalised(s.threads)
    ensures AllNormal(Heads(s)) && (Heads(s) == [] <==> forall t :: !Waits(s.threads, t))
  {
    forall d | d in Heads(s) ensures exists t :: Waits(s.threads, t) && s.threads[t].sands == d {
      var k := HeadsFrom(s, d);
      assert Holds(s.threads, k, Look(s.q, k));
      HeadIsThere(s, k);
    }
    if t :| Waits(s.threads, t) { HeadBefore(s, t); }
    if Heads(s) != [] { assert Heads(s)[0] in Heads(s); }
  }

  // ----- What is armed

  /** The deadline is the earliest of all, unless a tree that starts with zero is followed by one that does not. */
  lemma {:induction false} DeadlineExact(s: Sched)
    requires Inv(s) && Normalised(s.threads)
    ensures (forall t :: !Waits(s.threads, t)) ==> Deadline(s) == ZERO
    ensures (exists t :: Waits(s.threads, t)) ==> (IsEarliest(s.threads, Deadline(s)) <==> ZeroLast(Heads(s)))
  {
    DeadlineIsLeast(s);
    HeadsNormal(s);
    if Heads(s) != [] {
      LeastIsMin(Heads(s));
      if ZeroLast(Heads(s)) {
        MinIsEarliest(s, Deadline(s));
      } else {
        ZeroIsMin(Heads(s));
        MinIsEarliest(s, ZERO);
        if IsEarliest(s.threads, Deadline(s)) { EarliestOnce(s.threads, ZERO, Deadline(s)); }
      }
    }
  }

  predicate Sooner(a: Timespec, b: Timespec) { if a.sec == b.sec then a.nsec < b.nsec else a.sec < b.sec }

  /** The same in nanoseconds. */
  function Exact(a: Timeval): Timespec { Timespec(a.sec, a.usec * 1000) }

  /** The time `n` after `now`. */
  function After(now: Timeval, n: Timespec): Timespec {
    var nsec := now.usec * 1000 + n.nsec;
    if nsec < 1000000000 then Timespec(now.sec + n.sec, nsec) else Timespec(now.sec + n.sec + 1, nsec - 1000000000)
  }

  /** The time that is left until `d`, and a nanosecond if `d` has passed. */
  function Left(d: Timeval, now: Timeval): Timespec {
    if Earlier(now, d) then Exact(Minus(d, now)) else AT_ONCE
  }

  /** What `Left` means: a wait of that length ends at `d`, and there is no shorter one. */
  lemma LeftExact(d: Timeval, now: Timeval, n: Timespec)
    requires Normal(d) && Normal(now) && 0 <= n.nsec < 1000000000 && !Sooner(n, AT_ONCE)
    ensures Earlier(now, d) ==> After(now, Left(d, now)) == Exact(d)
    ensures Sooner(After(now, n), Exact(d)) <==> Sooner(n, Left(d, now))
  {}

  /** Zero stands for no deadline and is slept through; otherwise the time left. */
  lemma ArmedExact(d: Timeval, now: Timeval)
    requires Normal(d) && Normal(now)
    ensures Armed(d, now) == if d == ZERO then FOREVER else Left(d, now)
  {}

  /** No tree starts with deadline zero, or the deadline found instead has passed as well. */
  predicate Timely(s: Sched, now: Timeval) {
    ZERO !in Heads(s) || (Deadline(s) != ZERO && !Earlier(now, Deadline(s)))
  }

  lemma {:induction false} EarliestIsMin(s: Sched, e: Timeval)
    requires Inv(s) && Normalised(s.threads) && IsEarliest(s.threads, e)
    ensures Normal(e) && Normal(Deadline(s)) && (ZERO in Heads(s) <==> e == ZERO)
    ensures ZERO !in Heads(s) ==> Deadline(s) == e
  {
    DeadlineExact(s);
    DeadlineIsLeast(s);
    HeadsNormal(s);
    LeastNormal(Heads(s), ZERO);
    if ZERO in Heads(s) {
      ZeroIsMin(Heads(s));
      MinIsEarliest(s, ZERO);
      EarliestOnce(s.threads, ZERO, e);
    } else {
      EarliestOnce(s.threads, Deadline(s), e);
      LeastIsMin(Heads(s));
    }
  }

  lemma {:induction false} LeastNormal(ds: seq<Timeval>, least: Timeval)
    requires AllNormal(ds) && Normal(least)
    ensures Normal(Least(ds, least))
  {
    if ds != [] {
      assert ds[0] in ds;
      LeastNormal(ds[1..], if !IsSet(least) || !Earlier(least, ds[0]) then ds[0] else least);
    }
  }

  /** Armed for one nanosecond is armed for the past. */
  lemma ArmedAtOnce(d: Timeval, now: Timeval)
    requires Normal(d) && Normal(now)
    ensures Armed(d, now) == AT_ONCE <==> d != ZERO && !Earlier(now, d)
    ensures Armed(d, now) == AT_ONCE || Sooner(AT_ONCE, Armed(d, now))
  {}

  /** A descriptor armed for `d`, the earliest deadline being `e`. */
  lemma ArmedFor(d: Timeval, e: Timeval, now: Timeval)
    requires Normal(d) && Normal(e) && Normal(now) && (e != ZERO ==> d == e)
    ensures Armed(d, now) == Left(e, now) <==> e != ZERO || (d != ZERO && !Earlier(now, d))
  {
    if e == ZERO { ArmedAtOnce(d, now); } else { ArmedExact(d, now); }
  }

  /** The descriptor is armed for the earliest deadline of all exactly if `Timely`. */
  lemma {:induction false} ArmedForEarliest(s: Sched, e: Timeval, now: Timeval)
    requires Inv(s) && Normalised(s.threads) && Normal(now) && IsEarliest(s.threads, e)
    ensures Armed(Deadline(s), now) == Left(e, now) <==> Timely(s, now)
  {
    EarliestIsMin(s, e);
    ArmedFor(Deadline(s), e, now);
  }

  /** Some thread is due at time `i`. */
  ghost predicate WorkBy(threads: map<nat, Thread>, i: Timespec) {
    exists t :: Waits(threads, t) && !Sooner(i, Exact(threads[t].sands))
  }

  /** What the handler takes for work is work: a thread is due exactly from its deadline on. */
  lemma DueIsWork(threads: map<nat, Thread>, now: Timeval)
    ensures (exists t :: Waits(threads, t) && Due(threads[t].sands, now)) <==> WorkBy(threads, Exact(now))
  {
    forall t | Waits(threads, t)
      ensures Due(threads[t].sands, now) <==> !Sooner(Exact(now), Exact(threads[t].sands))
    {
      DueBySooner(threads[t].sands, now);
    }
  }

  lemma DueBySooner(d: Timeval, now: Timeval)
    ensures Due(d, now) <==> !Disabled(d) && !Sooner(Exact(now), Exact(d))
  {}

  /** When `n` has passed the descriptor has fired exactly if there is work. */
  ghost predicate WakesRight(s: Sched, now: Timeval, n: Timespec) {
    WorkBy(s.threads, After(now, n)) <==> !Sooner(n, Armed(Deadline(s), now))
  }

  /** A time to come, before the end of time. */
  predicate ToCome(n: Timespec) { 0 <= n.nsec < 1000000000 && !Sooner(n, AT_ONCE) && Sooner(n, FOREVER) }

  lemma {:induction false} EarliestWork(s: Sched, e: Timeval, i: Timespec)
    requires IsEarliest(s.threads, e)
    ensures WorkBy(s.threads, i) <==> !Sooner(i, Exact(e))
  {
    var t :| Waits(s.threads, t) && s.threads[t].sands == e;
  }

  lemma {:induction false} SomeEarliest(s: Sched) returns (e: Timeval)
    requires Inv(s) && Normalised(s.threads) && exists t :: Waits(s.threads, t)
    ensures IsEarliest(s.threads, e)
  {
    HeadsNormal(s);
    DeadlineExact(s);
    e := if ZERO in Heads(s) then ZERO else Deadline(s);
    if ZERO in Heads(s) {
      ZeroIsMin(Heads(s));
      MinIsEarliest(s, ZERO);
    }
  }

  lemma {:induction false} NoWork(s: Sched, now: Timeval, n: Timespec)
    requires Inv(s) && Normalised(s.threads) && Sooner(n, FOREVER) && !exists t :: Waits(s.threads, t)
    ensures Timely(s, now) && WakesRight(s, now, n)
  {
    HeadsNormal(s);
    DeadlineExact(s);
  }

  lemma {:induction false} WakesWhenTimely(s: Sched, now: Timeval, n: Timespec)
    requires Inv(s) && Normalised(s.threads) && Normal(now) && ToCome(n) && Timely(s, now)
    ensures WakesRight(s, now, n)
  {
    if exists t :: Waits(s.threads, t) {
      var e := SomeEarliest(s);
      EarliestIsMin(s, e);
      ArmedForEarliest(s, e, now);
      EarliestWork(s, e, After(now, n));
      LeftExact(e, now, n);
    } else {
      NoWork(s, now, n);
    }
  }

  lemma {:induction false} OversleepsAtOnce(s: Sched, now: Timeval)
    requires Inv(s) && Normalised(s.threads) && Normal(now) && !Timely(s, now)
    ensures !WakesRight(s, now, AT_ONCE)
  {
    HeadsNormal(s);
    var e := SomeEarliest(s);
    EarliestIsMin(s, e);
    EarliestWork(s, e, After(now, AT_ONCE));
    LeftExact(e, now, AT_ONCE);
    ArmedAtOnce(Deadline(s), now);
  }

  /** The descriptor wakes the scheduler neither too early nor too late, at any time to come, exactly if `Timely`. */
  lemma {:induction false} WakesForWork(s: Sched, now: Timeval)
    requires Inv(s) && Normalised(s.threads) && Normal(now)
    ensures (forall n :: ToCome(n) ==> WakesRight(s, now, n)) <==> Timely(s, now)
  {
    if Timely(s, now) {
      forall n | ToCome(n) ensures WakesRight(s, now, n) { WakesWhenTimely(s, now, n); }
    } else {
      OversleepsAtOnce(s, now);
      assert ToCome(AT_ONCE);
    }
  }

  function PastTimer(): Thread { Thread(Timer, ZERO, 0, OnTimer) }

  function LaterRead(d: Timeval): Thread { Thread(Read, d, 0, OnRead) }

  lemma PastAndLaterAt(s: Sched, d: Timeval, k: Queue)
    requires s == Create(Create(IDLE, 1, PastTimer()), 2, LaterRead(d))
    ensures At(s, k) == if k == OnTimer then [1] else if k == OnRead then [2] else []
  {
    CreateAt(IDLE, 1, PastTimer(), k);
    CreateAt(Create(IDLE, 1, PastTimer()), 2, LaterRead(d), k);
  }

  lemma PastAndLater(s: Sched, d: Timeval)
    requires s == Add(Add(IDLE, 1, PastTimer()), 2, LaterRead(d))
    ensures s.threads == map[1 := PastTimer(), 2 := LaterRead(d)]
    ensures At(s, OnTimer) == [1] && At(s, OnWrite) == [] && At(s, OnRead) == [2] && At(s, OnChild) == []
  {
    PastAndLaterAt(s, d, OnTimer);
    PastAndLaterAt(s, d, OnWrite);
    PastAndLaterAt(s, d, OnRead);
    PastAndLaterAt(s, d, OnChild);
  }

  lemma PastIsLost(s: Sched, d: Timeval)
    requires s == Add(Add(IDLE, 1, PastTimer()), 2, LaterRead(d)) && Normal(d) && d != ZERO
    ensures Normalised(s.threads) && Waits(s.threads, 1) && s.threads[1].sands == ZERO
    ensures Heads(s) == [ZERO, d] && ZERO in Heads(s) && !ZeroLast(Heads(s)) && Deadline(s) == d
  {
    PastAndLater(s, d);
    assert Head(s, OnTimer) == [ZERO] && Head(s, OnRead) == [d];
  }

  lemma TimelyAfterZero(s: Sched, now: Timeval)
    requires ZERO in Heads(s) && Deadline(s) != ZERO
    ensures Timely(s, now) <==> !Earlier(now, Deadline(s))
  {}

  lemma ReachBoth(s: Sched, d: Timeval, now: Timeval)
    requires s == Add(Add(IDLE, 1, PastTimer()), 2, LaterRead(d))
    ensures Reached(World(s, now)) && Inv(s)
  {
    ReachFirst(1, PastTimer(), now);
    FirstAdded(1, PastTimer());
    ReachAdd(Add(IDLE, 1, PastTimer()), now, 2, LaterRead(d));
    ReachedSafe(World(s, now));
  }

  /** A timer due since the clock started, then a read due at `d`: the descriptor is armed for the read. */
  lemma {:induction false} ZeroIsLost(s: Sched, d: Timeval, now: Timeval)
    requires s == Add(Add(IDLE, 1, PastTimer()), 2, LaterRead(d)) && Normal(d) && d != ZERO && Normal(now)
    ensures Reached(World(s, now)) && Inv(s) && Normalised(s.threads)
    ensures Waits(s.threads, 1) && Due(s.threads[1].sands, now) && !ZeroLast(Heads(s))
    ensures Timely(s, now) <==> !Earlier(now, d)
    ensures Deadline(s) == d && Armed(Deadline(s), now) == Left(d, now)
  {
    PastIsLost(s, d);
    ArmedExact(d, now);
    TimelyAfterZero(s, now);
    ReachBoth(s, d, now);
  }

  lemma PastAlone(s: Sched)
    requires s == Add(IDLE, 1, PastTimer())
    ensures s.threads == map[1 := PastTimer()] && Heads(s) == [ZERO] && Deadline(s) == ZERO
  {
    assert s == Create(IDLE, 1, PastTimer());
    forall k: Queue ensures At(s, k) == if k == OnTimer then [1] else [] { CreateAt(IDLE, 1, PastTimer(), k); }
    assert Head(s, OnTimer) == [ZERO];
  }

  /** The same timer alone: its deadline is the one found, and the descriptor is armed for ever. */
  lemma {:induction false} ZeroSleeps(s: Sched, now: Timeval)
    requires s == Add(IDLE, 1, PastTimer()) && Normal(now)
    ensures Reached(World(s, now)) && Inv(s) && Normalised(s.threads)
    ensures Waits(s.threads, 1) && Due(s.threads[1].sands, now) && ZeroLast(Heads(s)) && !Timely(s, now)
    ensures Armed(Deadline(s), now) == FOREVER
  {
    PastAlone(s);
    ArmedExact(ZERO, now);
    ReachFirst(1, PastTimer(), now);
    ReachedSafe(World(s, now));
  }
}
