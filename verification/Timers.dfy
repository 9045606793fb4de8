/**
 Time values and the order `RB_TIMER_LESS` puts them in: by deadline, disabled timers last.
 */
module Timers {
  import opened SortedSeq

  /** `struct timeval` */
  datatype Timeval = Timeval(sec: int, usec: int)

  /** The value of `tv_sec` that disables a timer. */
  const TIMER_DISABLED: int := -0x8000_0000_0000_0000

  predicate Disabled(a: Timeval) { a.sec == TIMER_DISABLED }

  /** `timercmp(a, b, <)` */
  predicate Earlier(a: Timeval, b: Timeval) {
    if a.sec == b.sec then a.usec < b.usec else a.sec < b.sec
  }

  predicate TimerLess(a: Timeval, b: Timeval) {
    if Disabled(a) then false
    else if Disabled(b) then true
    else if a.sec != b.sec then a.sec < b.sec
    else a.usec < b.usec
  }

  /** A timer whose deadline is not after `now`. */
  predicate Due(a: Timeval, now: Timeval) { !Disabled(a) && !Earlier(now, a) }

  // ----- What the comparisons mean

  /** Deadlines are readings of the monotonic clock plus an unsigned number. */
  predicate Normal(a: Timeval) { 0 <= a.sec && 0 <= a.usec < 1000000 }

  function Micros(a: Timeval): int { a.sec * 1000000 + a.usec }

  /** Times compare as their numbers of microseconds do. */
  lemma EarlierExact(a: Timeval, b: Timeval)
    requires Normal(a) && Normal(b)
    ensures Earlier(a, b) <==> Micros(a) < Micros(b)
  {}

  /** A timer is due exactly if the clock has reached its deadline, and never if it is disabled. */
  lemma DueExact(d: Timeval, now: Timeval)
    ensures Normal(d) && Normal(now) ==> (Due(d, now) <==> Micros(d) <= Micros(now))
    ensures d.sec == -0x8000_0000_0000_0000 ==> !Due(d, now)
  {
    if Normal(d) && Normal(now) { EarlierExact(now, d); }
  }

  /** Sooner deadlines come first, disabled timers last. */
  lemma TimerLessExact(a: Timeval, b: Timeval)
    ensures Normal(a) && Normal(b) ==> (TimerLess(a, b) <==> Micros(a) < Micros(b))
    ensures b.sec == -0x8000_0000_0000_0000 ==> !TimerLess(b, a) && (Normal(a) ==> TimerLess(a, b))
  {}

  /** The order of nodes by their deadlines. */
  function LessBy(sands: nat -> Timeval): Less {
    (a: nat, b: nat) => TimerLess(sands(a), sands(b))
  }

  lemma TimerLessWeak(a: Timeval, b: Timeval, c: Timeval)
    ensures TimerLess(a, b) ==> !TimerLess(b, a) && (TimerLess(a, c) || TimerLess(c, b))
  {}

  lemma TimerOrder(sands: nat -> Timeval)
    ensures StrictWeak(LessBy(sands))
  {
    var less := LessBy(sands);
    forall a: nat, b: nat | less(a, b) ensures !less(b, a) {
      TimerLessWeak(sands(a), sands(b), sands(a));
    }
    forall a: nat, b: nat, c: nat | less(a, b) ensures less(a, c) || less(c, b) {
      TimerLessWeak(sands(a), sands(b), sands(c));
    }
  }

  /** If some timer is due, so is every timer sorted before it. */
  lemma DueFirst(sands: nat -> Timeval, s: seq<nat>, now: Timeval, i: nat, j: nat)
    requires SortedBy(LessBy(sands), s) && i <= j < |s| && Due(sands(s[j]), now)
    ensures Due(sands(s[i]), now)
  {
    if i < j { assert !LessBy(sands)(s[j], s[i]); }
  }
}
