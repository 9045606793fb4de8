/**
 The merge schedule of `list_sort`: which sublists are pending after `count` rounds, as a
 function of `count` alone.
 */
module MergeSchedule {
  import opened Arith

  ghost function Double(s: seq<nat>): (d: seq<nat>)
    ensures |d| == |s| && forall i :: 0 <= i < |s| ==> d[i] == 2 * s[i]
  {
    seq(|s|, i requires 0 <= i < |s| => 2 * s[i])
  }

  /** A new sublist of one element in front. */
  ghost function Push(s: seq<nat>): (p: seq<nat>)
    ensures |p| == |s| + 1 && p[0] == 1 && forall i :: 0 < i <= |s| ==> p[i] == s[i - 1]
  {
    seq(|s| + 1, i requires 0 <= i <= |s| => if i == 0 then 1 else s[i - 1])
  }

  ghost function Tail(s: seq<nat>): (t: seq<nat>)
    requires s != []
    ensures |t| == |s| - 1 && forall i :: 0 <= i < |t| ==> t[i] == s[i + 1]
  {
    seq(|s| - 1, i requires 0 <= i < |s| - 1 => s[i + 1])
  }

  /** The two sublists at `k` merged into one. */
  ghost function Joined(s: seq<nat>, k: nat): (j: seq<nat>)
    requires k + 2 <= |s|
    ensures |j| == |s| - 1 && j[k] == s[k] + s[k + 1]
    ensures (forall i :: 0 <= i < k ==> j[i] == s[i]) && (forall i :: k < i < |j| ==> j[i] == s[i + 1])
  {
    seq(|s| - 1, i requires 0 <= i < |s| - 1 => if i < k then s[i] else if i == k then s[k] + s[k + 1] else s[i + 1])
  }

  /** The sizes for `2 * count + 1`, from those for `count`. */
  ghost function Odd(t: seq<nat>): seq<nat> { Push(Double(t)) }

  /** The sizes for `2 * count`, from those for `count`. */
  ghost function Even(t: seq<nat>): seq<nat>
    requires t != []
  {
    Push(Odd(Tail(t)))
  }

  /** Sizes of the pending sublists, the newest first. */
  ghost function Sizes(count: nat): (s: seq<nat>)
    ensures count > 0 ==> s != [] && s[0] == 1
  {
    if count == 0 then [] else if count % 2 == 1 then Odd(Sizes(count / 2)) else Even(Sizes(count / 2))
  }

  /** Trailing one bits: how far the `tail` walk goes. */
  ghost function Ones(count: nat): nat {
    if count % 2 == 1 then 1 + Ones(count / 2) else 0
  }

  /** What the walk leaves of `bits`. */
  ghost function Strip(count: nat): nat {
    if count % 2 == 1 then Strip(count / 2) else count
  }

  lemma {:induction false} SizesOdd(m: nat, count: nat)
    requires count == 2 * m + 1
    ensures Sizes(count) == Odd(Sizes(m)) && Ones(count) == 1 + Ones(m) && Strip(count) == Strip(m)
  {
    assert count / 2 == m;
  }

  lemma {:induction false} SizesEven(m: nat, count: nat)
    requires count == 2 * m && m > 0
    ensures Sizes(count) == Even(Sizes(m)) && Ones(count) == 0 && Strip(count) == count
  {
    assert count / 2 == m;
  }

  // ----- One round

  datatype Outcome = Stuck | To(sizes: seq<nat>)

  /** What a round does to the pending sublists: it is stuck unless the two to be merged have size 2^k. */
  ghost function Rolled(s: seq<nat>, k: nat, merge: bool): Outcome {
    if k > |s| then Stuck
    else if !merge then To(Push(s))
    else if k + 2 <= |s| && s[k] == s[k + 1] == Pow2(k) then To(Push(Joined(s, k)))
    else Stuck
  }

  ghost predicate Rolls(s: seq<nat>, k: nat, merge: bool, s': seq<nat>) { Rolled(s, k, merge) == To(s') }

  lemma TailPush(s: seq<nat>)
    ensures Tail(Push(s)) == s
  {}

  lemma OddJoined(t: seq<nat>, k: nat)
    requires k + 2 <= |t|
    ensures Odd(Joined(t, k)) == Joined(Odd(t), k + 1)
  {}

  lemma EvenJoined(t: seq<nat>)
    requires t != [] && t[0] == 1
    ensures Joined(Even(t), 0) == Double(t)
  {}

  lemma OddRolls(t: seq<nat>, k: nat, merge: bool, t': seq<nat>)
    requires Rolls(t, k, merge, t')
    ensures t' != [] && Rolls(Odd(t), k + 1, merge, Even(t'))
  {
    if merge {
      TailPush(Joined(t, k));
      OddJoined(t, k);
    } else {
      TailPush(t);
    }
  }

  lemma EvenRolls(t: seq<nat>)
    requires t != [] && t[0] == 1
    ensures Rolls(Even(t), 0, true, Odd(t))
  {
    EvenJoined(t);
  }

  lemma {:induction false} OddRound(m: nat, count: nat)
    requires count == 2 * m + 1 && Rolls(Sizes(m), Ones(m), Strip(m) != 0, Sizes(m + 1))
    ensures Rolls(Sizes(count), Ones(count), Strip(count) != 0, Sizes(count + 1))
  {
    SizesOdd(m, count);
    assert Sizes(count + 1) == Even(Sizes(m + 1)) by { SizesEven(m + 1, count + 1); }
    OddRolls(Sizes(m), Ones(m), Strip(m) != 0, Sizes(m + 1));
  }

  lemma {:induction false} EvenRound(m: nat, count: nat)
    requires count == 2 * m && m > 0
    ensures Rolls(Sizes(count), Ones(count), Strip(count) != 0, Sizes(count + 1))
  {
    EvenRolls(Sizes(m));
    SizesEven(m, count);
    SizesOdd(m, count + 1);
  }

  lemma ZeroRound()
    ensures Rolls(Sizes(0), Ones(0), Strip(0) != 0, Sizes(1))
  {
    SizesOdd(0, 1);
    assert Double([]) == [];
  }

  /** One round: the walk stays inside the list, and the merge joins two lists of equal size 2^k. */
  lemma {:induction false} Round(count: nat)
    ensures Rolls(Sizes(count), Ones(count), Strip(count) != 0, Sizes(count + 1))
  {
    var m := count / 2;
    if count == 0 {
      ZeroRound();
    } else if count == 2 * m {
      EvenRound(m, count);
    } else {
      Round(m);
      OddRound(m, count);
    }
  }

  // ----- Every size is a power of two, smaller ones first

  ghost predicate IsPow2(n: nat) { exists k: nat :: n == Pow2(k) }

  /** Powers of two, none smaller than one before it. */
  ghost predicate Growing(s: seq<nat>) {
    && (forall i :: 0 <= i < |s| ==> IsPow2(s[i]))
    && (forall i, j :: 0 <= i < j < |s| ==> s[i] <= s[j])
  }

  lemma DoublePow2(n: nat)
    requires IsPow2(n)
    ensures IsPow2(2 * n) && n >= 1
  {
    var k: nat :| n == Pow2(k);
    assert 2 * n == Pow2(k + 1);
    PowPositive(k);
  }

  lemma PushGrowing(s: seq<nat>)
    requires Growing(s)
    ensures Growing(Push(s))
  {
    assert 1 == Pow2(0);
    forall i | 0 < i <= |s| ensures IsPow2(Push(s)[i]) && Push(s)[i] >= 1 { DoublePow2(s[i - 1]); }
  }

  lemma DoubleGrowing(s: seq<nat>)
    requires Growing(s)
    ensures Growing(Double(s))
  {
    forall i | 0 <= i < |s| ensures IsPow2(Double(s)[i]) { DoublePow2(s[i]); }
  }

  /** Every pending size is a power of two, and smaller sublists come first. */
  lemma {:induction false} SizesGrow(count: nat)
    ensures Growing(Sizes(count))
  {
    if count > 0 {
      var t := Sizes(count / 2);
      SizesGrow(count / 2);
      if count % 2 == 1 {
        DoubleGrowing(t);
        PushGrowing(Double(t));
      } else {
        DoubleGrowing(Tail(t));
        PushGrowing(Double(Tail(t)));
        PushGrowing(Odd(Tail(t)));
      }
    }
  }

  // ----- The table of pending sizes

  predicate Bit(count: nat, k: nat) {
    if k == 0 then count % 2 == 1 else Bit(count / 2, k - 1)
  }

  /** Bit k - 1, bit -1 counting as set. */
  predicate Below(count: nat, k: nat) { k == 0 || Bit(count, k - 1) }

  /** Some bit above bit k is set. */
  predicate Higher(count: nat, k: nat) {
    if k == 0 then count / 2 != 0 else Higher(count / 2, k - 1)
  }

  /** The six states: how many sublists of size 2^k are pending. */
  function Pending(count: nat, k: nat): (n: nat)
    ensures n <= 2
  {
    var x := if Below(count, k) then 1 else 0;
    if Bit(count, k) then x else if Higher(count, k) then 1 + x else 0
  }

  /** How many of the first `n` are `v`. */
  ghost function Num(s: seq<nat>, n: nat, v: nat): nat
    requires n <= |s|
  {
    if n == 0 then 0 else Num(s, n - 1, v) + if s[n - 1] == v then 1 else 0
  }

  ghost function Count(s: seq<nat>, v: nat): nat { Num(s, |s|, v) }

  lemma {:induction false} NumPush(s: seq<nat>, n: nat, v: nat)
    requires n <= |s|
    ensures Num(Push(s), n + 1, v) == (if v == 1 then 1 else 0) + Num(s, n, v)
  {
    if n > 0 { NumPush(s, n - 1, v); }
  }

  lemma {:induction false} NumTail(s: seq<nat>, n: nat, v: nat)
    requires 1 <= n <= |s|
    ensures Num(s, n, v) == (if v == s[0] then 1 else 0) + Num(Tail(s), n - 1, v)
  {
    if n > 1 { NumTail(s, n - 1, v); }
  }

  lemma {:induction false} NumDouble(s: seq<nat>, n: nat, v: nat)
    requires n <= |s|
    ensures Num(Double(s), n, 2 * v) == Num(s, n, v) && Num(Double(s), n, 1) == 0
  {
    if n > 0 { NumDouble(s, n - 1, v); }
  }

  lemma {:induction false} ZeroPending(k: nat)
    ensures Pending(0, k) == 0 && !Bit(0, k) && !Higher(0, k)
  {
    if k != 0 { ZeroPending(k - 1); }
  }

  lemma OddNum(t: seq<nat>, k: nat)
    ensures Count(Odd(t), Pow2(k)) == if k == 0 then 1 else Count(t, Pow2(k - 1))
  {
    NumPush(Double(t), |t|, Pow2(k));
    NumDouble(t, |t|, if k == 0 then 0 else Pow2(k - 1));
  }

  lemma EvenNum(t: seq<nat>, k: nat)
    requires t != [] && t[0] == 1
    ensures Count(Even(t), Pow2(k)) == if k == 0 then 2 else if k == 1 then Count(t, 1) - 1 else Count(t, Pow2(k - 1))
  {
    NumPush(Odd(Tail(t)), |t|, Pow2(k));
    OddNum(Tail(t), k);
    if k > 0 { NumTail(t, |t|, Pow2(k - 1)); }
    if k > 1 { assert Pow2(k - 1) == 2 * Pow2(k - 2); }
  }

  /** The number of pending sublists of each size is what the bits of `count` say. */
  lemma {:induction false} PendingTable(count: nat, k: nat)
    ensures Count(Sizes(count), Pow2(k)) == Pending(count, k) <= 2
    decreases count
  {
    var m := count / 2;
    if count == 0 {
      ZeroPending(k);
    } else if count % 2 == 1 {
      SizesOdd(m, count);
      OddNum(Sizes(m), k);
      if k > 0 {
        PendingTable(m, k - 1);
        OddPending(m, k);
      }
    } else {
      SizesEven(m, count);
      EvenNum(Sizes(m), k);
      if k > 0 {
        PendingTable(m, k - 1);
        EvenPending(m, k);
      }
    }
  }

  lemma {:induction false} OddPending(m: nat, k: nat)
    requires k > 0
    ensures Pending(2 * m + 1, k) == Pending(m, k - 1)
  {
    assert (2 * m + 1) / 2 == m;
  }

  lemma {:induction false} EvenPending(m: nat, k: nat)
    requires k > 0 && m > 0
    ensures Pending(2 * m, k) == if k == 1 then Pending(m, 0) - 1 else Pending(m, k - 1)
  {
    assert (2 * m) / 2 == m;
  }

  // ----- Balance

  /** The sum of the first `n`. */
  ghost function Sum(s: seq<nat>, n: nat): nat
    requires n <= |s|
  {
    if n == 0 then 0 else Sum(s, n - 1) + s[n - 1]
  }

  /** A list of size `b` merged with the `a` elements gathered so far is at worst 2:1. */
  ghost predicate TwoToOne(a: nat, b: nat) { b <= 2 * a && a < 2 * b }

  ghost predicate BalancedAt(s: seq<nat>, i: nat) { i < |s| && TwoToOne(Sum(s, i), s[i]) }

  ghost predicate Balanced(s: seq<nat>) { forall i :: 1 <= i < |s| ==> BalancedAt(s, i) }

  lemma {:induction false} OddSum(t: seq<nat>, n: nat)
    requires n <= |t|
    ensures Sum(Odd(t), n + 1) == 1 + 2 * Sum(t, n)
  {
    if n > 0 { OddSum(t, n - 1); } else { FirstSum(Odd(t)); }
  }

  lemma {:induction false} EvenSum(t: seq<nat>, n: nat)
    requires t != [] && t[0] == 1 && 1 <= n <= |t|
    ensures Sum(Even(t), n + 1) == 2 * Sum(t, n)
  {
    if n > 1 {
      EvenSum(t, n - 1);
      assert Even(t)[n] == 2 * t[n - 1];
    } else {
      FirstSum(Even(t));
      FirstSum(t);
    }
  }

  lemma FirstSum(s: seq<nat>)
    requires s != []
    ensures Sum(s, 1) == s[0]
  {
    assert Sum(s, 0) == 0;
  }

  lemma OddBalanced(t: seq<nat>)
    requires Balanced(t) && (t != [] ==> t[0] == 1)
    ensures Balanced(Odd(t)) && Sum(Odd(t), |t| + 1) == 1 + 2 * Sum(t, |t|)
  {
    forall i | 1 <= i < |Odd(t)| ensures BalancedAt(Odd(t), i) {
      OddSum(t, i - 1);
      assert i > 1 ==> BalancedAt(t, i - 1);
    }
    OddSum(t, |t|);
  }

  lemma EvenBalancedAt(t: seq<nat>, i: nat)
    requires Balanced(t) && t != [] && t[0] == 1 && 1 <= i <= |t|
    ensures BalancedAt(Even(t), i)
  {
    if i == 1 {
      FirstSum(Even(t));
    } else {
      EvenSum(t, i - 1);
      assert Even(t)[i] == 2 * t[i - 1];
      assert BalancedAt(t, i - 1);
    }
  }

  lemma EvenBalanced(t: seq<nat>)
    requires Balanced(t) && t != [] && t[0] == 1
    ensures Balanced(Even(t)) && Sum(Even(t), |t| + 1) == 2 * Sum(t, |t|)
  {
    forall i | 1 <= i < |Even(t)| ensures BalancedAt(Even(t), i) { EvenBalancedAt(t, i); }
    EvenSum(t, |t|);
  }

  /** All elements are in the pending sublists, which can be merged from the front. */
  ghost predicate Final(s: seq<nat>, count: nat) {
    Sum(s, |s|) == count && Balanced(s) && (count > 0 ==> s != []) && (count >= 2 ==> |s| >= 2)
  }

  lemma OddFinal(t: seq<nat>, m: nat)
    requires Final(t, m) && (t != [] ==> t[0] == 1)
    ensures Final(Odd(t), 2 * m + 1)
  {
    OddBalanced(t);
  }

  lemma EvenFinal(t: seq<nat>, m: nat)
    requires Final(t, m) && t != [] && t[0] == 1
    ensures Final(Even(t), 2 * m)
  {
    EvenBalanced(t);
  }

  /** The final merges, smallest lists first, are at worst 2:1, and they merge all `count` elements. */
  lemma {:induction false} FinalMerges(count: nat)
    ensures Final(Sizes(count), count)
  {
    var m := count / 2;
    if count != 0 {
      FinalMerges(m);
      if count == 2 * m {
        EvenFinal(Sizes(m), m);
        SizesEven(m, count);
      } else {
        OddFinal(Sizes(m), m);
        SizesOdd(m, count);
      }
    }
  }
}
