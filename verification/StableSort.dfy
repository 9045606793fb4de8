/**
 What `list_sort` computes: the stable sort of a sequence, defined by insertion, with the
 law that lets it be computed by merging.
 */
module StableSort {
  type Cmp = (nat, nat) -> int

  /** What the comparison must be: `cmp(a, b) <= 0` is a total preorder. */
  ghost predicate TotalPreorder(cmp: Cmp) {
    && (forall a, b :: cmp(a, b) <= 0 || cmp(b, a) <= 0)
    && (forall a, b, c :: cmp(a, b) <= 0 && cmp(b, c) <= 0 ==> cmp(a, c) <= 0)
  }

  /** `x` goes in front of everything that is not smaller. */
  ghost function Ins(cmp: Cmp, x: nat, s: seq<nat>): seq<nat> {
    if s == [] || cmp(x, s[0]) <= 0 then [x] + s else [s[0]] + Ins(cmp, x, s[1..])
  }

  ghost function Sort(cmp: Cmp, s: seq<nat>): seq<nat> {
    if s == [] then [] else Ins(cmp, s[0], Sort(cmp, s[1..]))
  }

  /** Of equal heads the left one is taken. */
  ghost function Merge(cmp: Cmp, xs: seq<nat>, ys: seq<nat>): seq<nat> {
    if xs == [] then ys
    else if ys == [] then xs
    else if cmp(xs[0], ys[0]) <= 0 then [xs[0]] + Merge(cmp, xs[1..], ys)
    else [ys[0]] + Merge(cmp, xs, ys[1..])
  }

  lemma {:induction false} MergeIns(cmp: Cmp, x: nat, a: seq<nat>, b: seq<nat>)
    requires TotalPreorder(cmp)
    ensures Merge(cmp, Ins(cmp, x, a), b) == Ins(cmp, x, Merge(cmp, a, b))
    decreases |a| + |b|
  {
    var i := Ins(cmp, x, a);
    if b == [] {
    } else if a == [] || cmp(x, a[0]) <= 0 {
      assert i[1..] == a;
      if cmp(x, b[0]) > 0 {
        MergeIns(cmp, x, a, b[1..]);
        assert Merge(cmp, a, b) == [b[0]] + Merge(cmp, a, b[1..]);
        assert Merge(cmp, a, b)[1..] == Merge(cmp, a, b[1..]);
      } else {
        assert Merge(cmp, a, b)[0] == if a == [] || cmp(a[0], b[0]) > 0 then b[0] else a[0];
      }
    } else {
      assert i[1..] == Ins(cmp, x, a[1..]);
      if cmp(a[0], b[0]) <= 0 {
        MergeIns(cmp, x, a[1..], b);
        assert Merge(cmp, a, b)[1..] == Merge(cmp, a[1..], b);
      } else {
        MergeIns(cmp, x, a, b[1..]);
        assert Merge(cmp, a, b)[1..] == Merge(cmp, a, b[1..]);
      }
    }
  }

  lemma SortHead(cmp: Cmp, s: seq<nat>)
    requires s != []
    ensures Sort(cmp, s) == Ins(cmp, s[0], Sort(cmp, s[1..]))
  {}

  /** Merging sorted halves sorts the whole, stably. */
  lemma {:induction false} SortConcat(cmp: Cmp, xs: seq<nat>, ys: seq<nat>)
    requires TotalPreorder(cmp)
    ensures Sort(cmp, xs + ys) == Merge(cmp, Sort(cmp, xs), Sort(cmp, ys))
  {
    if xs == [] {
      assert xs + ys == ys;
    } else {
      var a, b := Sort(cmp, xs[1..]), Sort(cmp, ys);
      assert Sort(cmp, xs + ys) == Ins(cmp, xs[0], Sort(cmp, xs[1..] + ys)) by {
        assert (xs + ys)[1..] == xs[1..] + ys;
        SortHead(cmp, xs + ys);
      }
      assert Sort(cmp, xs) == Ins(cmp, xs[0], a) by { SortHead(cmp, xs); }
      SortConcat(cmp, xs[1..], ys);
      MergeIns(cmp, xs[0], a, b);
    }
  }

  // ----- What makes it a stable sort

  ghost predicate Ascending(cmp: Cmp, s: seq<nat>) {
    forall i, j :: 0 <= i < j < |s| ==> cmp(s[i], s[j]) <= 0
  }

  /** `x` alone, if it compares equal to `y`. */
  ghost function Own(cmp: Cmp, y: nat, x: nat): seq<nat> {
    if cmp(y, x) <= 0 && cmp(x, y) <= 0 then [x] else []
  }

  /** The elements of `s` that compare equal to `x`, in their order in `s`. */
  ghost function Equals(cmp: Cmp, x: nat, s: seq<nat>): seq<nat> {
    if s == [] then [] else Own(cmp, x, s[0]) + Equals(cmp, x, s[1..])
  }

  lemma {:induction false} InsElements(cmp: Cmp, x: nat, s: seq<nat>)
    ensures forall y :: y in Ins(cmp, x, s) <==> y == x || y in s
  {
    if s != [] && cmp(x, s[0]) > 0 {
      InsElements(cmp, x, s[1..]);
      assert s == [s[0]] + s[1..];
    }
  }

  lemma FrontAscending(cmp: Cmp, x: nat, s: seq<nat>)
    requires Ascending(cmp, s) && forall y :: y in s ==> cmp(x, y) <= 0
    ensures Ascending(cmp, [x] + s)
  {
    var r := [x] + s;
    forall i, j | 0 <= i < j < |r| ensures cmp(r[i], r[j]) <= 0 {
      assert r[j] == s[j - 1] && s[j - 1] in s;
      if i > 0 { assert r[i] == s[i - 1]; }
    }
  }

  /** The first of an ascending sequence comes before all of it, and so does what comes before the first. */
  lemma FirstLeast(cmp: Cmp, x: nat, s: seq<nat>, y: nat)
    requires TotalPreorder(cmp) && Ascending(cmp, s) && s != [] && cmp(x, s[0]) <= 0 && y in s
    ensures cmp(x, y) <= 0
  {
    var k :| 0 <= k < |s| && s[k] == y;
    if k > 0 { assert cmp(s[0], s[k]) <= 0; }
  }

  lemma {:induction false} InsAscending(cmp: Cmp, x: nat, s: seq<nat>)
    requires TotalPreorder(cmp) && Ascending(cmp, s)
    ensures Ascending(cmp, Ins(cmp, x, s))
  {
    if s == [] {
    } else if cmp(x, s[0]) <= 0 {
      forall y | y in s ensures cmp(x, y) <= 0 { FirstLeast(cmp, x, s, y); }
      FrontAscending(cmp, x, s);
    } else {
      var r := Ins(cmp, x, s[1..]);
      InsAscending(cmp, x, s[1..]);
      InsElements(cmp, x, s[1..]);
      assert cmp(s[0], x) <= 0 && cmp(s[0], s[0]) <= 0;
      forall y | y in r ensures cmp(s[0], y) <= 0 {
        if y != x { FirstLeast(cmp, s[0], s, y); }
      }
      FrontAscending(cmp, s[0], r);
    }
  }

  lemma {:induction false} InsPermutes(cmp: Cmp, x: nat, s: seq<nat>)
    ensures multiset(Ins(cmp, x, s)) == multiset(s) + multiset{x}
  {
    if s != [] && cmp(x, s[0]) > 0 {
      InsPermutes(cmp, x, s[1..]);
      assert s == [s[0]] + s[1..];
    }
  }

  lemma EqualsCons(cmp: Cmp, y: nat, x: nat, s: seq<nat>)
    ensures Equals(cmp, y, [x] + s) == Own(cmp, y, x) + Equals(cmp, y, s)
  {
    assert ([x] + s)[1..] == s;
  }

  /** Of two elements in strict order at most one is equal to `y`. */
  lemma OwnSwap(cmp: Cmp, y: nat, a: nat, b: nat, r: seq<nat>)
    requires TotalPreorder(cmp) && cmp(a, b) > 0
    ensures Own(cmp, y, b) + (Own(cmp, y, a) + r) == Own(cmp, y, a) + (Own(cmp, y, b) + r)
  {
    assert Own(cmp, y, a) == [] || Own(cmp, y, b) == [];
  }

  lemma {:induction false} InsStable(cmp: Cmp, y: nat, x: nat, s: seq<nat>)
    requires TotalPreorder(cmp)
    ensures Equals(cmp, y, Ins(cmp, x, s)) == Own(cmp, y, x) + Equals(cmp, y, s)
  {
    if s == [] || cmp(x, s[0]) <= 0 {
      EqualsCons(cmp, y, x, s);
    } else {
      var t := s[1..];
      InsStable(cmp, y, x, t);
      EqualsCons(cmp, y, s[0], Ins(cmp, x, t));
      assert s == [s[0]] + t;
      EqualsCons(cmp, y, s[0], t);
      OwnSwap(cmp, y, x, s[0], Equals(cmp, y, t));
    }
  }

  lemma {:induction false} SortAscending(cmp: Cmp, s: seq<nat>)
    requires TotalPreorder(cmp)
    ensures Ascending(cmp, Sort(cmp, s))
  {
    if s != [] {
      SortAscending(cmp, s[1..]);
      InsAscending(cmp, s[0], Sort(cmp, s[1..]));
    }
  }

  lemma {:induction false} SortPermutes(cmp: Cmp, s: seq<nat>)
    ensures multiset(Sort(cmp, s)) == multiset(s)
  {
    if s != [] {
      SortPermutes(cmp, s[1..]);
      InsPermutes(cmp, s[0], Sort(cmp, s[1..]));
      assert s == [s[0]] + s[1..];
    }
  }

  lemma {:induction false} SortStable(cmp: Cmp, y: nat, s: seq<nat>)
    requires TotalPreorder(cmp)
    ensures Equals(cmp, y, Sort(cmp, s)) == Equals(cmp, y, s)
  {
    if s != [] {
      SortStable(cmp, y, s[1..]);
      InsStable(cmp, y, s[0], Sort(cmp, s[1..]));
    }
  }

  /** `Sort` yields an ascending permutation that keeps the order of equal elements. */
  lemma {:induction false} SortCorrect(cmp: Cmp, s: seq<nat>)
    requires TotalPreorder(cmp)
    ensures Ascending(cmp, Sort(cmp, s))
    ensures multiset(Sort(cmp, s)) == multiset(s)
    ensures forall y :: Equals(cmp, y, Sort(cmp, s)) == Equals(cmp, y, s)
  {
    SortAscending(cmp, s);
    SortPermutes(cmp, s);
    forall y ensures Equals(cmp, y, Sort(cmp, s)) == Equals(cmp, y, s) { SortStable(cmp, y, s); }
  }
}
