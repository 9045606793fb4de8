/**
 `list_sort` of lib/list_head.c on an arena of list nodes: null-terminated sublists threaded
 through `next`, the list of pending sublists threaded through `prev`.
 */
module ListSort {
  import opened SortedSeq
  import opened MergeSchedule
  import S = StableSort

  type Cmp = S.Cmp

  ghost predicate Disjoint(a: seq<nat>, b: seq<nat>) {
    forall x :: x in a ==> x !in b
  }

  /** The nodes of `s` in a row, the first of them reached through `p`. */
  ghost predicate Path(next: map<nat, nat>, p: nat, s: seq<nat>) {
    && (s != [] ==> p == s[0])
    && (forall i :: 0 <= i < |s| ==> s[i] != 0 && s[i] in next)
    && (forall i :: 0 <= i < |s| - 1 ==> s[i] in next && next[s[i]] == s[i + 1])
  }

  /** A null-terminated list. */
  ghost predicate Chain(next: map<nat, nat>, p: nat, s: seq<nat>) {
    Path(next, p, s) && (if s == [] then p == 0 else next[s[|s| - 1]] == 0)
  }

  ghost function Elems(s: seq<nat>): set<nat> { set x | x in s }

  ghost predicate SameOff(m: map<nat, nat>, m': map<nat, nat>, w: set<nat>) {
    forall x :: x in m && x !in w ==> x in m' && m'[x] == m[x]
  }

  lemma ChainFrame(m: map<nat, nat>, m': map<nat, nat>, p: nat, s: seq<nat>, w: set<nat>)
    requires Chain(m, p, s) && SameOff(m, m', w) && forall x :: x in s ==> x !in w
    ensures Chain(m', p, s)
  {
    forall i | 0 <= i < |s| ensures s[i] in m' && m'[s[i]] == m[s[i]] {
      assert s[i] in s;
    }
  }

  ghost predicate Apart(a: seq<nat>, b: seq<nat>, c: seq<nat>) {
    NoRepeat(a) && NoRepeat(b) && NoRepeat(c) && Disjoint(a, b) && Disjoint(a, c) && Disjoint(b, c)
  }

  lemma TakeApart(a: seq<nat>, b: seq<nat>, c: seq<nat>)
    requires Apart(a, b, c) && b != []
    ensures Apart(a + [b[0]], b[1..], c)
  {
    assert b[0] in b;
    assert forall x :: x in b[1..] ==> x in b && x != b[0];
  }

  ghost predicate Within(a: seq<nat>, b: seq<nat>, c: seq<nat>, w: set<nat>) {
    forall x :: x in a || x in b || x in c ==> x in w
  }

  /** The merged part `ms`, ending at `tail`, and the two lists still to be merged. */
  ghost predicate Woven(next: map<nat, nat>, head: nat, tail: nat, ms: seq<nat>, us: seq<nat>, a: nat, vs: seq<nat>,
                        b: nat) {
    Path(next, head, ms) && tail == Last(ms) && Chain(next, a, us) && Chain(next, b, vs) && Apart(ms, us, vs)
  }

  /** The head of `us` is moved behind `ms`. */
  lemma WeaveStep(m: map<nat, nat>, m': map<nat, nat>, head: nat, tail: nat, ms: seq<nat>, us: seq<nat>, a: nat,
                  vs: seq<nat>, b: nat)
    requires Woven(m, head, tail, ms, us, a, vs, b) && us != []
    requires m' == if tail == 0 then m else m[tail := a]
    ensures a in m' && Woven(m', if tail == 0 then a else head, a, ms + [us[0]], us[1..], m'[a], vs, b)
  {
    var r := ms + [us[0]];
    assert us[0] in us;
    assert tail != 0 ==> tail in ms;
    assert ms == [] <==> tail == 0;
    if tail != 0 {
      assert SameOff(m, m', {tail});
      ChainFrame(m, m', a, us, {tail});
      ChainFrame(m, m', b, vs, {tail});
    }
    forall i | 0 <= i < |r| - 1 ensures r[i] in m' && m'[r[i]] == r[i + 1] {
      assert r[i] == ms[i];
    }
    TakeApart(ms, us, vs);
    assert us[1..] != [] ==> us[1..][|us| - 2] == us[|us| - 1];
  }

  /** One list is exhausted; the other is hung behind `ms`. */
  lemma WeaveEnd(m: map<nat, nat>, head: nat, tail: nat, ms: seq<nat>, vs: seq<nat>, b: nat)
    requires Woven(m, head, tail, ms, [], 0, vs, b) && ms != [] && vs != []
    ensures Chain(m[tail := b], head, ms + vs)
  {
    var m', r := m[tail := b], ms + vs;
    assert tail in ms && SameOff(m, m', {tail});
    ChainFrame(m, m', b, vs, {tail});
    forall i | 0 <= i < |r| - 1 ensures r[i] in m' && m'[r[i]] == r[i + 1] {
      if i < |ms| { assert r[i] == ms[i]; } else { assert r[i] == vs[i - |ms|]; }
    }
  }

  lemma WovenSwap(m: map<nat, nat>, head: nat, tail: nat, ms: seq<nat>, us: seq<nat>, a: nat, vs: seq<nat>, b: nat)
    requires Woven(m, head, tail, ms, us, a, vs, b)
    ensures Woven(m, head, tail, ms, vs, b, us, a)
  {}

  lemma WeaveRight(m: map<nat, nat>, m': map<nat, nat>, head: nat, tail: nat, ms: seq<nat>, us: seq<nat>, a: nat,
                   vs: seq<nat>, b: nat)
    requires Woven(m, head, tail, ms, us, a, vs, b) && vs != []
    requires m' == if tail == 0 then m else m[tail := b]
    ensures b in m' && Woven(m', if tail == 0 then b else head, b, ms + [vs[0]], us, a, vs[1..], m'[b])
  {
    WovenSwap(m, head, tail, ms, us, a, vs, b);
    WeaveStep(m, m', head, tail, ms, vs, b, us, a);
    WovenSwap(m', if tail == 0 then b else head, b, ms + [vs[0]], vs[1..], m'[b], us, a);
  }

  /** Between two rounds of a merge that is to yield `goal`. */
  ghost predicate Merging(cmp: Cmp, m0: map<nat, nat>, m: map<nat, nat>, head: nat, tail: nat,
                          goal: seq<nat>, w: set<nat>, ms: seq<nat>, us: seq<nat>, a: nat, vs: seq<nat>, b: nat) {
    && Woven(m, head, tail, ms, us, a, vs, b)
    && goal == ms + S.Merge(cmp, us, vs)
    && Within(ms, us, vs, w)
    && SameOff(m0, m, w)
  }

  lemma StepLeft(cmp: Cmp, m0: map<nat, nat>, m: map<nat, nat>, head: nat, tail: nat,
                 goal: seq<nat>, w: set<nat>, ms: seq<nat>, us: seq<nat>, a: nat, vs: seq<nat>, b: nat)
    requires Merging(cmp, m0, m, head, tail, goal, w, ms, us, a, vs, b) && us != [] && vs != [] && cmp(a, b) <= 0
    ensures var m' := if tail == 0 then m else m[tail := a];
      a in m' && Merging(cmp, m0, m', if tail == 0 then a else head, a, goal, w, ms + [us[0]], us[1..], m'[a], vs, b)
  {
    var m' := if tail == 0 then m else m[tail := a];
    assert a == us[0] && b == vs[0] && S.Merge(cmp, us, vs) == [us[0]] + S.Merge(cmp, us[1..], vs);
    WeaveStep(m, m', head, tail, ms, us, a, vs, b);
    assert ms + ([us[0]] + S.Merge(cmp, us[1..], vs)) == (ms + [us[0]]) + S.Merge(cmp, us[1..], vs);
    assert us[0] in us && (tail != 0 ==> tail in ms);
  }

  lemma StepRight(cmp: Cmp, m0: map<nat, nat>, m: map<nat, nat>, head: nat, tail: nat,
                  goal: seq<nat>, w: set<nat>, ms: seq<nat>, us: seq<nat>, a: nat, vs: seq<nat>, b: nat)
    requires Merging(cmp, m0, m, head, tail, goal, w, ms, us, a, vs, b) && us != [] && vs != [] && cmp(a, b) > 0
    ensures var m' := if tail == 0 then m else m[tail := b];
      b in m' && Merging(cmp, m0, m', if tail == 0 then b else head, b, goal, w, ms + [vs[0]], us, a, vs[1..], m'[b])
  {
    var m' := if tail == 0 then m else m[tail := b];
    assert a == us[0] && b == vs[0] && S.Merge(cmp, us, vs) == [vs[0]] + S.Merge(cmp, us, vs[1..]);
    WeaveRight(m, m', head, tail, ms, us, a, vs, b);
    assert ms + ([vs[0]] + S.Merge(cmp, us, vs[1..])) == (ms + [vs[0]]) + S.Merge(cmp, us, vs[1..]);
    assert vs[0] in vs && (tail != 0 ==> tail in ms);
  }

  lemma EndMerge(cmp: Cmp, m0: map<nat, nat>, m: map<nat, nat>, head: nat, tail: nat,
                 goal: seq<nat>, w: set<nat>, ms: seq<nat>, us: seq<nat>, a: nat, vs: seq<nat>, b: nat)
    requires Merging(cmp, m0, m, head, tail, goal, w, ms, us, a, vs, b) && ms != []
    ensures a == 0 && b != 0 ==> Chain(m[tail := b], head, goal) && SameOff(m0, m[tail := b], w)
    ensures b == 0 && a != 0 ==> Chain(m[tail := a], head, goal) && SameOff(m0, m[tail := a], w)
  {
    assert tail in ms;
    if a == 0 && b != 0 {
      assert us == [] && vs != [];
      WeaveEnd(m, head, tail, ms, vs, b);
    } else if b == 0 && a != 0 {
      assert vs == [] && us != [];
      WovenSwap(m, head, tail, ms, us, a, vs, b);
      WeaveEnd(m, head, tail, ms, us, a);
    }
  }

  /** Only one of the two lists is left. */
  lemma OneLeft(cmp: Cmp, m0: map<nat, nat>, m: map<nat, nat>, head: nat, tail: nat,
                goal: seq<nat>, w: set<nat>, ms: seq<nat>, us: seq<nat>, a: nat, vs: seq<nat>, b: nat)
    requires Merging(cmp, m0, m, head, tail, goal, w, ms, us, a, vs, b)
    ensures a == 0 && b != 0 ==> goal == ms + vs && Remaining(m, head, tail, ms, vs, b, w)
    ensures b == 0 && a != 0 ==> goal == ms + us && Remaining(m, head, tail, ms, us, a, w)
  {}

  /** `ws` is still to be hung behind `ms`. */
  ghost predicate Remaining(m: map<nat, nat>, head: nat, tail: nat, ms: seq<nat>, ws: seq<nat>, b: nat, w: set<nat>) {
    && Path(m, head, ms) && tail == Last(ms) && Chain(m, b, ws) && ws != []
    && NoRepeat(ms) && NoRepeat(ws) && Disjoint(ms, ws) && Within(ms, ws, [], w)
  }

  lemma RemainingPath(m: map<nat, nat>, head: nat, tail: nat, ms: seq<nat>, ws: seq<nat>, b: nat, w: set<nat>)
    requires Remaining(m, head, tail, ms, ws, b, w) && ms != []
    ensures Chain(m[tail := b], head, ms + ws) && NoRepeat(ms + ws)
  {
    WeaveEnd(m, head, tail, ms, ws, b);
    NoRepeatConcat(ms, ws);
  }

  /** The `prev` links behind a row of nodes. */
  ghost predicate Back(prev: map<nat, nat>, s: seq<nat>) {
    forall i :: 1 <= i < |s| ==> s[i] in prev && prev[s[i]] == s[i - 1]
  }

  lemma BackGrow(m: map<nat, nat>, s: seq<nat>, x: nat)
    requires Back(m, s) && s != [] && x !in s
    ensures Back(m[x := Last(s)], s + [x])
  {
    var r := s + [x];
    forall i | 1 <= i < |r| ensures r[i] in m[x := Last(s)] && m[x := Last(s)][r[i]] == r[i - 1] {
      if i < |s| { assert r[i] in s; }
    }
  }

  /** A circular doubly linked list with sentinel `h` and elements `s`. */
  ghost predicate Circular(next: map<nat, nat>, prev: map<nat, nat>, h: nat, s: seq<nat>) {
    var r := [h] + s;
    && NoRepeat(r) && Path(next, h, r) && Back(prev, r)
    && next[r[|r| - 1]] == h && h in prev && prev[h] == r[|r| - 1]
  }

  // ----- Pending sublists

  ghost predicate AllChains(next: map<nat, nat>, p: seq<seq<nat>>) {
    forall i :: 0 <= i < |p| ==> p[i] != [] && NoRepeat(p[i]) && Chain(next, p[i][0], p[i])
  }

  ghost predicate AllDisjoint(p: seq<seq<nat>>) {
    forall i, j :: 0 <= i < j < |p| ==> Disjoint(p[i], p[j])
  }

  ghost function HeadAt(p: seq<seq<nat>>, i: nat): nat {
    if i < |p| && p[i] != [] then p[i][0] else 0
  }

  /** The heads of the sublists from `i` on, threaded through `prev`. */
  ghost predicate Threaded(prev: map<nat, nat>, p: seq<seq<nat>>) {
    forall i :: 0 <= i < |p| ==> HeadAt(p, i) in prev && prev[HeadAt(p, i)] == HeadAt(p, i + 1)
  }

  ghost predicate PendingLists(next: map<nat, nat>, prev: map<nat, nat>, pending: nat, p: seq<seq<nat>>) {
    AllChains(next, p) && AllDisjoint(p) && Threaded(prev, p) && pending == HeadAt(p, 0)
  }

  ghost function Spliced(p: seq<seq<nat>>, k: nat, m: seq<nat>): seq<seq<nat>>
    requires k + 2 <= |p|
  {
    p[..k] + [m] + p[k + 2..]
  }

  lemma {:induction false} MergeElements(cmp: Cmp, xs: seq<nat>, ys: seq<nat>)
    ensures forall x :: x in S.Merge(cmp, xs, ys) <==> x in xs || x in ys
    ensures |S.Merge(cmp, xs, ys)| == |xs| + |ys|
    decreases |xs| + |ys|
  {
    if xs != [] && ys != [] {
      if cmp(xs[0], ys[0]) <= 0 { MergeElements(cmp, xs[1..], ys); } else { MergeElements(cmp, xs, ys[1..]); }
    }
  }

  lemma {:induction false} MergeNoRepeat(cmp: Cmp, xs: seq<nat>, ys: seq<nat>)
    requires NoRepeat(xs) && NoRepeat(ys) && Disjoint(xs, ys)
    ensures NoRepeat(S.Merge(cmp, xs, ys))
    decreases |xs| + |ys|
  {
    if xs != [] && ys != [] {
      if cmp(xs[0], ys[0]) <= 0 {
        MergeNoRepeat(cmp, xs[1..], ys);
        MergeElements(cmp, xs[1..], ys);
        NoRepeatConcat([xs[0]], S.Merge(cmp, xs[1..], ys));
      } else {
        MergeNoRepeat(cmp, xs, ys[1..]);
        MergeElements(cmp, xs, ys[1..]);
        NoRepeatConcat([ys[0]], S.Merge(cmp, xs, ys[1..]));
      }
    }
  }

  /** The list at `i` is neither of those at `k` and `k + 1`. */
  lemma Elsewhere(p: seq<seq<nat>>, k: nat, i: nat, m: seq<nat>)
    requires AllDisjoint(p) && k + 2 <= |p| && i < |p| && i != k && i != k + 1
    requires forall x :: x in m <==> x in p[k] || x in p[k + 1]
    ensures Disjoint(p[i], m) && Disjoint(m, p[i])
  {
    if i < k {
      assert Disjoint(p[i], p[k]) && Disjoint(p[i], p[k + 1]);
    } else {
      assert Disjoint(p[k], p[i]) && Disjoint(p[k + 1], p[i]);
    }
  }

  /** The lists at `k` and `k + 1` give way to one list `m` of the same nodes. */
  lemma SpliceLists(next: map<nat, nat>, next': map<nat, nat>, p: seq<seq<nat>>, k: nat, m: seq<nat>)
    requires AllChains(next, p) && AllDisjoint(p) && k + 2 <= |p|
    requires m != [] && NoRepeat(m) && Chain(next', m[0], m) && SameOff(next, next', Elems(p[k + 1]) + Elems(p[k]))
    requires forall x :: x in m <==> x in p[k] || x in p[k + 1]
    ensures AllChains(next', Spliced(p, k, m))
  {
    var q := Spliced(p, k, m);
    forall i | 0 <= i < |q| ensures q[i] != [] && NoRepeat(q[i]) && Chain(next', q[i][0], q[i]) {
      if i != k {
        var j := if i < k then i else i + 1;
        Elsewhere(p, k, j, m);
        ChainFrame(next, next', p[j][0], p[j], Elems(p[k + 1]) + Elems(p[k]));
        assert q[i] == p[j];
      }
    }
  }

  lemma SpliceDisjoint(p: seq<seq<nat>>, k: nat, m: seq<nat>)
    requires AllDisjoint(p) && k + 2 <= |p|
    requires forall x :: x in m <==> x in p[k] || x in p[k + 1]
    ensures AllDisjoint(Spliced(p, k, m))
  {
    var q := Spliced(p, k, m);
    forall i, j | 0 <= i < j < |q| ensures Disjoint(q[i], q[j]) {
      var i', j' := if i < k then i else i + 1, if j < k then j else j + 1;
      if i == k {
        Elsewhere(p, k, j', m);
      } else if j == k {
        Elsewhere(p, k, i', m);
      } else {
        assert q[i] == p[i'] && q[j] == p[j'];
      }
    }
  }

  /** The thread of heads is mended around the new list. */
  lemma SpliceThread(prev: map<nat, nat>, prev': map<nat, nat>, p: seq<seq<nat>>, k: nat, m: seq<nat>)
    requires Threaded(prev, p) && AllDisjoint(p) && k + 2 <= |p| && m != [] && (forall i :: 0 <= i < |p| ==> p[i] != [])
    requires m[0] in p[k] || m[0] in p[k + 1]
    requires var g := prev[m[0] := HeadAt(p, k + 2)]; prev' == if k == 0 then g else g[HeadAt(p, k - 1) := m[0]]
    ensures Threaded(prev', Spliced(p, k, m))
  {
    var q := Spliced(p, k, m);
    if k > 0 { HeadApart(p, k, k + 1, m[0], k - 1); }
    forall i | 0 <= i < |q| ensures HeadAt(q, i) in prev' && prev'[HeadAt(q, i)] == HeadAt(q, i + 1) {
      var j := if i < k then i else i + 1;
      if i != k {
        assert q[i] == p[j] && HeadAt(q, i) == HeadAt(p, j);
        HeadApart(p, k, k + 1, m[0], j);
        if k > 0 && j != k - 1 {
          HeadsDiffer(p, k - 1, j);
        }
      }
      assert HeadAt(q, i + 1) == if i + 1 < k then HeadAt(p, i + 1) else if i + 1 == k then m[0] else HeadAt(p, i + 2);
      assert i == k ==> HeadAt(q, i) == m[0];
    }
  }

  lemma HeadApart(p: seq<seq<nat>>, k: nat, l: nat, x: nat, j: nat)
    requires AllDisjoint(p) && k < |p| && l < |p| && (x in p[k] || x in p[l]) && j != k && j != l
    ensures j < |p| && p[j] != [] ==> HeadAt(p, j) != x
  {
    if j < |p| && p[j] != [] {
      assert p[j][0] in p[j];
      assert Disjoint(p[if j < k then j else k], p[if j < k then k else j]);
      assert Disjoint(p[if j < l then j else l], p[if j < l then l else j]);
    }
  }

  lemma HeadsDiffer(p: seq<seq<nat>>, i: nat, j: nat)
    requires AllDisjoint(p) && i < |p| && p[i] != [] && i != j
    ensures j < |p| && p[j] != [] ==> HeadAt(p, j) != HeadAt(p, i)
  {
    HeadApart(p, i, i, p[i][0], j);
  }

  // ----- The schedule on actual sublists

  /** The input behind the sublists, oldest last in `q`. */
  ghost function Flat(q: seq<seq<nat>>): seq<nat> {
    if q == [] then [] else Flat(q[1..]) + q[0]
  }

  ghost predicate Sized(q: seq<seq<nat>>, sizes: seq<nat>) {
    |q| == |sizes| && forall i :: 0 <= i < |q| ==> |q[i]| == sizes[i]
  }

  /**
   After `count` rounds: sublist `i` is the stable sort of the piece `q[i]` of the input, and the
   pieces are contiguous and of the given sizes.
   */
  ghost predicate Scheduled(cmp: Cmp, input: seq<nat>, count: nat, sizes: seq<nat>, p: seq<seq<nat>>,
                            q: seq<seq<nat>>) {
    && count <= |input| && |p| == |q| && Sized(q, sizes)
    && (forall i :: 0 <= i < |p| ==> p[i] == S.Sort(cmp, q[i]))
    && Flat(q) == input[..count]
  }

  lemma {:induction false} FlatSplice(q: seq<seq<nat>>, k: nat)
    requires k + 2 <= |q|
    ensures Flat(Spliced(q, k, q[k + 1] + q[k])) == Flat(q)
  {
    var r := Spliced(q, k, q[k + 1] + q[k]);
    if k == 0 {
      assert r[1..] == q[2..] && q[1..][1..] == q[2..];
      assert Flat(q[2..]) + (q[1] + q[0]) == Flat(q[2..]) + q[1] + q[0];
    } else {
      FlatSplice(q[1..], k - 1);
      assert r[1..] == Spliced(q[1..], k - 1, q[1..][k] + q[1..][k - 1]);
    }
  }

  lemma FlatCons(x: seq<nat>, q: seq<seq<nat>>)
    ensures Flat([x] + q) == Flat(q) + x
  {
    assert ([x] + q)[1..] == q;
  }

  lemma {:induction false} FlatHolds(q: seq<seq<nat>>, i: nat, x: nat)
    requires i < |q| && x in q[i]
    ensures x in Flat(q)
  {
    if i > 0 { FlatHolds(q[1..], i - 1, x); }
  }

  lemma {:induction false} SortElements(cmp: Cmp, s: seq<nat>)
    requires S.TotalPreorder(cmp)
    ensures |S.Sort(cmp, s)| == |s| && forall x :: x in S.Sort(cmp, s) <==> x in s
  {
    S.SortCorrect(cmp, s);
    var r := S.Sort(cmp, s);
    assert |multiset(r)| == |r| && |multiset(s)| == |s|;
    assert forall x :: x in r <==> x in multiset(r);
    assert forall x :: x in s <==> x in multiset(s);
  }

  lemma ScheduledElements(cmp: Cmp, input: seq<nat>, count: nat, sizes: seq<nat>, p: seq<seq<nat>>, q: seq<seq<nat>>,
                          i: nat, x: nat)
    requires S.TotalPreorder(cmp) && Scheduled(cmp, input, count, sizes, p, q) && i < |p| && x in p[i]
    ensures x in input[..count]
  {
    SortElements(cmp, q[i]);
    FlatHolds(q, i, x);
  }

  /** The pending sublists after the merge of a round, which takes place if `merge`. */
  ghost function MergedP(cmp: Cmp, k: nat, merge: bool, p: seq<seq<nat>>): seq<seq<nat>>
    requires merge ==> k + 2 <= |p|
  {
    if merge then Spliced(p, k, S.Merge(cmp, p[k + 1], p[k])) else p
  }

  ghost function MergedQ(k: nat, merge: bool, q: seq<seq<nat>>): seq<seq<nat>>
    requires merge ==> k + 2 <= |q|
  {
    if merge then Spliced(q, k, q[k + 1] + q[k]) else q
  }

  lemma {:induction false} MergedLookup(cmp: Cmp, k: nat, merge: bool, p: seq<seq<nat>>, q: seq<seq<nat>>)
    requires S.TotalPreorder(cmp) && |p| == |q| && (merge ==> k + 2 <= |p|)
    requires forall i :: 0 <= i < |p| ==> p[i] == S.Sort(cmp, q[i])
    ensures var p', q' := MergedP(cmp, k, merge, p), MergedQ(k, merge, q);
      |p'| == |q'| && forall i :: 0 <= i < |p'| ==> p'[i] == S.Sort(cmp, q'[i])
  {
    var p', q' := MergedP(cmp, k, merge, p), MergedQ(k, merge, q);
    if merge {
      S.SortConcat(cmp, q[k + 1], q[k]);
      forall i | 0 <= i < |p'| ensures p'[i] == S.Sort(cmp, q'[i]) {
        if i < k { assert p'[i] == p[i] && q'[i] == q[i]; }
          else if i > k { assert p'[i] == p[i + 1] && q'[i] == q[i + 1]; }
      }
    }
  }

  lemma {:induction false} MergedSized(k: nat, merge: bool, sizes: seq<nat>, sizes': seq<nat>, q: seq<seq<nat>>,
                                       x: seq<nat>)
    requires Sized(q, sizes) && |x| == 1 && Rolls(sizes, k, merge, sizes')
    ensures Sized([x] + MergedQ(k, merge, q), sizes')
  {
    var q', t := MergedQ(k, merge, q), if merge then Joined(sizes, k) else sizes;
    forall i | 0 <= i < |q'| ensures |q'[i]| == t[i] {
      if merge {
        if i < k { assert q'[i] == q[i]; } else if i > k { assert q'[i] == q[i + 1] && t[i] == sizes[i + 1]; }
      }
    }
  }

  /** A whole round keeps the schedule. */
  lemma {:induction false} RoundScheduled(cmp: Cmp, input: seq<nat>, count: nat, sizes: seq<nat>, k: nat, merge: bool,
                                          sizes': seq<nat>, p: seq<seq<nat>>, q: seq<seq<nat>>)
    requires S.TotalPreorder(cmp) && Scheduled(cmp, input, count, sizes, p, q) && count < |input|
      && Rolls(sizes, k, merge, sizes')
    ensures Scheduled(cmp, input, count + 1, sizes', [[input[count]]] + MergedP(cmp, k, merge, p),
      [[input[count]]] + MergedQ(k, merge, q))
  {
    var x := [input[count]];
    MergedSized(k, merge, sizes, sizes', q, x);
    MergedLookup(cmp, k, merge, p, q);
    var p', q' := MergedP(cmp, k, merge, p), MergedQ(k, merge, q);
    SortOne(cmp, input[count]);
    FlatCons(x, q');
    if merge { FlatSplice(q, k); }
    OneMore(input, count);
  }

  lemma SortOne(cmp: Cmp, x: nat)
    ensures S.Sort(cmp, [x]) == [x]
  {
    assert [x][1..] == [] && S.Sort(cmp, []) == [];
  }

  lemma OneMore(s: seq<nat>, n: nat)
    requires n < |s|
    ensures s[..n + 1] == s[..n] + [s[n]]
  {}

  lemma {:induction false} FlatSnoc(q: seq<seq<nat>>, y: seq<nat>)
    ensures Flat(q + [y]) == y + Flat(q)
  {
    if q == [] {
      assert [y][1..] == [] && q + [y] == [y];
    } else {
      FlatSnoc(q[1..], y);
      assert (q + [y])[1..] == q[1..] + [y];
    }
  }

  /** `acc` has taken in the first `i` sublists; the others are still to be merged. */
  ghost predicate Collected(next: map<nat, nat>, list: nat, acc: seq<nat>, p: seq<seq<nat>>, i: nat) {
    && i <= |p| && acc != [] && Chain(next, list, acc) && NoRepeat(acc)
    && (forall j :: i <= j < |p| ==> p[j] != [] && NoRepeat(p[j]) && Chain(next, p[j][0], p[j]) && Disjoint(p[j], acc))
  }

  lemma CollectOne(next: map<nat, nat>, next': map<nat, nat>, list: nat, list': nat, acc: seq<nat>, acc': seq<nat>,
                   p: seq<seq<nat>>, i: nat)
    requires Collected(next, list, acc, p, i) && i < |p| && AllDisjoint(p)
    requires Chain(next', list', acc') && NoRepeat(acc') && acc' != [] && SameOff(next, next', Elems(p[i]) + Elems(acc))
    requires forall x :: x in acc' <==> x in p[i] || x in acc
    ensures Collected(next', list', acc', p, i + 1)
  {
    forall j | i + 1 <= j < |p| ensures Chain(next', p[j][0], p[j]) && Disjoint(p[j], acc') {
      assert Disjoint(p[i], p[j]) && Disjoint(p[j], acc);
      ChainFrame(next, next', p[j][0], p[j], Elems(p[i]) + Elems(acc));
    }
  }

  /** A new sublist of one node in front of the others. */
  lemma Pushed(next: map<nat, nat>, prev: map<nat, nat>, pending: nat, p: seq<seq<nat>>, x: nat)
    requires PendingLists(next, prev, pending, p) && x != 0 && x in next && forall i :: 0 <= i < |p| ==> x !in p[i]
    ensures PendingLists(next[x := 0], prev[x := pending], x, [[x]] + p)
  {
    var q := [[x]] + p;
    forall i | 0 <= i < |p| ensures Chain(next[x := 0], p[i][0], p[i]) && HeadAt(p, i) != x {
      ChainFrame(next, next[x := 0], p[i][0], p[i], {x});
      assert p[i][0] in p[i];
    }
    forall i | 0 <= i < |q|
      ensures HeadAt(q, i) in prev[x := pending] && prev[x := pending][HeadAt(q, i)] == HeadAt(q, i + 1) {
      assert HeadAt(q, i + 1) == HeadAt(p, i) && (i > 0 ==> HeadAt(q, i) == HeadAt(p, i - 1));
    }
  }

  /** What merging sublist `i` into the collected list will give. */
  lemma Gather(cmp: Cmp, p: seq<seq<nat>>, q: seq<seq<nat>>, i: nat, acc: seq<nat>)
    requires S.TotalPreorder(cmp) && i < |p| == |q| && p[i] == S.Sort(cmp, q[i]) && acc == S.Sort(cmp, Flat(q[..i]))
    requires NoRepeat(p[i]) && NoRepeat(acc) && Disjoint(p[i], acc) && acc != []
    ensures var r := S.Merge(cmp, p[i], acc);
      && r == S.Sort(cmp, Flat(q[..i + 1])) && NoRepeat(r) && r != []
      && forall x :: x in r <==> x in p[i] || x in acc
  {
    MergeElements(cmp, p[i], acc);
    MergeNoRepeat(cmp, p[i], acc);
    S.SortConcat(cmp, q[i], Flat(q[..i]));
    FlatSnoc(q[..i], q[i]);
    assert q[..i + 1] == q[..i] + [q[i]];
  }

  lemma GatherFirst(cmp: Cmp, p: seq<seq<nat>>, q: seq<seq<nat>>)
    requires 1 <= |p| == |q| && p[0] == S.Sort(cmp, q[0])
    ensures p[0] == S.Sort(cmp, Flat(q[..1]))
  {
    FlatSnoc([], q[0]);
    assert q[..1] == [] + [q[0]] && Flat([]) == [] && q[0] + [] == q[0];
  }

  /** Cutting a circular list open at its end. */
  lemma CutCircle(next: map<nat, nat>, prev: map<nat, nat>, h: nat, s: seq<nat>)
    requires Circular(next, prev, h, s)
    ensures h != 0 && h in next && h in prev && h !in s && NoRepeat(s)
    ensures next[h] == prev[h] <==> |s| <= 1
    ensures |s| >= 2 ==> prev[h] in s && Chain(next[prev[h] := 0], next[h], s)
  {
    var r := [h] + s;
    assert r[0] == h && forall i :: 0 <= i < |s| ==> r[i + 1] == s[i];
    if |s| >= 2 {
      var n := next[prev[h] := 0];
      assert next[r[0]] == r[1] && prev[h] == r[|s|] == s[|s| - 1];
      forall i | 0 <= i < |s| - 1 ensures s[i] in n && n[s[i]] == s[i + 1] {
        assert next[r[i + 1]] == r[i + 2] && r[i + 1] != r[|s|];
      }
    } else if |s| == 1 {
      assert next[r[0]] == r[1];
    }
  }

  lemma SortShort(cmp: Cmp, s: seq<nat>)
    requires |s| <= 1
    ensures S.Sort(cmp, s) == s
  {
    if |s| == 1 { SortOne(cmp, s[0]); assert s == [s[0]]; }
  }

  ghost predicate Rounds(cmp: Cmp, input: seq<nat>, count: nat, next: map<nat, nat>, prev: map<nat, nat>,
                         pending: nat, list: nat, p: seq<seq<nat>>, q: seq<seq<nat>>) {
    && PendingLists(next, prev, pending, p)
    && Scheduled(cmp, input, count, Sizes(count), p, q)
    && Chain(next, list, input[count..])
  }

  /** Sublists hold only nodes taken from the input already. */
  lemma PendingApart(cmp: Cmp, input: seq<nat>, count: nat, sizes: seq<nat>, p: seq<seq<nat>>, q: seq<seq<nat>>)
    requires S.TotalPreorder(cmp) && Scheduled(cmp, input, count, sizes, p, q) && NoRepeat(input)
    ensures Free(p, input[count..]) && forall i, x :: 0 <= i < |p| && x in p[i] ==> x in input
  {
    forall i, x | 0 <= i < |p| && x in p[i] ensures x in input && x !in input[count..] {
      ScheduledElements(cmp, input, count, sizes, p, q, i, x);
      var j :| 0 <= j < count && input[j] == x;
    }
  }

  /** All nodes of the sublists are in `w`. */
  ghost predicate Inside(p: seq<seq<nat>>, w: set<nat>) { forall i, x :: 0 <= i < |p| && x in p[i] ==> x in w }

  lemma InsideAt(p: seq<seq<nat>>, w: set<nat>, i: nat)
    requires Inside(p, w) && i < |p|
    ensures Elems(p[i]) <= w
  {}

  lemma Widen(m0: map<nat, nat>, m: map<nat, nat>, m': map<nat, nat>, u: set<nat>, w: set<nat>)
    requires SameOff(m0, m, w) && SameOff(m, m', u) && u <= w
    ensures SameOff(m0, m', w)
  {}

  lemma MergeInside(cmp: Cmp, xs: seq<nat>, ys: seq<nat>, w: set<nat>)
    requires Elems(xs) <= w && Elems(ys) <= w
    ensures Elems(S.Merge(cmp, xs, ys)) <= w
  {
    MergeElements(cmp, xs, ys);
  }

  // ----- What is compared with what

  /** `x` comes before `y` in `s`. */
  ghost predicate Before(s: seq<nat>, x: nat, y: nat) {
    exists i, j :: 0 <= i < j < |s| && s[i] == x && s[j] == y
  }

  /** The pairs `cmp` is called with. */
  type Calls = set<(nat, nat)>

  /** The calls that merge two lists. */
  ghost function MergeCalls(cmp: Cmp, xs: seq<nat>, ys: seq<nat>): Calls {
    if xs == [] || ys == [] then {}
    else {(xs[0], ys[0])} + if cmp(xs[0], ys[0]) <= 0 then MergeCalls(cmp, xs[1..], ys)
      else MergeCalls(cmp, xs, ys[1..])
  }

  /** Only earlier elements of `s` are compared with later ones, and these come second. */
  ghost predicate InOrder(calls: Calls, s: seq<nat>) { forall x, y :: (x, y) in calls ==> Before(s, x, y) }

  lemma {:induction false} MergeCallsOf(cmp: Cmp, xs: seq<nat>, ys: seq<nat>, x: nat, y: nat)
    requires (x, y) in MergeCalls(cmp, xs, ys)
    ensures x in xs && y in ys
    decreases |xs| + |ys|
  {
    if (x, y) != (xs[0], ys[0]) {
      if cmp(xs[0], ys[0]) <= 0 { MergeCallsOf(cmp, xs[1..], ys, x, y); } else { MergeCallsOf(cmp, xs, ys[1..], x, y); }
    }
  }

  /** The calls made and those still to be made. */
  ghost function AllCalls(cmp: Cmp, calls: Calls, us: seq<nat>, vs: seq<nat>): Calls { calls + MergeCalls(cmp, us, vs) }

  lemma CallOne(cmp: Cmp, calls: Calls, us: seq<nat>, vs: seq<nat>)
    requires us != [] && vs != []
    ensures var all, more := AllCalls(cmp, calls, us, vs), calls + {(us[0], vs[0])};
      if cmp(us[0], vs[0]) <= 0 then AllCalls(cmp, more, us[1..], vs) == all
      else AllCalls(cmp, more, us, vs[1..]) == all
  {}

  lemma NoCalls(cmp: Cmp, calls: Calls, us: seq<nat>, vs: seq<nat>)
    ensures us == [] || vs == [] ==> AllCalls(cmp, calls, us, vs) == calls
    ensures AllCalls(cmp, {}, us, vs) == MergeCalls(cmp, us, vs)
  {}

  lemma InOrderBoth(a: Calls, b: Calls, s: seq<nat>)
    requires InOrder(a, s) && InOrder(b, s)
    ensures InOrder(a + b, s)
  {}

  lemma BeforeConcat(a: seq<nat>, b: seq<nat>, x: nat, y: nat)
    ensures x in a && y in b ==> Before(a + b, x, y)
    ensures Before(a, x, y) || Before(b, x, y) ==> Before(a + b, x, y)
  {
    var s := a + b;
    assert forall i :: 0 <= i < |a| ==> s[i] == a[i];
    assert forall i :: 0 <= i < |b| ==> s[|a| + i] == b[i];
    if x in a && y in b {
      var i, j :| 0 <= i < |a| && 0 <= j < |b| && a[i] == x && b[j] == y;
      assert s[i] == x && s[|a| + j] == y;
    }
    if Before(a, x, y) {
      var i, j :| 0 <= i < j < |a| && a[i] == x && a[j] == y;
      assert s[i] == x && s[j] == y;
    }
    if Before(b, x, y) {
      var i, j :| 0 <= i < j < |b| && b[i] == x && b[j] == y;
      assert s[|a| + i] == x && s[|a| + j] == y;
    }
  }

  lemma {:induction false} FlatConcat(q: seq<seq<nat>>, k: nat)
    requires k <= |q|
    ensures Flat(q) == Flat(q[k..]) + Flat(q[..k])
  {
    if k == 0 {
      assert q[0..] == q && q[..0] == [];
    } else {
      FlatConcat(q, k - 1);
      assert q[k - 1..][1..] == q[k..] && q[..k] == q[..k - 1] + [q[k - 1]];
      FlatSnoc(q[..k - 1], q[k - 1]);
    }
  }

  /** A piece comes before all that came in after it. */
  lemma {:induction false} FlatBefore(q: seq<seq<nat>>, k: nat, x: nat, y: nat)
    requires k < |q| && x in q[k] && y in Flat(q[..k])
    ensures Before(Flat(q), x, y)
  {
    BeforeConcat(q[k], Flat(q[..k]), x, y);
    assert q[..k + 1] == q[..k] + [q[k]];
    FlatSnoc(q[..k], q[k]);
    FlatConcat(q, k + 1);
    BeforeConcat(Flat(q[k + 1..]), Flat(q[..k + 1]), x, y);
  }

  /** What a final merge compares. */
  lemma {:induction false} FinalInOrder(cmp: Cmp, q: seq<seq<nat>>, k: nat)
    requires S.TotalPreorder(cmp) && k < |q|
    ensures InOrder(MergeCalls(cmp, S.Sort(cmp, q[k]), S.Sort(cmp, Flat(q[..k]))), Flat(q))
  {
    var xs, ys := S.Sort(cmp, q[k]), S.Sort(cmp, Flat(q[..k]));
    SortElements(cmp, q[k]);
    SortElements(cmp, Flat(q[..k]));
    forall x, y | (x, y) in MergeCalls(cmp, xs, ys) ensures Before(Flat(q), x, y) {
      MergeCallsOf(cmp, xs, ys, x, y);
      FlatBefore(q, k, x, y);
    }
  }

  /** What the merge of a round compares. */
  lemma {:induction false} RoundInOrder(cmp: Cmp, input: seq<nat>, count: nat, sizes: seq<nat>,
                                        p: seq<seq<nat>>, q: seq<seq<nat>>, k: nat)
    requires S.TotalPreorder(cmp) && Scheduled(cmp, input, count, sizes, p, q) && k + 2 <= |p|
    ensures InOrder(MergeCalls(cmp, p[k + 1], p[k]), input)
  {
    SortElements(cmp, q[k + 1]);
    SortElements(cmp, q[k]);
    assert input == input[..count] + input[count..];
    forall x, y | (x, y) in MergeCalls(cmp, p[k + 1], p[k]) ensures Before(input, x, y) {
      MergeCallsOf(cmp, p[k + 1], p[k], x, y);
      FlatHolds(q[..k + 1], k, y);
      FlatBefore(q, k + 1, x, y);
      BeforeConcat(input[..count], input[count..], x, y);
    }
  }

  /** What the links say around the two sublists at `k`. */
  lemma Neighbours(next: map<nat, nat>, prev: map<nat, nat>, pending: nat, p: seq<seq<nat>>, k: nat, w: set<nat>)
    requires PendingLists(next, prev, pending, p) && Inside(p, w) && k + 2 <= |p|
    ensures HeadAt(p, k) == p[k][0] != 0 && HeadAt(p, k + 1) == p[k + 1][0] != 0
    ensures HeadAt(p, k) in prev && prev[HeadAt(p, k)] == HeadAt(p, k + 1)
    ensures HeadAt(p, k + 1) in prev && prev[HeadAt(p, k + 1)] == HeadAt(p, k + 2)
    ensures k > 0 ==> HeadAt(p, k - 1) in prev && prev[HeadAt(p, k - 1)] == HeadAt(p, k)
    ensures k > 0 ==> HeadAt(p, k - 1) != 0 && HeadAt(p, k - 1) in w
    ensures Apart([], p[k + 1], p[k]) && Chain(next, p[k][0], p[k]) && Chain(next, p[k + 1][0], p[k + 1])
    ensures Elems(p[k]) <= w && Elems(p[k + 1]) <= w
  {
    assert Chain(next, p[k][0], p[k]) && Chain(next, p[k + 1][0], p[k + 1]) && Disjoint(p[k], p[k + 1]);
    if k > 0 { assert Chain(next, p[k - 1][0], p[k - 1]) && p[k - 1][0] in p[k - 1]; }
  }

  class ListMem {
    var next: map<nat, nat>
    var prev: map<nat, nat>

    /** A call of `cmp`, recorded. */
    method Compare(cmp: Cmp, a: nat, b: nat, ghost calls0: Calls) returns (r: int, ghost calls: Calls)
      ensures r == cmp(a, b) && calls == calls0 + {(a, b)}
    {
      r, calls := cmp(a, b), calls0 + {(a, b)};
    }

    /** `*tail = v`, where `tail` is `&head` (0) or the `next` field of a node. */
    method Put(tail: nat, v: nat, head0: nat) returns (head: nat)
      modifies this`next
      ensures next == if tail == 0 then old(next) else old(next)[tail := v]
      ensures head == if tail == 0 then v else head0
    {
      head := head0;
      if tail == 0 {
        head := v;
      } else {
        next := next[tail := v];
      }
    }

    /** One of the two heads, the first on ties, is appended to what has been merged. */
    method TakeHead(cmp: Cmp, head0: nat, tail0: nat, a0: nat, b0: nat, ghost m0: map<nat, nat>, ghost goal: seq<nat>,
                    ghost w: set<nat>, ghost ms0: seq<nat>, ghost us0: seq<nat>, ghost vs0: seq<nat>,
                    ghost calls0: Calls)
      returns (head: nat, tail: nat, a: nat, b: nat, ghost ms: seq<nat>, ghost us: seq<nat>, ghost vs: seq<nat>,
               ghost calls: Calls)
      requires a0 != 0 && b0 != 0 && Merging(cmp, m0, next, head0, tail0, goal, w, ms0, us0, a0, vs0, b0)
      modifies this`next
      ensures Merging(cmp, m0, next, head, tail, goal, w, ms, us, a, vs, b) && ms != [] && (a != 0 || b != 0)
      ensures |us| + |vs| < |us0| + |vs0| && forall x :: x in old(next) ==> x in next
      ensures AllCalls(cmp, calls, us, vs) == AllCalls(cmp, calls0, us0, vs0)
    {
      CallOne(cmp, calls0, us0, vs0);
      a, b, us, vs := a0, b0, us0, vs0;
      var c;
      c, calls := Compare(cmp, a, b, calls0);
      if c <= 0 {
        StepLeft(cmp, m0, next, head0, tail0, goal, w, ms0, us, a, vs, b);
        head := Put(tail0, a, head0);
        tail := a;
        a := next[a];
        ms, us := ms0 + [us[0]], us[1..];
      } else {
        StepRight(cmp, m0, next, head0, tail0, goal, w, ms0, us, a, vs, b);
        head := Put(tail0, b, head0);
        tail := b;
        b := next[b];
        ms, vs := ms0 + [vs[0]], vs[1..];
      }
    }

    /** `merge` */
    method Merge(cmp: Cmp, a0: nat, b0: nat, ghost xs: seq<nat>, ghost ys: seq<nat>)
      returns (head: nat, ghost calls: Calls)
      requires xs != [] && ys != [] && Chain(next, a0, xs) && Chain(next, b0, ys) && Apart([], xs, ys)
      modifies this`next
      ensures Chain(next, head, S.Merge(cmp, xs, ys)) && calls == MergeCalls(cmp, xs, ys)
      ensures SameOff(old(next), next, Elems(xs) + Elems(ys)) && forall x :: x in old(next) ==> x in next
    {
      ghost var goal, w := S.Merge(cmp, xs, ys), Elems(xs) + Elems(ys);
      var a, b, tail := a0, b0, 0;
      head, calls := 0, {};
      ghost var ms, us, vs := [], xs, ys;
      NoCalls(cmp, {}, xs, ys);
      while a != 0 && b != 0
        invariant Merging(cmp, old(next), next, head, tail, goal, w, ms, us, a, vs, b)
        invariant (a != 0 && b != 0) || (ms != [] && (a != 0 || b != 0))
        invariant AllCalls(cmp, calls, us, vs) == MergeCalls(cmp, xs, ys)
        invariant forall x :: x in old(next) ==> x in next
        decreases |us| + |vs|
      {
        head, tail, a, b, ms, us, vs, calls := TakeHead(cmp, head, tail, a, b, old(next), goal, w, ms, us, vs, calls);
      }
      EndMerge(cmp, old(next), next, head, tail, goal, w, ms, us, a, vs, b);
      NoCalls(cmp, calls, us, vs);
      next := next[tail := if a == 0 then b else a];
    }

    /** The first loop of `merge_final`: merging with `prev` links, until one list is used up. */
    method WeaveBack(cmp: Cmp, head: nat, a0: nat, b0: nat, ghost xs: seq<nat>, ghost ys: seq<nat>, ghost w: set<nat>)
      returns (tail: nat, b: nat, ghost ms: seq<nat>, ghost ws: seq<nat>, ghost calls: Calls)
      requires xs != [] && ys != [] && Chain(next, a0, xs) && Chain(next, b0, ys) && Apart([head], xs, ys)
      requires head != 0 && head in next && w == {head} + Elems(xs) + Elems(ys)
      modifies this
      ensures [head] + S.Merge(cmp, xs, ys) == ms + ws && ms != []
      ensures Remaining(next, head, tail, ms, ws, b, w) && Back(prev, ms)
      ensures SameOff(old(next), next, w) && SameOff(old(prev), prev, w) && calls == MergeCalls(cmp, xs, ys)
    {
      ghost var goal := [head] + S.Merge(cmp, xs, ys);
      var a := a0;
      b, tail := b0, head;
      ms, calls := [head], {};
      ghost var us, vs, all := xs, ys, MergeCalls(cmp, xs, ys);
      NoCalls(cmp, {}, xs, ys);
      while true
        invariant a != 0 && b != 0 && Merging(cmp, old(next), next, head, tail, goal, w, ms, us, a, vs, b)
        invariant Back(prev, ms) && SameOff(old(prev), prev, w) && ms != []
        invariant AllCalls(cmp, calls, us, vs) == all
        decreases |us| + |vs|
      {
        assert tail in ms && tail != 0 && a == us[0] && a in us && b == vs[0] && b in vs;
        CallOne(cmp, calls, us, vs);
        var c;
        c, calls := Compare(cmp, a, b, calls);
        if c <= 0 {
          StepLeft(cmp, old(next), next, head, tail, goal, w, ms, us, a, vs, b);
          BackGrow(prev, ms, a);
          next := next[tail := a];
          prev := prev[a := tail];
          tail := a;
          a := next[a];
          ms, us := ms + [us[0]], us[1..];
          if a == 0 {
            NoCalls(cmp, calls, us, vs);
            OneLeft(cmp, old(next), next, head, tail, goal, w, ms, us, a, vs, b);
            ws := vs;
            return;
          }
        } else {
          StepRight(cmp, old(next), next, head, tail, goal, w, ms, us, a, vs, b);
          BackGrow(prev, ms, b);
          next := next[tail := b];
          prev := prev[b := tail];
          tail := b;
          b := next[b];
          ms, vs := ms + [vs[0]], vs[1..];
          if b == 0 {
            NoCalls(cmp, calls, us, vs);
            OneLeft(cmp, old(next), next, head, tail, goal, w, ms, us, a, vs, b);
            ws := us;
            b := a;
            return;
          }
        }
      }
    }

    /** The second loop of `merge_final`: the `prev` links of the rest of the list `r`. */
    method BackLinks(tail0: nat, b0: nat, head: nat, ghost r: seq<nat>, ghost n: nat, ghost w: set<nat>)
      returns (tail: nat)
      requires Chain(next, head, r) && NoRepeat(r) && 1 <= n < |r| && tail0 == r[n - 1] && b0 == r[n]
      requires Back(prev, r[..n]) && forall x :: x in r ==> x in w
      modifies this`prev
      ensures Back(prev, r) && tail == Last(r) && SameOff(old(prev), prev, w)
    {
      ghost var i := n;
      var b := b0;
      tail := tail0;
      while b != 0
        invariant n <= i <= |r| && b == (if i == |r| then 0 else r[i]) && tail == r[i - 1]
        invariant Back(prev, r[..i]) && SameOff(old(prev), prev, w)
        decreases |r| - i
      {
        assert r[..i + 1] == r[..i] + [r[i]] && r[i] in r;
        BackGrow(prev, r[..i], b);
        prev := prev[b := tail];
        tail := b;
        assert i == |r| - 1 || next[r[i]] == r[i + 1];
        b := next[b];
        i := i + 1;
      }
      assert r[..i] == r;
    }

    /** `merge_final`; the idle calls of `cmp` in its second loop have no effect and are not shown. */
    method MergeFinal(cmp: Cmp, head: nat, a0: nat, b0: nat, ghost xs: seq<nat>, ghost ys: seq<nat>)
      returns (ghost calls: Calls)
      requires xs != [] && ys != [] && Chain(next, a0, xs) && Chain(next, b0, ys) && Apart([head], xs, ys)
      requires head != 0 && head in next
      modifies this
      ensures Circular(next, prev, head, S.Merge(cmp, xs, ys)) && calls == MergeCalls(cmp, xs, ys)
      ensures var w := {head} + Elems(xs) + Elems(ys); SameOff(old(next), next, w) && SameOff(old(prev), prev, w)
    {
      ghost var w := {head} + Elems(xs) + Elems(ys);
      var tail, b, ms, ws, cs := WeaveBack(cmp, head, a0, b0, xs, ys, w);
      calls := cs;
      ghost var r := ms + ws;
      RemainingPath(next, head, tail, ms, ws, b, w);
      assert tail in ms && r[..|ms|] == ms && forall x :: x in r ==> x in w;
      next := next[tail := b];
      tail := BackLinks(tail, b, head, r, |ms|, w);
      assert tail in r && r[0] == head;
      Close(next, prev, head, r);
      next := next[tail := head];
      prev := prev[head := tail];
      assert r == [head] + S.Merge(cmp, xs, ys);
    }

    /** The walk to the first clear bit of `count`; `tail` is the sublist before the two to be merged, or 0. */
    method Walk(pending: nat, count: nat, ghost p: seq<seq<nat>>) returns (tail: nat, bits: nat)
      requires PendingLists(next, prev, pending, p) && Ones(count) <= |p|
      ensures bits == Strip(count) && tail == (if Ones(count) == 0 then 0 else HeadAt(p, Ones(count) - 1))
    {
      bits, tail := count, 0;
      ghost var k := 0;
      while bits % 2 == 1
        invariant Ones(count) == k + Ones(bits) && Strip(count) == Strip(bits)
        invariant tail == (if k == 0 then 0 else HeadAt(p, k - 1))
        invariant tail != 0 ==> tail in prev && prev[tail] == HeadAt(p, k)
        invariant k > 0 ==> tail != 0
        decreases bits
      {
        assert p[k] != [] && Chain(next, p[k][0], p[k]);
        tail := if tail == 0 then pending else prev[tail];
        bits := bits / 2;
        k := k + 1;
      }
    }

    /** The two sublists behind `tail` are merged, and the result is installed in their place. */
    method MergeAt(cmp: Cmp, pending0: nat, tail: nat, ghost k: nat, ghost p: seq<seq<nat>>, ghost w: set<nat>)
      returns (pending: nat, ghost calls: Calls)
      requires PendingLists(next, prev, pending0, p) && Inside(p, w) && k + 2 <= |p|
      requires tail == if k == 0 then 0 else HeadAt(p, k - 1)
      modifies this
      ensures calls == MergeCalls(cmp, p[k + 1], p[k])
      ensures PendingLists(next, prev, pending, Spliced(p, k, S.Merge(cmp, p[k + 1], p[k])))
      ensures SameOff(old(next), next, Elems(p[k + 1]) + Elems(p[k])) && forall x :: x in old(next) ==> x in next
      ensures SameOff(old(next), next, w) && SameOff(old(prev), prev, w)
    {
      ghost var h, g, m := next, prev, S.Merge(cmp, p[k + 1], p[k]);
      Neighbours(next, prev, pending0, p, k, w);
      var a := if tail == 0 then pending0 else prev[tail];
      var b := prev[a];
      MergeElements(cmp, p[k + 1], p[k]);
      MergeNoRepeat(cmp, p[k + 1], p[k]);
      a, calls := Merge(cmp, b, a, p[k + 1], p[k]);
      assert m[0] in m && a == m[0] && a in w;
      prev := prev[a := prev[b]];
      pending := pending0;
      if tail == 0 {
        pending := a;
      } else {
        prev := prev[tail := a];
      }
      SpliceLists(h, next, p, k, m);
      SpliceDisjoint(p, k, m);
      SpliceThread(g, prev, p, k, m);
    }

    /** The walk to the first clear bit of `count`, and the merge it indicates. */
    method RoundMerge(cmp: Cmp, pending0: nat, count: nat, ghost p: seq<seq<nat>>, ghost w: set<nat>)
      returns (pending: nat, ghost calls: Calls)
      requires PendingLists(next, prev, pending0, p) && Inside(p, w)
      requires Ones(count) <= |p| && (Strip(count) != 0 ==> Ones(count) + 2 <= |p|)
      modifies this
      ensures Strip(count) == 0 ==> pending == pending0 && next == old(next) && prev == old(prev) && calls == {}
      ensures Strip(count) != 0 ==> calls == MergeCalls(cmp, p[Ones(count) + 1], p[Ones(count)])
      ensures Strip(count) != 0 ==>
        var k := Ones(count);
        && PendingLists(next, prev, pending, Spliced(p, k, S.Merge(cmp, p[k + 1], p[k])))
        && SameOff(old(next), next, Elems(p[k + 1]) + Elems(p[k]))
      ensures forall x :: x in old(next) ==> x in next
      ensures SameOff(old(next), next, w) && SameOff(old(prev), prev, w)
    {
      pending, calls := pending0, {};
      var tail, bits := Walk(pending, count, p);
      if bits != 0 {
        pending, calls := MergeAt(cmp, pending, tail, Ones(count), p, w);
      }
    }

    /** The final merges of `list_sort`, smallest sublists first. */
    method MergePending(cmp: Cmp, head: nat, pending0: nat, ghost p: seq<seq<nat>>, ghost q: seq<seq<nat>>,
                        ghost w: set<nat>)
      returns (ghost calls: Calls)
      requires S.TotalPreorder(cmp) && PendingLists(next, prev, pending0, p) && |p| == |q| >= 2
      requires forall i :: 0 <= i < |p| ==> p[i] == S.Sort(cmp, q[i])
      requires head != 0 && head in next && forall i :: 0 <= i < |p| ==> head !in p[i]
      requires Inside(p, w) && head in w
      modifies this
      ensures Circular(next, prev, head, S.Sort(cmp, Flat(q))) && InOrder(calls, Flat(q))
      ensures SameOff(old(next), next, w) && SameOff(old(prev), prev, w)
    {
      var list, pending := pending0, prev[pending0];
      ghost var i, acc := 1, p[0];
      calls := {};
      InsideAt(p, w, 0);
      GatherFirst(cmp, p, q);
      assert HeadAt(p, 0) == pending0;
      while true
        invariant 1 <= i < |p| && pending == HeadAt(p, i) && prev == old(prev)
        invariant Collected(next, list, acc, p, i) && acc == S.Sort(cmp, Flat(q[..i])) && head !in acc
        invariant head in next && Elems(acc) <= w && SameOff(old(next), next, w)
        invariant InOrder(calls, Flat(q))
        decreases |p| - i
      {
        assert prev[HeadAt(p, i)] == HeadAt(p, i + 1) && Chain(next, p[i][0], p[i]) && Disjoint(p[i], acc);
        Gather(cmp, p, q, i, acc);
        var n := prev[pending];
        if n == 0 {
          break;
        }
        ghost var h, l := next, list;
        InsideAt(p, w, i);
        MergeInside(cmp, p[i], acc, w);
        ghost var cs;
        list, cs := Merge(cmp, pending, list, p[i], acc);
        FinalInOrder(cmp, q, i);
        calls := calls + cs;
        Widen(old(next), h, next, Elems(p[i]) + Elems(acc), w);
        CollectOne(h, next, l, list, acc, S.Merge(cmp, p[i], acc), p, i);
        pending := n;
        acc, i := S.Merge(cmp, p[i], acc), i + 1;
      }
      assert i + 1 == |p| && q[..i + 1] == q;
      ghost var h := next;
      InsideAt(p, w, i);
      ghost var cs := MergeFinal(cmp, head, pending, list, p[i], acc);
      FinalInOrder(cmp, q, i);
      calls := calls + cs;
      Widen(old(next), h, next, {head} + Elems(p[i]) + Elems(acc), w);
      Widen(old(prev), old(prev), prev, {head} + Elems(p[i]) + Elems(acc), w);
    }

    /** Moves one element from the input list to the pending sublists. */
    method Take(list0: nat, pending0: nat, ghost p: seq<seq<nat>>, ghost rest: seq<nat>, ghost w: set<nat>)
      returns (list: nat, pending: nat)
      requires PendingLists(next, prev, pending0, p) && Chain(next, list0, rest) && rest != [] && NoRepeat(rest)
        && Free(p, rest)
      requires rest[0] in w
      modifies this
      ensures PendingLists(next, prev, pending, [[rest[0]]] + p) && Chain(next, list, rest[1..])
      ensures forall x :: x in old(next) ==> x in next
      ensures SameOff(old(next), next, w) && SameOff(old(prev), prev, w)
    {
      assert list0 == rest[0] && list0 in rest;
      Pushed(next, prev, pending0, p, list0);
      Shortened(next, list0, rest);
      prev := prev[list0 := pending0];
      pending := list0;
      list := next[list0];
      next := next[pending := 0];
    }

    /** The merge of a round leaves the rest of the input alone. */
    method MergeAndKeep(cmp: Cmp, pending0: nat, count: nat, ghost p: seq<seq<nat>>, ghost list: nat,
                        ghost rest: seq<nat>, ghost w: set<nat>)
      returns (pending: nat, ghost calls: Calls)
      requires Inside(p, w) && PendingLists(next, prev, pending0, p) && Chain(next, list, rest) && Free(p, rest)
      requires Ones(count) <= |p| && (Strip(count) != 0 ==> Ones(count) + 2 <= |p|)
      modifies this
      ensures PendingLists(next, prev, pending, MergedP(cmp, Ones(count), Strip(count) != 0, p))
      ensures Chain(next, list, rest) && Free(MergedP(cmp, Ones(count), Strip(count) != 0, p), rest)
      ensures if Strip(count) == 0 then calls == {} else calls == MergeCalls(cmp, p[Ones(count) + 1], p[Ones(count)])
      ensures forall x :: x in old(next) ==> x in next
      ensures SameOff(old(next), next, w) && SameOff(old(prev), prev, w)
    {
      ghost var h := next;
      pending, calls := RoundMerge(cmp, pending0, count, p, w);
      if Strip(count) != 0 { RestUntouched(h, next, list, rest, p, Ones(count)); }
      MergedFree(cmp, Ones(count), Strip(count) != 0, p, rest);
    }

    /** One round of the main loop of `list_sort`. */
    method OneRound(cmp: Cmp, list0: nat, pending0: nat, count: nat, ghost input: seq<nat>, ghost p0: seq<seq<nat>>,
                    ghost q0: seq<seq<nat>>)
      returns (list: nat, pending: nat, ghost p: seq<seq<nat>>, ghost q: seq<seq<nat>>, ghost calls: Calls)
      requires S.TotalPreorder(cmp) && NoRepeat(input) && list0 != 0
      requires Rounds(cmp, input, count, next, prev, pending0, list0, p0, q0)
      modifies this
      ensures count < |input| && Rounds(cmp, input, count + 1, next, prev, pending, list, p, q)
      ensures InOrder(calls, input)
      ensures forall x :: x in old(next) ==> x in next
      ensures SameOff(old(next), next, Elems(input)) && SameOff(old(prev), prev, Elems(input))
    {
      ghost var k, merge, rest := Ones(count), Strip(count) != 0, input[count..];
      assert rest != [] && rest[1..] == input[count + 1..] && rest[0] == input[count] && NoRepeat(rest);
      BeforeRound(cmp, input, count, p0, q0);
      pending, calls := MergeAndKeep(cmp, pending0, count, p0, list0, rest, Elems(input));
      if merge { RoundInOrder(cmp, input, count, Sizes(count), p0, q0, k); }
      p, q := MergedP(cmp, k, merge, p0), MergedQ(k, merge, q0);
      ghost var n, v := next, prev;
      assert rest[0] == input[count] && input[count] in Elems(input);
      list, pending := Take(list0, pending, p, rest, Elems(input));
      Widen(old(next), n, next, Elems(input), Elems(input));
      Widen(old(prev), v, prev, Elems(input), Elems(input));
      p, q := [[input[count]]] + p, [[input[count]]] + q;
    }

    /** The main loop of `list_sort`. */
    method AllRounds(cmp: Cmp, list0: nat, ghost input: seq<nat>)
      returns (pending: nat, ghost p: seq<seq<nat>>, ghost q: seq<seq<nat>>, ghost calls: Calls)
      requires S.TotalPreorder(cmp) && NoRepeat(input) && Chain(next, list0, input)
      modifies this
      ensures Rounds(cmp, input, |input|, next, prev, pending, 0, p, q) && InOrder(calls, input)
      ensures forall x :: x in old(next) ==> x in next
      ensures SameOff(old(next), next, Elems(input)) && SameOff(old(prev), prev, Elems(input))
    {
      var list, count := list0, 0;
      pending, p, q, calls := 0, [], [], {};
      assert input[0..] == input;
      while list != 0
        invariant Rounds(cmp, input, count, next, prev, pending, list, p, q) && InOrder(calls, input)
        invariant forall x :: x in old(next) ==> x in next
        invariant SameOff(old(next), next, Elems(input)) && SameOff(old(prev), prev, Elems(input))
        decreases |input| - count
      {
        ghost var cs;
        list, pending, p, q, cs := OneRound(cmp, list, pending, count, input, p, q);
        InOrderBoth(calls, cs, input);
        calls := calls + cs;
        count := count + 1;
      }
    }

    /** `list_sort` */
    method ListSort(head: nat, cmp: Cmp, ghost input: seq<nat>) returns (ghost calls: Calls)
      requires S.TotalPreorder(cmp) && Circular(next, prev, head, input)
      modifies this
      ensures Circular(next, prev, head, S.Sort(cmp, input)) && InOrder(calls, input)
      ensures var w := {head} + Elems(input); SameOff(old(next), next, w) && SameOff(old(prev), prev, w)
    {
      ghost var w := {head} + Elems(input);
      CutCircle(next, prev, head, input);
      var list := next[head];
      if list == prev[head] {
        SortShort(cmp, input);
        return {};
      }
      next := next[prev[head] := 0];
      var pending, p, q, cs := AllRounds(cmp, list, input);
      AllTaken(cmp, input, next, prev, pending, p, q);
      ghost var more := MergePending(cmp, head, pending, p, q, w);
      calls := cs + more;
    }
  }

  lemma BeforeRound(cmp: Cmp, input: seq<nat>, count: nat, p: seq<seq<nat>>, q: seq<seq<nat>>)
    requires S.TotalPreorder(cmp) && NoRepeat(input) && count < |input|
      && Scheduled(cmp, input, count, Sizes(count), p, q)
    ensures Ones(count) <= |p| && (Strip(count) != 0 ==> Ones(count) + 2 <= |p|) && Free(p, input[count..])
    ensures Inside(p, Elems(input))
    ensures var k, merge := Ones(count), Strip(count) != 0;
      Scheduled(cmp, input, count + 1, Sizes(count + 1), [[input[count]]] + MergedP(cmp, k, merge, p),
        [[input[count]]] + MergedQ(k, merge, q))
  {
    Round(count);
    PendingApart(cmp, input, count, Sizes(count), p, q);
    RoundScheduled(cmp, input, count, Sizes(count), Ones(count), Strip(count) != 0, Sizes(count + 1), p, q);
  }

  /** In every round the pending sublists are of power-of-two size, smaller ones first. */
  lemma {:induction false} PendingSizes(cmp: Cmp, input: seq<nat>, count: nat, next: map<nat, nat>, prev: map<nat, nat>,
                                        pending: nat, list: nat, p: seq<seq<nat>>, q: seq<seq<nat>>)
    requires S.TotalPreorder(cmp) && Rounds(cmp, input, count, next, prev, pending, list, p, q)
    ensures (forall i :: 0 <= i < |p| ==> IsPow2(|p[i]|)) && (forall i, j :: 0 <= i < j < |p| ==> |p[i]| <= |p[j]|)
  {
    SizesGrow(count);
    forall i | 0 <= i < |p| ensures |p[i]| == Sizes(count)[i] { SortElements(cmp, q[i]); }
  }

  lemma {:induction false} FlatSize(q: seq<seq<nat>>, sizes: seq<nat>, i: nat)
    requires Sized(q, sizes) && i <= |q|
    ensures |Flat(q[..i])| == Sum(sizes, i)
  {
    if i > 0 {
      FlatSize(q, sizes, i - 1);
      assert q[..i] == q[..i - 1] + [q[i - 1]];
      FlatSnoc(q[..i - 1], q[i - 1]);
    }
  }

  /** The lists that are merged in the end, those gathered so far and the next one, are at worst 2:1 in length. */
  lemma {:induction false} MergesBalanced(cmp: Cmp, input: seq<nat>, p: seq<seq<nat>>, q: seq<seq<nat>>, i: nat)
    requires S.TotalPreorder(cmp) && Scheduled(cmp, input, |input|, Sizes(|input|), p, q) && 1 <= i < |p|
    ensures TwoToOne(|S.Sort(cmp, Flat(q[..i]))|, |p[i]|)
  {
    FinalMerges(|input|);
    assert BalancedAt(Sizes(|input|), i);
    FlatSize(q, Sizes(|input|), i);
    SortElements(cmp, Flat(q[..i]));
    SortElements(cmp, q[i]);
  }

  /** After the last round everything is pending, in two sublists at least. */
  lemma AllTaken(cmp: Cmp, input: seq<nat>, next: map<nat, nat>, prev: map<nat, nat>,
                 pending: nat, p: seq<seq<nat>>, q: seq<seq<nat>>)
    requires S.TotalPreorder(cmp) && NoRepeat(input) && |input| >= 2
    requires Rounds(cmp, input, |input|, next, prev, pending, 0, p, q)
    ensures |p| == |q| >= 2 && Inside(p, Elems(input)) && Flat(q) == input
  {
    FinalMerges(|input|);
    PendingApart(cmp, input, |input|, Sizes(|input|), p, q);
    assert input[..|input|] == input;
  }

  ghost predicate Free(p: seq<seq<nat>>, s: seq<nat>) {
    forall i :: 0 <= i < |p| ==> Disjoint(p[i], s)
  }

  /** The rest of the input is untouched by the merge of a round. */
  lemma RestUntouched(m: map<nat, nat>, m': map<nat, nat>, list: nat, rest: seq<nat>, p: seq<seq<nat>>, k: nat)
    requires Chain(m, list, rest) && k + 2 <= |p| && Free(p, rest) && SameOff(m, m', Elems(p[k + 1]) + Elems(p[k]))
    ensures Chain(m', list, rest)
  {
    assert Disjoint(p[k], rest) && Disjoint(p[k + 1], rest);
    ChainFrame(m, m', list, rest, Elems(p[k + 1]) + Elems(p[k]));
  }

  lemma MergedFree(cmp: Cmp, k: nat, merge: bool, p: seq<seq<nat>>, rest: seq<nat>)
    requires (merge ==> k + 2 <= |p|) && Free(p, rest)
    ensures Free(MergedP(cmp, k, merge, p), rest)
  {
    if merge {
      var r := MergedP(cmp, k, merge, p);
      MergeElements(cmp, p[k + 1], p[k]);
      forall i | 0 <= i < |r| ensures Disjoint(r[i], rest) {
        if i == k {
          assert Disjoint(p[k], rest) && Disjoint(p[k + 1], rest);
        } else {
          assert r[i] == p[if i < k then i else i + 1];
        }
      }
    }
  }

  lemma Shortened(m: map<nat, nat>, a: nat, s: seq<nat>)
    requires Chain(m, a, s) && s != [] && NoRepeat(s)
    ensures a in m && Chain(m[a := 0], m[a], s[1..])
  {
    assert |s| > 1 ==> s[1..][|s| - 2] == s[|s| - 1];
  }

  lemma Close(next: map<nat, nat>, prev: map<nat, nat>, h: nat, r: seq<nat>)
    requires r != [] && r[0] == h && Chain(next, h, r) && NoRepeat(r) && Back(prev, r)
    ensures Circular(next[Last(r) := h], prev[h := Last(r)], h, r[1..])
  {
    assert r == [h] + r[1..];
    var n, p := next[Last(r) := h], prev[h := Last(r)];
    assert forall i :: 0 <= i < |r| - 1 ==> r[i] != Last(r);
    assert forall i :: 1 <= i < |r| ==> r[i] != h;
  }
}
