/**
 The simple index a cached tree is compared with: a sequence kept sorted under a strict weak
 order, new elements going behind their equals.
 */
module SortedSeq {
  type Less = (nat, nat) -> bool

  ghost predicate StrictWeak(less: Less) {
    && (forall a, b :: less(a, b) ==> !less(b, a))
    && (forall a, b, c :: less(a, b) ==> less(a, c) || less(c, b))
  }

  ghost predicate SortedBy(less: Less, s: seq<nat>) {
    forall i, j :: 0 <= i < j < |s| ==> !less(s[j], s[i])
  }

  /** The first element, or 0. */
  function First(s: seq<nat>): nat { if s == [] then 0 else s[0] }

  ghost predicate NoRepeat(s: seq<nat>) {
    forall i, j :: 0 <= i < j < |s| ==> s[i] != s[j]
  }

  lemma NoRepeatConcat(a: seq<nat>, b: seq<nat>)
    ensures NoRepeat(a + b) <==> NoRepeat(a) && NoRepeat(b) && (forall x :: x in a ==> x !in b)
  {
    var s := a + b;
    assert forall i :: 0 <= i < |a| ==> s[i] == a[i];
    assert forall i :: 0 <= i < |b| ==> s[|a| + i] == b[i];
    if NoRepeat(a) && NoRepeat(b) && forall x :: x in a ==> x !in b {
      forall i, j | 0 <= i < j < |s| ensures s[i] != s[j] {
        assert i < |a| <= j ==> s[i] in a && s[j] in b;
      }
    }
  }

  function Last(s: seq<nat>): nat { if s == [] then 0 else s[|s| - 1] }

  /** The element after `x`, or 0. */
  ghost function NextIn(s: seq<nat>, x: nat): nat {
    if s == [] then 0 else if s[0] == x then First(s[1..]) else NextIn(s[1..], x)
  }

  /** The element before `x`, or 0. */
  ghost function PrevIn(s: seq<nat>, x: nat): nat {
    if |s| <= 1 then 0 else if s[1] == x then s[0] else PrevIn(s[1..], x)
  }

  /** Sorted insertion behind all elements that are not greater. */
  ghost function Insert(less: Less, s: seq<nat>, x: nat): seq<nat> {
    if s == [] || less(x, s[0]) then [x] + s else [s[0]] + Insert(less, s[1..], x)
  }

  function Remove(s: seq<nat>, x: nat): seq<nat> {
    if s == [] then [] else if s[0] == x then s[1..] else [s[0]] + Remove(s[1..], x)
  }

  lemma Behead(a: seq<nat>, x: nat, b: seq<nat>)
    requires a != []
    ensures (a + b)[0] == (a + [x] + b)[0] == a[0] && a[0] in a
    ensures (a + b)[1..] == a[1..] + b && [a[0]] + (a[1..] + b) == a + b
    ensures (a + [x] + b)[1..] == a[1..] + [x] + b && [a[0]] + (a[1..] + [x] + b) == a + [x] + b
  {}

  lemma {:induction false} InsertAt(less: Less, a: seq<nat>, b: seq<nat>, x: nat)
    requires forall y :: y in a ==> !less(x, y)
    requires b != [] ==> less(x, b[0])
    ensures Insert(less, a + b, x) == a + [x] + b
  {
    if a == [] {
      assert a + b == b && a + [x] + b == [x] + b;
    } else {
      Behead(a, x, b);
      InsertAt(less, a[1..], b, x);
    }
  }

  lemma {:induction false} RemoveAt(a: seq<nat>, x: nat, b: seq<nat>)
    requires x !in a
    ensures Remove(a + [x] + b, x) == a + b
  {
    if a == [] {
      assert (a + [x] + b)[1..] == b && a + b == b;
    } else {
      Behead(a, x, b);
      RemoveAt(a[1..], x, b);
    }
  }

  lemma {:induction false} NextAt(a: seq<nat>, x: nat, b: seq<nat>)
    requires x !in a
    ensures NextIn(a + [x] + b, x) == First(b)
  {
    if a == [] {
      assert (a + [x] + b)[1..] == b;
    } else {
      Behead(a, x, b);
      NextAt(a[1..], x, b);
    }
  }

  lemma {:induction false} PrevAt(a: seq<nat>, x: nat, b: seq<nat>)
    requires x !in a && x !in b
    ensures PrevIn(a + [x] + b, x) == Last(a)
  {
    var s := a + [x] + b;
    if a == [] {
      if |s| > 1 { PrevMissing(s, x); }
    } else {
      Behead(a, x, b);
      PrevAt(a[1..], x, b);
      assert |a| == 1 ==> s[1] == x;
      assert |a| > 1 ==> s[1] in a;
    }
  }

  lemma {:induction false} PrevMissing(s: seq<nat>, x: nat)
    requires s != [] && x !in s[1..]
    ensures PrevIn(s, x) == 0
  {
    if |s| > 1 {
      assert s[1] in s[1..];
      PrevMissing(s[1..], x);
    }
  }

  /** Where a sorted sequence can be cut around a new element. */
  lemma {:induction false} Cut(less: Less, s: seq<nat>, x: nat) returns (k: nat)
    requires StrictWeak(less) && SortedBy(less, s)
    ensures k <= |s| && Insert(less, s, x) == s[..k] + [x] + s[k..]
    ensures (forall y :: y in s[..k] ==> !less(x, y)) && (forall y :: y in s[k..] ==> less(x, y))
  {
    k := 0;
    while k < |s| && !less(x, s[k])
      invariant k <= |s| && forall y :: y in s[..k] ==> !less(x, y)
    {
      assert s[..k + 1] == s[..k] + [s[k]];
      k := k + 1;
    }
    forall y | y in s[k..] ensures less(x, y) {
      var i :| k <= i < |s| && s[i] == y;
      assert less(x, s[k]) && !(k < i && less(s[i], s[k]));
    }
    assert s == s[..k] + s[k..];
    InsertAt(less, s[..k], s[k..], x);
  }

  /** An element put between those not greater and those greater leaves the order as it is. */
  lemma {:induction false} CutSorted(less: Less, a: seq<nat>, x: nat, b: seq<nat>)
    requires StrictWeak(less) && SortedBy(less, a + b)
    requires (forall y :: y in a ==> !less(x, y)) && (forall y :: y in b ==> less(x, y))
    ensures SortedBy(less, a + [x] + b)
  {
    var s, r := a + b, a + [x] + b;
    forall i, j | 0 <= i < j < |r| ensures !less(r[j], r[i]) {
      if j < |a| {
        assert r[i] == s[i] && r[j] == s[j];
      } else if j == |a| {
        assert r[j] == x && r[i] == a[i] && a[i] in a;
      } else if i == |a| {
        assert r[i] == x && r[j] == b[j - |a| - 1] && b[j - |a| - 1] in b;
      } else {
        assert r[i] == s[if i < |a| then i else i - 1] && r[j] == s[j - 1];
      }
    }
  }

  lemma {:induction false} InsertSorted(less: Less, s: seq<nat>, x: nat)
    requires StrictWeak(less) && SortedBy(less, s)
    ensures SortedBy(less, Insert(less, s, x))
    ensures multiset(Insert(less, s, x)) == multiset(s) + multiset{x}
  {
    var k := Cut(less, s, x);
    assert s == s[..k] + s[k..];
    CutSorted(less, s[..k], x, s[k..]);
    SameElements(s[..k], x, s[k..]);
  }

  lemma {:induction false} RemoveSorted(less: Less, s: seq<nat>, x: nat)
    requires SortedBy(less, s)
    ensures SortedBy(less, Remove(s, x))
    ensures forall y :: y in Remove(s, x) ==> y in s
  {
    if s != [] && s[0] != x {
      var r := Remove(s[1..], x);
      RemoveSorted(less, s[1..], x);
      forall j | 0 <= j < |r| ensures !less(r[j], s[0]) {
        assert r[j] in s[1..];
        var i :| 1 <= i < |s| && s[i] == r[j];
      }
    }
  }

  /** `x` is in order with its neighbours. */
  ghost predicate Stays(less: Less, s: seq<nat>, x: nat) {
    && (PrevIn(s, x) != 0 ==> !less(x, PrevIn(s, x)))
    && (NextIn(s, x) != 0 ==> !less(NextIn(s, x), x))
  }

  /** If all but `x` is sorted, the two neighbours decide whether `x` is in place. */
  lemma {:induction false} StaysSorted(less: Less, a: seq<nat>, x: nat, b: seq<nat>)
    requires StrictWeak(less) && SortedBy(less, a + b) && x !in a && x !in b && 0 !in a && 0 !in b
    ensures Stays(less, a + [x] + b, x) <==> SortedBy(less, a + [x] + b)
  {
    NextAt(a, x, b);
    PrevAt(a, x, b);
    var s := a + [x] + b;
    assert a != [] ==> s[|a| - 1] == Last(a) && Last(a) in a;
    assert b != [] ==> s[|a| + 1] == First(b) && First(b) in b;
    assert s[|a|] == x;
    if Stays(less, s, x) {
      var r := a + b;
      forall i, j | 0 <= i < j < |s| ensures !less(s[j], s[i]) {
        if j < |a| {
          assert s[i] == r[i] && s[j] == r[j];
        } else if j == |a| {
          assert s[i] == r[i] && s[|a| - 1] == r[|a| - 1];
          assert i == |a| - 1 || !less(r[|a| - 1], r[i]);
        } else if i == |a| {
          assert s[j] == r[j - 1] && s[|a| + 1] == r[|a|];
          assert j == |a| + 1 || !less(r[j - 1], r[|a|]);
        } else {
          assert s[i] == r[if i < |a| then i else i - 1] && s[j] == r[j - 1];
        }
      }
    }
  }

  /** The sequence after the key of `x` has changed. */
  ghost function Resort(less: Less, s: seq<nat>, x: nat): seq<nat> {
    if Stays(less, s, x) then s else Insert(less, Remove(s, x), x)
  }

  lemma {:induction false} SplitAt(s: seq<nat>, x: nat) returns (a: seq<nat>, b: seq<nat>)
    requires x in s && NoRepeat(s)
    ensures s == a + [x] + b && x !in a && x !in b && Remove(s, x) == a + b
  {
    var i :| 0 <= i < |s| && s[i] == x;
    a, b := s[..i], s[i + 1..];
    assert s == a + [x] + b;
    RemoveAt(a, x, b);
  }

  lemma {:induction false} ResortSorted(less: Less, s: seq<nat>, x: nat)
    requires StrictWeak(less) && x in s && 0 !in s && NoRepeat(s)
    requires SortedBy(less, Remove(s, x))
    ensures SortedBy(less, Resort(less, s, x))
    ensures multiset(Resort(less, s, x)) == multiset(s)
    ensures Resort(less, s, x) == s <==> SortedBy(less, s)
  {
    var a, b := SplitAt(s, x);
    assert forall y :: y in a || y in b ==> y in s;
    StaysSorted(less, a, x, b);
    if !Stays(less, s, x) {
      InsertSorted(less, a + b, x);
      SameElements(a, x, b);
    }
  }

  lemma SameElements(a: seq<nat>, x: nat, b: seq<nat>)
    ensures multiset(a + [x] + b) == multiset(a + b) + multiset{x}
  {}
}
