/**
 What the walks over a tree compute: the extreme node of a subtree, the next ancestor in a
 direction, and so the neighbours of a node in the in-order sequence.
 */
module RbWalk {
  import opened RbShape
  import opened RbArena
  import opened RbSteps
  import opened RbErase
  import opened SortedSeq

  /** The outermost node of `t` on side `s`. */
  ghost function Edge(t: Tree, s: Side): nat {
    if t.Nil? then 0 else if t.Kid(s).Nil? then t.id else Edge(t.Kid(s), s)
  }

  /** The nearest node above the hole that lies on side `s` of it. */
  ghost function Ancestor(k: Ctx, s: Side): nat {
    if k.Top? then 0 else if k.side != s then k.id else Ancestor(k.up, s)
  }

  lemma {:induction false} EdgeSeq(t: Tree)
    ensures First(Inorder(t)) == Edge(t, Left) && Last(Inorder(t)) == Edge(t, Right)
    ensures t.Node? ==> Inorder(t) != []
  {
    if t.Node? {
      EdgeSeq(t.left);
      EdgeSeq(t.right);
    }
  }

  lemma {:induction false} AncestorSeq(k: Ctx)
    ensures First(After(k)) == Ancestor(k, Right) && Last(Before(k)) == Ancestor(k, Left)
  {
    if k.In? {
      AncestorSeq(k.up);
    }
  }

  lemma {:induction false} Neighbours(k: Ctx, n: Tree)
    requires n.Node? && Separate(k, n)
    ensures NextIn(Inorder(Plug(k, n)), n.id) == if n.right.Node? then Edge(n.right, Left) else Ancestor(k, Right)
    ensures PrevIn(Inorder(Plug(k, n)), n.id) == if n.left.Node? then Edge(n.left, Right) else Ancestor(k, Left)
  {
    var a, b := Before(k) + Inorder(n.left), Inorder(n.right) + After(k);
    PlugInorder(k, n);
    RegroupAround(Before(k), Inorder(n.left), n.id, Inorder(n.right), After(k));
    PlugDistinct(k, n);
    DistinctInorder(Plug(k, n));
    NoRepeatConcat(a + [n.id], b);
    NoRepeatConcat(a, [n.id]);
    assert n.id in [n.id] && n.id in a + [n.id];
    NextAt(a, n.id, b);
    PrevAt(a, n.id, b);
    EdgeSeq(n.left);
    EdgeSeq(n.right);
    AncestorSeq(k);
    if n.right.Nil? { assert b == After(k); }
    if n.left.Nil? { assert a == Before(k); }
  }

  // ----- Where a new node goes

  /** The hole of `k` is where `Insert` would put `x`. */
  ghost predicate Slot(less: Less, k: Ctx, x: nat) {
    && (forall y :: y in Before(k) ==> !less(x, y))
    && (forall y :: y in After(k) ==> less(x, y))
  }

  lemma LeafGap(k: Ctx, x: nat)
    requires Fits(k, Nil)
    ensures InsertGap(k, Node(Red, Nil, x, Nil))
  {}

  lemma {:induction false} SlotStep(less: Less, k: Ctx, t: Tree, x: nat)
    requires t.Node?
    ensures StrictWeak(less) && SortedBy(less, Inorder(Plug(k, t))) && Slot(less, k, x) ==>
      (if less(x, t.id) then Slot(less, In(Left, k, t.color, t.id, t.right), x)
       else Slot(less, In(Right, k, t.color, t.id, t.left), x))
  {
    if StrictWeak(less) && SortedBy(less, Inorder(Plug(k, t))) && Slot(less, k, x) {
      PlugInorder(k, t);
      RegroupAround(Before(k), Inorder(t.left), t.id, Inorder(t.right), After(k));
      SortedMiddle(less, Before(k) + Inorder(t.left), t.id, Inorder(t.right) + After(k));
    }
  }

  lemma SortedMiddle(less: Less, a: seq<nat>, m: nat, b: seq<nat>)
    requires SortedBy(less, a + [m] + b)
    ensures forall y :: y in a ==> !less(m, y)
    ensures forall y :: y in b ==> !less(y, m)
  {
    var s := a + [m] + b;
    assert s[|a|] == m;
    forall y | y in a ensures !less(m, y) {
      var i :| 0 <= i < |a| && a[i] == y;
      assert s[i] == y;
    }
    forall y | y in b ensures !less(y, m) {
      var i :| 0 <= i < |b| && b[i] == y;
      assert s[|a| + 1 + i] == y;
    }
  }

  lemma SplitBack(a: seq<nat>, b: seq<nat>)
    ensures (a + b)[..|a|] == a && (a + b)[|a|..] == b && a + [] + b == a + b
  {}

  lemma {:induction false} SlotSeq(tree: Tree, k: Ctx, less: Less, x: nat)
    requires Plug(k, Nil) == tree
    ensures Inorder(tree) == Before(k) + After(k) && Ids(tree) == CtxIds(k)
    ensures forall y :: y in Inorder(tree) <==> y in CtxIds(k)
    ensures Before(k) + [x] + After(k) == Inorder(tree)[..|Before(k)|] + [x] + Inorder(tree)[|Before(k)|..]
    ensures Slot(less, k, x) ==> Insert(less, Inorder(tree), x) == Before(k) + [x] + After(k)
  {
    assert Inorder(tree) == Before(k) + After(k) by {
      PlugInorder(k, Nil);
      SplitBack(Before(k), After(k));
    }
    assert Ids(tree) == CtxIds(k) by { PlugDistinct(k, Nil); }
    assert forall y :: y in Inorder(tree) <==> y in Ids(tree) by { InorderIds(tree); }
    SplitBack(Before(k), After(k));
    if Slot(less, k, x) {
      InsertAt(less, Before(k), After(k), x);
    }
  }

  lemma {:induction false} RepNonzero(h: Arena, t: Tree, par: nat)
    requires Rep(h, t, par)
    ensures 0 !in Ids(t) && forall x :: x in Ids(t) ==> x in h
  {
    if t.Node? {
      RepNonzero(h, t.left, t.id);
      RepNonzero(h, t.right, t.id);
    }
  }

  // ----- Postorder

  ghost function Postorder(t: Tree): seq<nat> {
    if t.Nil? then [] else Postorder(t.left) + Postorder(t.right) + [t.id]
  }

  /** What a postorder walk has done before it enters the hole. */
  ghost function Done(k: Ctx): seq<nat> {
    if k.Top? then [] else if k.side == Left then Done(k.up) else Done(k.up) + Postorder(k.sib)
  }

  /** What it has still to do when it leaves the hole. */
  ghost function Rest(k: Ctx): seq<nat> {
    if k.Top? then [] else (if k.side == Left then Postorder(k.sib) else []) + [k.id] + Rest(k.up)
  }

  /** Every subtree is visited in one stretch that ends with its root: children before parents. */
  lemma {:induction false} PlugPostorder(k: Ctx, t: Tree)
    ensures Postorder(Plug(k, t)) == Done(k) + Postorder(t) + Rest(k)
  {
    if k.In? {
      PlugPostorder(k.up, Mk(k.side, k.color, t, k.id, k.sib));
      if k.side == Left {
        Regroup(Done(k.up), Postorder(t), Postorder(k.sib), [k.id], Rest(k.up));
      } else {
        Regroup(Done(k.up), Postorder(k.sib), Postorder(t), [k.id], Rest(k.up));
        assert [] + [k.id] + Rest(k.up) == [k.id] + Rest(k.up);
      }
    }
  }

  lemma {:induction false} PostorderPermutes(t: Tree)
    ensures multiset(Postorder(t)) == multiset(Inorder(t))
  {
    if t.Node? {
      PostorderPermutes(t.left);
      PostorderPermutes(t.right);
    }
  }

  lemma {:induction false} CountOnce(s: seq<nat>, x: nat)
    requires NoRepeat(s)
    ensures multiset(s)[x] == if x in s then 1 else 0
  {
    if s != [] {
      assert s == s[..|s| - 1] + [Last(s)];
      CountOnce(s[..|s| - 1], x);
    }
  }

  lemma {:induction false} CountTwice(s: seq<nat>, i: nat, j: nat)
    requires i < j < |s| && s[i] == s[j]
    ensures multiset(s)[s[i]] >= 2
  {
    assert s == s[..i] + [s[i]] + s[i + 1..j] + [s[j]] + s[j + 1..];
  }

  /** What is visited is what the tree held, each node once. */
  lemma {:induction false} PermutesOnce(a: seq<nat>, b: seq<nat>)
    requires NoRepeat(a) && multiset(a) == multiset(b)
    ensures NoRepeat(b) && forall x :: x in b <==> x in a
  {
    forall i, j | 0 <= i < j < |b| && b[i] == b[j] ensures false {
      CountTwice(b, i, j);
      CountOnce(a, b[i]);
    }
    forall x ensures x in b <==> x in a { assert x in multiset(b) <==> x in multiset(a); }
  }

  /** A context whose left-hand subtrees have already been given away. */
  ghost predicate RepRest(h: Arena, k: Ctx, hole: nat) {
    k.In? ==>
      && k.id != 0 && k.id in h && h[k.id] == MkRec(k.side, Above(k.up, 0), k.color, hole, Ptr(k.sib))
      && (k.side == Left ==> Rep(h, k.sib, k.id))
      && RepRest(h, k.up, k.id)
  }

  lemma {:induction false} RestFrame(h: Arena, h': Arena, k: Ctx, hole: nat, x: nat)
    requires RepRest(h, k, hole) && x !in Rest(k) && h' == h - {x}
    ensures RepRest(h', k, hole)
  {
    if k.In? {
      RestFrame(h, h', k.up, k.id, x);
      if k.side == Left {
        PostorderIds(k.sib);
        RepFrame(h, h', {x}, k.sib, k.id);
      }
    }
  }

  lemma {:induction false} Descend(k: Ctx, t: Tree, s: Side)
    requires t.Node? && Separate(k, t) && (s == Right ==> t.left.Nil?)
    ensures var k' := In(s, k, t.color, t.id, t.Kid(s.Other()));
      Separate(k', t.Kid(s)) && Postorder(t.Kid(s)) + Rest(k') == Postorder(t) + Rest(k)
        && Plug(k', t.Kid(s)) == Plug(k, t)
  {
    var k' := In(s, k, t.color, t.id, t.Kid(s.Other()));
    PlugDistinct(k, t);
    PlugDistinct(k', t.Kid(s));
    Append4(Postorder(t.left), Postorder(t.right), [t.id], Rest(k));
    if s == Right { assert Postorder(t) == [] + Postorder(t.right) + [t.id]; }
  }

  lemma Append4(a: seq<nat>, b: seq<nat>, c: seq<nat>, d: seq<nat>)
    ensures a + (b + c + d) == (a + b + c) + d && b + ([] + c + d) == ([] + b + c) + d
  {}

  lemma {:induction false} PostorderIds(t: Tree)
    ensures forall x :: x in Postorder(t) <==> x in Ids(t)
  {
    if t.Node? {
      PostorderIds(t.left);
      PostorderIds(t.right);
    }
  }

  lemma {:induction false} RestIds(k: Ctx)
    ensures forall x :: x in Rest(k) ==> x in CtxIds(k)
  {
    if k.In? {
      PostorderIds(k.sib);
      RestIds(k.up);
    }
  }

  /** From a finished left subtree to the right one of the same parent. */
  lemma {:induction false} TurnRight(k: Ctx, t: Tree)
    requires k.In? && k.side == Left && Separate(k, t)
    ensures var over := In(Right, k.up, k.color, k.id, t);
      Separate(over, k.sib) && Plug(over, k.sib) == Plug(k, t) && Postorder(k.sib) + Rest(over) == Rest(k)
  {
    var over := In(Right, k.up, k.color, k.id, t);
    PlugDistinct(k, t);
    PlugDistinct(over, k.sib);
    assert [] + [k.id] + Rest(k.up) == [k.id] + Rest(k.up);
    assert Postorder(k.sib) + ([k.id] + Rest(k.up)) == Postorder(k.sib) + [k.id] + Rest(k.up);
  }

  /** The walk stands at node `pos`, the root of `t`; what is left of it is as it was. */
  ghost predicate AtNode(h: Arena, k: Ctx, t: Tree, pos: nat) {
    && t.Node? && pos == t.id && pos != 0 && pos in h && h[pos].parent == Above(k, 0)
    && RepRest(h, k, pos) && Separate(k, t)
  }

  ghost predicate Walking(h: Arena, tree: Tree, k: Ctx, t: Tree, pos: nat, visited: seq<nat>) {
    if pos == 0 then visited == Postorder(tree)
    else AtNode(h, k, t, pos) && Plug(k, t) == tree && visited + ([pos] + Rest(k)) == Postorder(tree)
  }

  /** Giving the node in focus away leaves the rest of the walk as it is. */
  lemma {:induction false} WalkStep(h: Arena, tree: Tree, k: Ctx, t: Tree, pos: nat, visited: seq<nat>, k': Ctx,
                                    t': Tree, n: nat)
    requires pos != 0 && Walking(h, tree, k, t, pos, visited) && (k.Top? ==> n == 0)
    requires k.In? ==> AtNode(h, k', t', n) && Plug(k', t') == Plug(k, t) && Rest(k) == [n] + Rest(k')
    ensures Walking(h - {pos}, tree, k', t', n, visited + [pos])
    ensures |visited| < |Postorder(tree)|
  {
    RestIds(k);
    assert t.id in Ids(t);
    assert visited + ([pos] + Rest(k)) == (visited + [pos]) + Rest(k);
    if k.In? {
      assert n in Rest(k) && forall x :: x in Rest(k') ==> x in Rest(k);
      RestFrame(h, h - {pos}, k', n, pos);
    }
  }

  // ----- Searching by key

  /** Along `s` the comparison goes from positive over zero to negative. */
  ghost predicate Descending(cmp: nat -> int, s: seq<nat>) {
    forall i, j :: 0 <= i < j < |s| ==> (cmp(s[i]) < 0 ==> cmp(s[j]) < 0) && (cmp(s[j]) > 0 ==> cmp(s[i]) > 0)
  }

  /** Nothing around the hole matches. */
  ghost predicate Excluded(cmp: nat -> int, k: Ctx) {
    (forall x :: x in Before(k) ==> cmp(x) != 0) && (forall x :: x in After(k) ==> cmp(x) != 0)
  }

  lemma {:induction false} FindStep(cmp: nat -> int, k: Ctx, t: Tree)
    requires t.Node? && Descending(cmp, Inorder(Plug(k, t))) && Excluded(cmp, k)
    ensures t.id in Inorder(Plug(k, t))
    ensures cmp(t.id) < 0 ==> Excluded(cmp, In(Left, k, t.color, t.id, t.right))
    ensures cmp(t.id) > 0 ==> Excluded(cmp, In(Right, k, t.color, t.id, t.left))
  {
    var a, b := Before(k) + Inorder(t.left), Inorder(t.right) + After(k);
    PlugInorder(k, t);
    RegroupAround(Before(k), Inorder(t.left), t.id, Inorder(t.right), After(k));
    DescendingMiddle(cmp, a, t.id, b);
    assert t.id in a + [t.id] + b;
  }

  lemma DescendingMiddle(cmp: nat -> int, a: seq<nat>, m: nat, b: seq<nat>)
    requires Descending(cmp, a + [m] + b)
    ensures cmp(m) < 0 ==> forall y :: y in b ==> cmp(y) < 0
    ensures cmp(m) > 0 ==> forall y :: y in a ==> cmp(y) > 0
  {
    var s := a + [m] + b;
    assert s[|a|] == m;
    assert forall i :: 0 <= i < |a| ==> s[i] == a[i];
    assert forall i :: 0 <= i < |b| ==> s[|a| + 1 + i] == b[i];
  }
}
