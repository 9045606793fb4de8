/**
 The shapes a red-black tree goes through while it is searched, extended and shrunk:
 trees, and trees with a hole (contexts), together with the five red-black properties
 and the in-order sequence of both.
 */
module RbShape {
  import opened SortedSeq
  import opened Arith

  datatype Color = Red | Black

  datatype Side = Left | Right {
    function Other(): Side { if this == Left then Right else Left }
  }

  datatype Tree = Nil | Node(color: Color, left: Tree, id: nat, right: Tree) {
    function Kid(s: Side): Tree {
      if Nil? then Nil else if s == Left then left else right
    }
    function Paint(c: Color): Tree { if Nil? then Nil else this.(color := c) }
  }

  /** A tree with a hole: `In(s, ...)` says that the hole is on side `s` of node `id`. */
  datatype Ctx = Top | In(side: Side, up: Ctx, color: Color, id: nat, sib: Tree)

  /** The pointer that refers to a subtree; 0 is NULL. */
  function Ptr(t: Tree): nat { if t.Nil? then 0 else t.id }

  /** The node just above a hole whose outermost parent is `par`. */
  function Above(k: Ctx, par: nat): nat { if k.Top? then par else k.id }

  /** A node with `a` on side `s` and `b` on the other. */
  function Mk(s: Side, c: Color, a: Tree, id: nat, b: Tree): Tree {
    if s == Left then Node(c, a, id, b) else Node(c, b, id, a)
  }

  function Plug(k: Ctx, t: Tree): Tree {
    match k
    case Top => t
    case In(s, up, c, id, sib) => Plug(up, Mk(s, c, t, id, sib))
  }

  /** The context of a hole in `inner` when `inner` itself sits in the hole of `outer`. */
  function Compose(inner: Ctx, outer: Ctx): Ctx {
    match inner
    case Top => outer
    case In(s, up, c, id, sib) => In(s, Compose(up, outer), c, id, sib)
  }

  // ----- In-order sequences

  ghost function Inorder(t: Tree): seq<nat> {
    if t.Nil? then [] else Inorder(t.left) + [t.id] + Inorder(t.right)
  }

  ghost function Before(k: Ctx): seq<nat> {
    match k
    case Top => []
    case In(s, up, c, id, sib) => if s == Left then Before(up) else Before(up) + Inorder(sib) + [id]
  }

  ghost function After(k: Ctx): seq<nat> {
    match k
    case Top => []
    case In(s, up, c, id, sib) => if s == Left then [id] + Inorder(sib) + After(up) else After(up)
  }

  lemma Regroup<T>(a: seq<T>, b: seq<T>, c: seq<T>, d: seq<T>, e: seq<T>)
    ensures a + (b + c + d) + e == a + b + (c + d + e)
    ensures a + (b + c + d) + e == (a + b + c) + d + e
  {}

  lemma {:induction false} PlugInorder(k: Ctx, t: Tree)
    ensures Inorder(Plug(k, t)) == Before(k) + Inorder(t) + After(k)
  {
    match k
    case Top =>
    case In(s, up, c, id, sib) =>
      PlugInorder(up, Mk(s, c, t, id, sib));
      if s == Left {
        Regroup(Before(up), Inorder(t), [id], Inorder(sib), After(up));
      } else {
        Regroup(Before(up), Inorder(sib), [id], Inorder(t), After(up));
      }
  }

  lemma {:induction false} PlugCompose(inner: Ctx, outer: Ctx, t: Tree)
    ensures Plug(Compose(inner, outer), t) == Plug(outer, Plug(inner, t))
  {
    match inner
    case Top =>
    case In(s, up, c, id, sib) => PlugCompose(up, outer, Mk(s, c, t, id, sib));
  }

  // ----- Node identities

  ghost function Ids(t: Tree): set<nat> {
    if t.Nil? then {} else Ids(t.left) + {t.id} + Ids(t.right)
  }

  ghost function CtxIds(k: Ctx): set<nat> {
    if k.Top? then {} else CtxIds(k.up) + {k.id} + Ids(k.sib)
  }

  /** No node occurs twice. */
  ghost predicate Distinct(t: Tree) {
    t.Node? ==>
      && t.id !in Ids(t.left) && t.id !in Ids(t.right) && Ids(t.left) !! Ids(t.right)
      && Distinct(t.left) && Distinct(t.right)
  }

  ghost predicate CtxDistinct(k: Ctx) {
    k.In? ==>
      && k.id !in CtxIds(k.up) && k.id !in Ids(k.sib) && CtxIds(k.up) !! Ids(k.sib)
      && CtxDistinct(k.up) && Distinct(k.sib)
  }

  ghost predicate Separate(k: Ctx, t: Tree) {
    CtxDistinct(k) && Distinct(t) && CtxIds(k) !! Ids(t)
  }

  lemma {:induction false} PlugDistinct(k: Ctx, t: Tree)
    ensures Ids(Plug(k, t)) == CtxIds(k) + Ids(t)
    ensures Distinct(Plug(k, t)) <==> Separate(k, t)
  {
    if k.In? {
      var n := Mk(k.side, k.color, t, k.id, k.sib);
      PlugDistinct(k.up, n);
      assert Ids(n) == Ids(t) + {k.id} + Ids(k.sib);
    }
  }

  lemma {:induction false} InorderIds(t: Tree)
    ensures forall x :: x in Inorder(t) <==> x in Ids(t)
  {
    if t.Node? {
      InorderIds(t.left);
      InorderIds(t.right);
    }
  }

  lemma {:induction false} DistinctInorder(t: Tree)
    ensures Distinct(t) <==> NoRepeat(Inorder(t))
  {
    if t.Node? {
      var a, b := Inorder(t.left), Inorder(t.right);
      DistinctInorder(t.left);
      DistinctInorder(t.right);
      InorderIds(t.left);
      InorderIds(t.right);
      NoRepeatConcat(a + [t.id], b);
      NoRepeatConcat(a, [t.id]);
      assert NoRepeat([t.id]);
      assert forall x :: x in a + [t.id] <==> x in a || x == t.id;
      assert t.id in [t.id];
    }
  }

  /** Distinctness depends on the in-order sequence only. */
  lemma SeparateSameSeq(k: Ctx, t: Tree, k': Ctx, t': Tree)
    requires Separate(k, t) && Inorder(Plug(k', t')) == Inorder(Plug(k, t))
    ensures Separate(k', t')
  {
    PlugDistinct(k, t);
    PlugDistinct(k', t');
    DistinctInorder(Plug(k, t));
    DistinctInorder(Plug(k', t'));
  }

  /** The parts around a focus with a grandparent are apart. */
  lemma {:induction false} SeparateTwo(k: Ctx, t: Tree)
    requires Separate(k, t) && k.In? && k.up.In?
    ensures k.id != k.up.id
    ensures {k.id, k.up.id} !! Ids(t) + Ids(k.sib) + Ids(k.up.sib) + CtxIds(k.up.up)
    ensures Ids(t) !! Ids(k.sib) && Ids(t) !! Ids(k.up.sib) && Ids(t) !! CtxIds(k.up.up)
    ensures Ids(k.sib) !! Ids(k.up.sib) && Ids(k.sib) !! CtxIds(k.up.up) && Ids(k.up.sib) !! CtxIds(k.up.up)
    ensures Distinct(k.sib) && Distinct(k.up.sib) && CtxDistinct(k.up.up)
  {
    assert CtxDistinct(k.up);
    assert CtxIds(k.up) == CtxIds(k.up.up) + {k.up.id} + Ids(k.up.sib);
  }

  /** Every node of a tree can be brought into focus. */
  lemma {:induction false} Locate(t: Tree, x: nat, k0: Ctx) returns (k: Ctx, sub: Tree)
    requires x in Ids(t)
    ensures Plug(k, sub) == Plug(k0, t) && sub.Node? && sub.id == x
  {
    if t.id == x {
      k, sub := k0, t;
    } else if x in Ids(t.left) {
      k, sub := Locate(t.left, x, In(Left, k0, t.color, t.id, t.right));
    } else {
      k, sub := Locate(t.right, x, In(Right, k0, t.color, t.id, t.left));
    }
  }

  // ----- The red-black properties

  ghost predicate RootRed(t: Tree) { t.Node? && t.color == Red }

  ghost function Weight(c: Color): nat { if c == Black then 1 else 0 }

  /** Black nodes on the leftmost path. */
  ghost function Bh(t: Tree): nat {
    if t.Nil? then 0 else Weight(t.color) + Bh(t.left)
  }

  /** Property 5: the same number of black nodes on every path down from the root. */
  ghost predicate Balanced(t: Tree) {
    t.Node? ==> Balanced(t.left) && Balanced(t.right) && Bh(t.left) == Bh(t.right)
  }

  /** Property 4: both children of every red node are black. */
  ghost predicate NoRedRed(t: Tree) {
    t.Node? ==>
      && NoRedRed(t.left) && NoRedRed(t.right)
      && (t.color == Red ==> !RootRed(t.left) && !RootRed(t.right))
  }

  /** Properties 1 and 3 hold of every `Tree`; 2, 4 and 5 are the three conjuncts. */
  ghost predicate IsRedBlack(t: Tree) {
    !RootRed(t) && NoRedRed(t) && Balanced(t)
  }

  /** Filling the hole with a balanced tree of black height `n` gives a balanced tree. */
  ghost predicate CtxBalanced(k: Ctx, n: nat) {
    match k
    case Top => true
    case In(_, up, c, _, sib) => Balanced(sib) && Bh(sib) == n && CtxBalanced(up, n + Weight(c))
  }

  /** Filling the hole with a tree whose root is red (or not) keeps properties 2 and 4. */
  ghost predicate CtxNoRedRed(k: Ctx, red: bool) {
    match k
    case Top => !red
    case In(_, up, c, _, sib) =>
      && NoRedRed(sib)
      && (c == Red ==> !RootRed(sib) && !red)
      && CtxNoRedRed(up, c == Red)
  }

  ghost predicate Fits(k: Ctx, t: Tree) {
    Balanced(t) && NoRedRed(t) && CtxBalanced(k, Bh(t)) && CtxNoRedRed(k, RootRed(t))
  }

  lemma {:induction false} PlugRedBlack(k: Ctx, t: Tree)
    ensures IsRedBlack(Plug(k, t)) <==> Fits(k, t)
  {
    match k
    case Top =>
    case In(s, up, c, id, sib) => PlugRedBlack(up, Mk(s, c, t, id, sib));
  }

  // ----- Height

  ghost function Height(t: Tree): nat {
    if t.Nil? then 0
    else 1 + if Height(t.left) > Height(t.right) then Height(t.left) else Height(t.right)
  }

  lemma {:induction false} Pow2Monotone(a: nat, b: nat)
    requires a <= b
    ensures Pow2(a) <= Pow2(b)
  {
    if a < b { Pow2Monotone(a, b - 1); }
  }

  /** Red nodes at most double the black height, and a black height needs 2^Bh - 1 nodes. */
  lemma {:induction false} HeightAndSize(t: Tree)
    requires NoRedRed(t) && Balanced(t)
    ensures Height(t) <= 2 * Bh(t) + (if RootRed(t) then 1 else 0)
    ensures Pow2(Bh(t)) <= |Inorder(t)| + 1
  {
    if t.Node? {
      HeightAndSize(t.left);
      HeightAndSize(t.right);
    }
  }

  lemma SquareMonotone(b: nat, n: nat)
    requires b <= n
    ensures b * b <= n * n
  {
    assert b * b <= n * b;
  }

  /** Height at most 2 log2(n + 1), without logarithms. */
  lemma LogHeight(t: Tree)
    requires IsRedBlack(t)
    ensures Pow2(Height(t)) <= (|Inorder(t)| + 1) * (|Inorder(t)| + 1)
  {
    HeightAndSize(t);
    Pow2Monotone(Height(t), Bh(t) + Bh(t));
    Pow2Add(Bh(t), Bh(t));
    SquareMonotone(Pow2(Bh(t)), |Inorder(t)| + 1);
  }
}
