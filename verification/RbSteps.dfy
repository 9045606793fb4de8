/**
 The rebalancing steps of insertion and erasure as rewritings of a tree in focus, and the
 proof that each keeps the in-order sequence and moves the one violated property upwards
 or repairs it.
 */
module RbSteps {
  import opened RbShape

  // ----- Insertion

  /** The focus is red; a red node above it is the only thing that can be wrong. */
  ghost predicate InsertGap(k: Ctx, t: Tree) {
    && RootRed(t) && Balanced(t) && NoRedRed(t)
    && CtxBalanced(k, Bh(t)) && CtxNoRedRed(k, false)
  }

  /** Case 1: colour flips around the grandparent. */
  ghost function Flip(k: Ctx, t: Tree): Tree
    requires k.In? && k.up.In?
  {
    Mk(k.up.side, Red, Mk(k.side, Black, t, k.id, k.sib), k.up.id, k.up.sib.Paint(Black))
  }

  /** Case 3, preceded by case 2 when the focus is an inner grandchild. */
  ghost function Turn(k: Ctx, t: Tree): Tree
    requires k.In? && k.up.In? && t.Node?
  {
    var s := k.up.side;
    if k.side == s then
      Mk(s, Black, t, k.id, Mk(s, Red, k.sib, k.up.id, k.up.sib))
    else
      Mk(s, Black, Mk(s, Red, k.sib, k.id, t.Kid(s)), t.id, Mk(s, Red, t.Kid(s.Other()), k.up.id, k.up.sib))
  }

  lemma RotateInorder(s: Side, c: Color, d: Color, e: Color, f: Color, a: Tree, x: nat, b: Tree, y: nat, z: Tree)
    ensures Inorder(Mk(s, c, Mk(s, d, a, x, b), y, z)) == Inorder(Mk(s, e, a, x, Mk(s, f, b, y, z)))
  {
    if s == Left {
      Regroup([], Inorder(a), [x], Inorder(b), [y] + Inorder(z));
    } else {
      Regroup(Inorder(z) + [y], Inorder(b), [x], Inorder(a), []);
    }
  }

  /** Replacing the focus by a tree with the same sequence keeps the whole sequence. */
  lemma PlugSame(k: Ctx, t: Tree, u: Tree)
    requires Inorder(t) == Inorder(u)
    ensures Inorder(Plug(k, t)) == Inorder(Plug(k, u))
  {
    PlugInorder(k, t);
    PlugInorder(k, u);
  }

  /** The red-black properties of a node, whichever side its children are on. */
  lemma MkBalanced(s: Side, c: Color, a: Tree, id: nat, b: Tree)
    ensures Balanced(Mk(s, c, a, id, b)) <==> Balanced(a) && Balanced(b) && Bh(a) == Bh(b)
    ensures NoRedRed(Mk(s, c, a, id, b)) <==>
            NoRedRed(a) && NoRedRed(b) && (c == Red ==> !RootRed(a) && !RootRed(b))
    ensures Bh(a) == Bh(b) ==> Bh(Mk(s, c, a, id, b)) == Weight(c) + Bh(a)
  {}

  lemma {:induction false} FlipKeeps(k: Ctx, t: Tree)
    requires InsertGap(k, t) && k.In? && k.color == Red
    requires k.up.In? && RootRed(k.up.sib)
    ensures InsertGap(k.up.up, Flip(k, t))
  {
    assert CtxBalanced(k.up, Bh(t)) && CtxNoRedRed(k.up, true);
    MkBalanced(k.side, Black, t, k.id, k.sib);
    var u := k.up.sib.Paint(Black);
    MkBalanced(k.up.side, Red, Mk(k.side, Black, t, k.id, k.sib), k.up.id, u);
  }

  lemma {:induction false} FlipInorder(k: Ctx, t: Tree)
    requires k.In? && k.up.In?
    ensures Inorder(Plug(k.up.up, Flip(k, t))) == Inorder(Plug(k, t))
  {
    PlugSame(k.up.up, Flip(k, t), Mk(k.up.side, k.up.color, Mk(k.side, k.color, t, k.id, k.sib), k.up.id, k.up.sib));
  }

  lemma {:induction false} TurnFits(k: Ctx, t: Tree)
    requires InsertGap(k, t) && k.In? && k.color == Red
    requires k.up.In? && !RootRed(k.up.sib)
    ensures Fits(k.up.up, Turn(k, t))
  {
    assert CtxBalanced(k.up, Bh(t)) && CtxNoRedRed(k.up, true);
    var s, o := k.up.side, k.up.side.Other();
    if k.side == s {
      MkBalanced(s, Red, k.sib, k.up.id, k.up.sib);
      MkBalanced(s, Black, t, k.id, Mk(s, Red, k.sib, k.up.id, k.up.sib));
    } else {
      var a, b := t.Kid(s), t.Kid(o);
      MkBalanced(s, Red, a, t.id, b);
      MkBalanced(s, Red, k.sib, k.id, a);
      MkBalanced(s, Red, b, k.up.id, k.up.sib);
      MkBalanced(s, Black, Mk(s, Red, k.sib, k.id, a), t.id, Mk(s, Red, b, k.up.id, k.up.sib));
    }
  }

  lemma {:induction false} TurnInorder(k: Ctx, t: Tree)
    requires k.In? && k.up.In? && t.Node?
    ensures Inorder(Plug(k.up.up, Turn(k, t))) == Inorder(Plug(k, t))
  {
    var s, o := k.up.side, k.up.side.Other();
    if k.side == s {
      RotateInorder(s, k.up.color, k.color, Black, Red, t, k.id, k.sib, k.up.id, k.up.sib);
    } else {
      var p := Mk(s, Red, k.sib, k.id, t.Kid(s));
      RotateInorder(s, t.color, Red, k.color, t.color, k.sib, k.id, t.Kid(s), t.id, t.Kid(o));
      RotateInorder(s, k.up.color, t.color, Black, Red, p, t.id, t.Kid(o), k.up.id, k.up.sib);
    }
    PlugSame(k.up.up, Turn(k, t), Mk(s, k.up.color, Mk(k.side, k.color, t, k.id, k.sib), k.up.id, k.up.sib));
  }

  // ----- Erasure

  /** Paths through the focus are one black node short of all others; nothing else is wrong. */
  ghost predicate EraseGap(k: Ctx, t: Tree) {
    && !RootRed(t) && Balanced(t) && NoRedRed(t)
    && CtxBalanced(k, Bh(t) + 1) && CtxNoRedRed(k, false)
  }

  /** Case 1: a red sibling is rotated above the parent; the focus keeps its deficit. */
  ghost function Lower(k: Ctx): Ctx
    requires k.In? && k.sib.Node?
  {
    var s := k.side;
    In(s, In(s, k.up, k.color, k.sib.id, k.sib.Kid(s.Other())), Red, k.id, k.sib.Kid(s))
  }

  /** Case 2: the sibling turns red, and the parent takes colour `c`. */
  ghost function Redden(k: Ctx, t: Tree, c: Color): Tree
    requires k.In?
  {
    Mk(k.side, c, t, k.id, k.sib.Paint(Red))
  }

  /** Case 4: the far nephew is red. */
  ghost function TurnOuter(k: Ctx, t: Tree): Tree
    requires k.In? && k.sib.Node?
  {
    var o := k.side.Other();
    Mk(o, k.color, k.sib.Kid(o).Paint(Black), k.sib.id, Mk(o, Black, k.sib.Kid(k.side), k.id, t))
  }

  /** Cases 3 and 4: only the near nephew is red. */
  ghost function TurnInner(k: Ctx, t: Tree): Tree
    requires k.In? && k.sib.Node? && k.sib.Kid(k.side).Node?
  {
    var s, o := k.side, k.side.Other();
    var near := k.sib.Kid(s);
    Mk(o, k.color, Mk(o, Black, k.sib.Kid(o), k.sib.id, near.Kid(o)), near.id, Mk(o, Black, near.Kid(s), k.id, t))
  }

  /** What the loop relies on: the deficit leaves room for a sibling. */
  lemma {:induction false} GapSibling(k: Ctx, t: Tree)
    requires EraseGap(k, t) && k.In?
    ensures k.sib.Node? && Balanced(k.sib) && NoRedRed(k.sib) && Bh(k.sib) == Bh(t) + 1
    ensures Bh(k.sib.Kid(k.side)) == Bh(k.sib.Kid(k.side.Other())) == Bh(k.sib) - Weight(k.sib.color)
    ensures forall s: Side :: Balanced(k.sib.Kid(s)) && NoRedRed(k.sib.Kid(s))
    ensures k.color == Red ==> k.sib.color == Black
    ensures k.sib.color == Red ==> forall s: Side :: !RootRed(k.sib.Kid(s))
  {}

  lemma {:induction false} LowerKeeps(k: Ctx, t: Tree)
    requires EraseGap(k, t) && k.In? && RootRed(k.sib)
    ensures EraseGap(Lower(k), t)
    ensures !RootRed(k.sib.Kid(k.side))
  {
    GapSibling(k, t);
    var s, o := k.side, k.side.Other();
    var up := In(s, k.up, k.color, k.sib.id, k.sib.Kid(o));
    assert CtxBalanced(up, Bh(t) + 1);
    assert CtxNoRedRed(up, true);
  }

  lemma {:induction false} LowerInorder(k: Ctx, t: Tree)
    requires k.In? && k.sib.Node?
    ensures Inorder(Plug(Lower(k), t)) == Inorder(Plug(k, t))
  {
    var s, o := k.side, k.side.Other();
    RotateInorder(s, k.color, Red, k.color, k.sib.color, t, k.id, k.sib.Kid(s), k.sib.id, k.sib.Kid(o));
    PlugSame(k.up, Mk(s, k.color, Mk(s, Red, t, k.id, k.sib.Kid(s)), k.sib.id, k.sib.Kid(o)),
             Mk(s, k.color, t, k.id, k.sib));
  }

  lemma {:induction false} ReddenKeeps(k: Ctx, t: Tree)
    requires EraseGap(k, t) && k.In? && !RootRed(k.sib)
    requires !RootRed(k.sib.Kid(Left)) && !RootRed(k.sib.Kid(Right))
    ensures k.color == Red ==> Fits(k.up, Redden(k, t, Black))
    ensures k.color == Black ==> EraseGap(k.up, Redden(k, t, Black))
    ensures k.color == Black && k.up.Top? ==> Fits(k.up, Redden(k, t, Black))
  {
    GapSibling(k, t);
    MkBalanced(k.side, Black, t, k.id, k.sib.Paint(Red));
    assert CtxNoRedRed(k.up, k.color == Red);
  }

  lemma {:induction false} ReddenInorder(k: Ctx, t: Tree, c: Color)
    requires k.In?
    ensures Inorder(Plug(k.up, Redden(k, t, c))) == Inorder(Plug(k, t))
  {
    PlugSame(k.up, Redden(k, t, c), Mk(k.side, k.color, t, k.id, k.sib));
  }

  lemma {:induction false} TurnOuterFits(k: Ctx, t: Tree)
    requires EraseGap(k, t) && k.In? && !RootRed(k.sib) && RootRed(k.sib.Kid(k.side.Other()))
    ensures k.sib.Node? && Fits(k.up, TurnOuter(k, t))
  {
    GapSibling(k, t);
    var s, o := k.side, k.side.Other();
    MkBalanced(o, Black, k.sib.Kid(s), k.id, t);
    var far := k.sib.Kid(o).Paint(Black);
    assert Balanced(far) && NoRedRed(far) && Bh(far) == Bh(t) + 1;
    MkBalanced(o, k.color, far, k.sib.id, Mk(o, Black, k.sib.Kid(s), k.id, t));
  }

  lemma {:induction false} TurnOuterInorder(k: Ctx, t: Tree)
    requires k.In? && k.sib.Node?
    ensures Inorder(Plug(k.up, TurnOuter(k, t))) == Inorder(Plug(k, t))
  {
    var s, o := k.side, k.side.Other();
    var far := k.sib.Kid(o).Paint(Black);
    RotateInorder(s, k.color, Black, k.color, k.sib.color, t, k.id, k.sib.Kid(s), k.sib.id, far);
    assert Inorder(far) == Inorder(k.sib.Kid(o));
    PlugSame(k.up, TurnOuter(k, t), Mk(s, k.color, t, k.id, k.sib));
  }

  lemma {:induction false} TurnInnerFits(k: Ctx, t: Tree)
    requires EraseGap(k, t) && k.In? && !RootRed(k.sib)
    requires RootRed(k.sib.Kid(k.side)) && !RootRed(k.sib.Kid(k.side.Other()))
    ensures k.sib.Node? && Fits(k.up, TurnInner(k, t))
  {
    GapSibling(k, t);
    var s, o := k.side, k.side.Other();
    var near := k.sib.Kid(s);
    MkBalanced(o, Red, near.Kid(o), near.id, near.Kid(s));
    var outer := Mk(o, Black, k.sib.Kid(o), k.sib.id, near.Kid(o));
    var inner := Mk(o, Black, near.Kid(s), k.id, t);
    MkBalanced(o, Black, k.sib.Kid(o), k.sib.id, near.Kid(o));
    MkBalanced(o, Black, near.Kid(s), k.id, t);
    MkBalanced(o, k.color, outer, near.id, inner);
  }

  lemma {:induction false} TurnInnerInorder(k: Ctx, t: Tree)
    requires k.In? && k.sib.Node? && k.sib.Kid(k.side).Node?
    ensures Inorder(Plug(k.up, TurnInner(k, t))) == Inorder(Plug(k, t))
  {
    var s, o := k.side, k.side.Other();
    var near := k.sib.Kid(s);
    var outer := Mk(s, Black, near.Kid(o), k.sib.id, k.sib.Kid(o));
    RotateInorder(s, k.sib.color, near.color, near.color, Black, near.Kid(s), near.id, near.Kid(o), k.sib.id,
      k.sib.Kid(o));
    RotateInorder(s, k.color, Black, k.color, near.color, t, k.id, near.Kid(s), near.id, outer);
    PlugSame(k.up, TurnInner(k, t), Mk(s, k.color, t, k.id, k.sib));
  }
}
