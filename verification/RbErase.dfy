/**
 Taking a node out of a tree before rebalancing: a node with at most one child is replaced by
 that child, any other by its in-order successor.
 */
module RbErase {
  import opened RbShape
  import opened RbArena
  import opened RbSteps
  import opened RbLinks
  import opened SortedSeq

  // ----- Shapes

  lemma {:induction false} OneChildShape(k: Ctx, n: Tree, s: Side)
    requires Fits(k, n) && n.Node? && n.Kid(s).Nil?
    ensures n.Kid(s.Other()).Node? ==> Fits(k, n.Kid(s.Other()).Paint(n.color)) && n.color == Black
    ensures n.Kid(s.Other()).Nil? && (n.color == Red || k.Top?) ==> Fits(k, Nil)
    ensures n.Kid(s.Other()).Nil? && n.color == Black ==> EraseGap(k, Nil)
  {
    var child := n.Kid(s.Other());
    assert Balanced(child) && NoRedRed(child) && Bh(child) == 0;
    if k.In? { assert CtxNoRedRed(k.up, k.color == Red); }
  }

  /** The context of the successor of `n`, once the successor `x` has taken the place of `n`. */
  ghost function Base(k: Ctx, n: Tree, x: nat): Ctx
    requires n.Node?
  {
    In(Right, k, n.color, x, n.left)
  }

  /** Whose identity a frame has does not matter to the red-black properties. */
  lemma {:induction false} RenameBase(rel: Ctx, k: Ctx, n: Tree, x: nat, y: nat, i: nat, red: bool)
    requires n.Node?
    ensures CtxBalanced(Compose(rel, Base(k, n, x)), i) <==> CtxBalanced(Compose(rel, Base(k, n, y)), i)
    ensures CtxNoRedRed(Compose(rel, Base(k, n, x)), red) <==> CtxNoRedRed(Compose(rel, Base(k, n, y)), red)
  {
    if rel.In? { RenameBase(rel.up, k, n, x, y, i + Weight(rel.color), rel.color == Red); }
  }

  ghost predicate LeftSpine(k: Ctx) { k.In? ==> k.side == Left && LeftSpine(k.up) }

  lemma {:induction false} SpineBefore(k: Ctx)
    requires LeftSpine(k)
    ensures Before(k) == []
  {
    if k.In? { SpineBefore(k.up); }
  }

  /** `n` with its successor `st`, the leftmost node on its right, in focus. */
  ghost predicate Succession(k: Ctx, n: Tree, rel: Ctx, st: Tree) {
    n.Node? && n.left.Node? && LeftSpine(rel) && st.Node? && st.left.Nil? && Plug(rel, st) == n.right
  }

  lemma {:induction false} SuccessorShape(k: Ctx, n: Tree, rel: Ctx, st: Tree)
    requires Succession(k, n, rel, st) && Fits(k, n)
    ensures var up := Compose(rel, Base(k, n, st.id));
      && (st.right.Node? ==> Fits(up, st.right.Paint(Black)))
      && (st.right.Nil? && st.color == Red ==> Fits(up, Nil))
      && (st.right.Nil? && st.color == Black ==> EraseGap(up, Nil))
  {
    var up, old_ := Compose(rel, Base(k, n, st.id)), Compose(rel, Base(k, n, n.id));
    PlugCompose(rel, Base(k, n, n.id), st);
    PlugRedBlack(k, n);
    PlugRedBlack(old_, st);
    OneChildShape(old_, st, Left);
    var c := st.right.Paint(Black);
    RenameBase(rel, k, n, st.id, n.id, Bh(c), RootRed(c));
    RenameBase(rel, k, n, st.id, n.id, 1, false);
  }

  lemma {:induction false} OneChildSeq(k: Ctx, n: Tree, s: Side)
    requires n.Node? && n.Kid(s).Nil? && Separate(k, n)
    ensures var t := n.Kid(s.Other()).Paint(n.color);
            Inorder(Plug(k, t)) == Remove(Inorder(Plug(k, n)), n.id) && Separate(k, t)
  {
    var t := n.Kid(s.Other()).Paint(n.color);
    PlugInorder(k, t);
    PlugInorder(k, n);
    TakenOut(k, n, t);
  }

  lemma {:induction false} SuccessorInorder(k: Ctx, n: Tree, rel: Ctx, st: Tree)
    requires Succession(k, n, rel, st)
    ensures Inorder(Node(n.color, n.left, st.id, Plug(rel, st.right.Paint(Black)))) ==
      Inorder(n.left) + Inorder(n.right)
  {
    var t := st.right.Paint(Black);
    PlugInorder(rel, st);
    PlugInorder(rel, t);
    SpineBefore(rel);
    assert Inorder(st) == [] + [st.id] + Inorder(st.right) && Inorder(t) == Inorder(st.right);
    assert Inorder(n.right) == [st.id] + Inorder(Plug(rel, t));
  }

  lemma {:induction false} SuccessorSeq(k: Ctx, n: Tree, rel: Ctx, st: Tree)
    requires Succession(k, n, rel, st) && Separate(k, n)
    ensures var up, t := Compose(rel, Base(k, n, st.id)), st.right.Paint(Black);
            Inorder(Plug(up, t)) == Remove(Inorder(Plug(k, n)), n.id) && Separate(up, t)
  {
    var up, t := Compose(rel, Base(k, n, st.id)), st.right.Paint(Black);
    var m := Node(n.color, n.left, st.id, Plug(rel, t));
    PlugCompose(rel, Base(k, n, st.id), t);
    SuccessorInorder(k, n, rel, st);
    TakenOut(k, n, m);
    PlugDistinct(k, m);
    PlugDistinct(up, t);
  }

  lemma RegroupAround(a: seq<nat>, b: seq<nat>, x: nat, c: seq<nat>, d: seq<nat>)
    ensures a + (b + [x] + c) + d == (a + b) + [x] + (c + d)
    ensures a + (b + c) + d == (a + b) + (c + d)
  {}

  lemma NoRepeatTaken(a: seq<nat>, x: nat, b: seq<nat>)
    requires NoRepeat(a + [x] + b)
    ensures NoRepeat(a + b) && x !in a
  {
    NoRepeatConcat(a + [x], b);
    NoRepeatConcat(a, [x]);
    NoRepeatConcat(a, b);
    assert x in [x] && forall y :: y in a ==> y in a + [x];
  }

  /** Replacing `n` by a tree with the same sequence but for `n` itself takes `n` out of the whole. */
  lemma {:induction false} TakenOut(k: Ctx, n: Tree, m: Tree)
    requires n.Node? && Separate(k, n) && Inorder(m) == Inorder(n.left) + Inorder(n.right)
    ensures Inorder(Plug(k, m)) == Remove(Inorder(Plug(k, n)), n.id) && Separate(k, m)
  {
    var a, b := Before(k) + Inorder(n.left), Inorder(n.right) + After(k);
    PlugInorder(k, m);
    PlugInorder(k, n);
    RegroupAround(Before(k), Inorder(n.left), n.id, Inorder(n.right), After(k));
    PlugDistinct(k, n);
    PlugDistinct(k, m);
    DistinctInorder(Plug(k, n));
    DistinctInorder(Plug(k, m));
    NoRepeatTaken(a, n.id, b);
    RemoveAt(a, n.id, b);
  }

  // ----- Memory

  lemma {:induction false} RepCompose(h: Arena, inner: Ctx, outer: Ctx, hole: nat, par: nat)
    ensures RepCtx(h, Compose(inner, outer), hole, par) <==>
            RepCtx(h, inner, hole, Above(outer, par)) && RepCtx(h, outer, CtxRoot(inner, hole), par)
    ensures CtxRoot(Compose(inner, outer), hole) == CtxRoot(outer, CtxRoot(inner, hole))
    ensures Above(Compose(inner, outer), par) == Above(inner, Above(outer, par))
  {
    if inner.In? { RepCompose(h, inner.up, outer, inner.id, par); }
  }

  lemma {:induction false} ComposeIds(inner: Ctx, outer: Ctx)
    ensures CtxIds(Compose(inner, outer)) == CtxIds(inner) + CtxIds(outer)
    ensures CtxDistinct(Compose(inner, outer)) <==>
            CtxDistinct(inner) && CtxDistinct(outer) && CtxIds(inner) !! CtxIds(outer)
  {
    if inner.In? { ComposeIds(inner.up, outer); }
  }

  lemma {:induction false} RootInCtx(k: Ctx, hole: nat)
    ensures k.In? ==> CtxRoot(k, hole) in CtxIds(k)
  {
    if k.In? && k.up.In? { RootInCtx(k.up, k.id); }
  }

  /** The outermost node of a context gets another parent. */
  lemma {:induction false} CtxReparent(h: Arena, k: Ctx, hole: nat, par: nat, par': nat)
    requires RepCtx(h, k, hole, par) && CtxDistinct(k) && k.In?
    ensures CtxRoot(k, hole) in h
    ensures RepCtx(SetParent(h, CtxRoot(k, hole), par'), k, hole, par')
  {
    var top := CtxRoot(k, hole);
    if k.up.In? {
      CtxReparent(h, k.up, k.id, par, par');
      RootInCtx(k.up, k.id);
      assert Above(k.up, par) == Above(k.up, par');
      RepFrame(h, SetParent(h, top, par'), {top}, k.sib, k.id);
    } else {
      assert CtxRoot(k.up, k.id) == k.id;
      RepFrame(h, SetParent(h, top, par'), {top}, k.sib, k.id);
    }
  }

  /** The path to the successor, rehung below the successor itself. */
  ghost function Moved(h: Arena, rel: Ctx, st: Tree): Arena
    requires st.Node? && (rel.In? ==> rel.id in h && CtxRoot(rel, st.id) in h)
  {
    if rel.Top? then h
    else SetParent(SetKid(h, rel.id, Left, Ptr(st.right)), CtxRoot(rel, st.id), st.id)
  }

  lemma {:induction false} MovedRep(h: Arena, rel: Ctx, st: Tree, par: nat)
    requires st.Node? && RepCtx(h, rel, st.id, par) && CtxDistinct(rel) && LeftSpine(rel)
    ensures rel.In? ==> rel.id in h && CtxRoot(rel, st.id) in h
    ensures RepCtx(Moved(h, rel, st), rel, Ptr(st.right), st.id)
  {
    if rel.In? {
      var h1 := SetKid(h, rel.id, Left, Ptr(st.right));
      NextAndBeyond(rel);
      CtxRehang(h, h1, {rel.id}, rel, st.id, Ptr(st.right), par);
      CtxReparent(h1, rel, Ptr(st.right), par, st.id);
      assert CtxRoot(rel, st.id) == CtxRoot(rel, Ptr(st.right));
    }
  }

  lemma {:induction false} SuccessorApart(k: Ctx, n: Tree, rel: Ctx, st: Tree)
    requires Succession(k, n, rel, st) && Separate(k, n)
    ensures st.id !in Ids(st.right) + CtxIds(rel) + Ids(n.left) + CtxIds(k)
    ensures Ids(n.left) !! CtxIds(k) && Ids(n.left) !! Ids(st.right) && Ids(n.left) !! CtxIds(rel)
    ensures CtxIds(rel) !! Ids(st.right) && CtxIds(rel) !! CtxIds(k) && CtxIds(k) !! Ids(st.right)
    ensures n.id !in Ids(st) + CtxIds(rel) + Ids(n.left) + CtxIds(k)
    ensures CtxDistinct(rel) && Distinct(st.right) && Distinct(n.left) && CtxDistinct(k)
  {
    PlugDistinct(rel, st);
    assert Ids(n) == Ids(n.left) + {n.id} + Ids(n.right);
    assert Ids(st) == {st.id} + Ids(st.right);
  }

  lemma {:induction false} SuccessorAvoid(k: Ctx, n: Tree, rel: Ctx, st: Tree, w: set<nat>)
    requires Succession(k, n, rel, st) && Separate(k, n)
    requires w == {st.id, n.left.id, Above(k, 0), Ptr(st.right)}
    ensures Avoid(w, CtxIds(rel)) && Avoid(w, Below(n.left)) && Avoid(w, Below(st.right)) && Avoid(w, Beyond(k))
  {
    SuccessorApart(k, n, rel, st);
    RootAndBelow(n.left);
    RootAndBelow(st.right);
    NextAndBeyond(k);
  }

  lemma {:induction false} MovedFrame(h: Arena, k: Ctx, n: Tree, rel: Ctx, st: Tree)
    requires Succession(k, n, rel, st) && Separate(k, n)
    requires rel.In? ==> rel.id in h && CtxRoot(rel, st.id) in h
    ensures var g := Moved(h, rel, st);
            forall x :: x in h && x !in CtxIds(rel) ==> x in g && g[x] == h[x]
  {
    RootInCtx(rel, st.id);
    assert rel.In? ==> rel.id in CtxIds(rel);
  }

  /** All writes of the two-children case done. */
  lemma {:induction false} SuccessorLinked(h: Arena, h': Arena, root: nat, root': nat, k: Ctx, n: Tree, rel: Ctx,
                                           st: Tree)
    requires Linked(h, root, k, n) && Succession(k, n, rel, st)
    requires RepCtx(h, rel, st.id, n.id) && Rep(h, st, Above(rel, n.id))
    requires rel.In? ==> rel.id in h && CtxRoot(rel, st.id) in h
    requires Frame(Moved(h, rel, st), h', {st.id, n.left.id, Above(k, 0), Ptr(st.right)})
    requires Holds(h', st.id, Rec(Above(k, 0), n.color, n.left.id, CtxRoot(rel, Ptr(st.right))))
    requires Adopted(h, h', n.left, st.id, n.left.color)
    requires Adopted(h, h', st.right, Above(rel, st.id), Black)
    requires Hooked(h, h', root, root', k, st.id)
    ensures Linked(h', root', Compose(rel, Base(k, n, st.id)), st.right.Paint(Black))
  {
    var g, t := Moved(h, rel, st), st.right.Paint(Black);
    var w := {st.id, n.left.id, Above(k, 0), Ptr(st.right)};
    SuccessorSeq(k, n, rel, st);
    SuccessorApart(k, n, rel, st);
    SuccessorAvoid(k, n, rel, st, w);
    MovedRep(h, rel, st, n.id);
    MovedFrame(h, k, n, rel, st);
    CtxFrame(g, h', w, rel, Ptr(st.right), st.id);
    SuccessorOuter(h, g, h', w, k, n, rel, st);
    assert RepCtx(h', Base(k, n, st.id), CtxRoot(rel, Ptr(t)), 0);
    RepCompose(h', rel, Base(k, n, st.id), Ptr(t), 0);
  }

  /** The parts off the path to the successor. */
  lemma {:induction false} SuccessorOuter(h: Arena, g: Arena, h': Arena, w: set<nat>, k: Ctx, n: Tree, rel: Ctx,
                                          st: Tree)
    requires Succession(k, n, rel, st) && Separate(k, n)
    requires Rep(h, n, Above(k, 0)) && RepCtx(h, k, n.id, 0) && Rep(h, st, Above(rel, n.id))
    requires forall x :: x in h && x !in CtxIds(rel) ==> x in g && g[x] == h[x]
    requires Frame(g, h', w) && w == {st.id, n.left.id, Above(k, 0), Ptr(st.right)}
    requires Adopted(h, h', n.left, st.id, n.left.color)
    requires Adopted(h, h', st.right, Above(rel, st.id), Black)
    requires k.In? ==> Holds(h', k.id, h[k.id].WithKid(k.side, st.id))
    ensures Rep(h', n.left, st.id) && Rep(h', st.right.Paint(Black), Above(rel, st.id)) && RepCtx(h', k, st.id, 0)
  {
    SuccessorApart(k, n, rel, st);
    SuccessorAvoid(k, n, rel, st, w);
    var v := w + CtxIds(rel);
    RootAndBelow(n.left);
    RootAndBelow(st.right);
    NextAndBeyond(k);
    assert Frame(h, h', v);
    RepAdopt(h, h', v, n.left, n.id, st.id, n.left.color);
    RepAdopt(h, h', v, st.right, st.id, Above(rel, st.id), Black);
    CtxRehang(h, h', v, k, n.id, st.id, 0);
  }

  /** A node with at most one child has been replaced by that child. */
  lemma {:induction false} OneChildLinked(h: Arena, h': Arena, root: nat, root': nat, k: Ctx, n: Tree, s: Side)
    requires Linked(h, root, k, n) && n.Node? && n.Kid(s).Nil?
    requires Adopted(h, h', n.Kid(s.Other()), Above(k, 0), n.color)
    requires Hooked(h, h', root, root', k, Ptr(n.Kid(s.Other())))
    requires Frame(h, h', {Ptr(n.Kid(s.Other())), Above(k, 0)})
    ensures Linked(h', root', k, n.Kid(s.Other()).Paint(n.color))
  {
    var c, w := n.Kid(s.Other()), {Ptr(n.Kid(s.Other())), Above(k, 0)};
    OneChildSeq(k, n, s);
    assert Ids(c) <= Ids(n) && Distinct(c);
    RootAndBelow(c);
    NextAndBeyond(k);
    RepAdopt(h, h', w, c, n.id, Above(k, 0), n.color);
    CtxRehang(h, h', w, k, n.id, Ptr(c), 0);
  }

  lemma {:induction false} OneChildPointers(h: Arena, root: nat, k: Ctx, n: Tree, s: Side)
    requires Linked(h, root, k, n) && n.Node?
    ensures Holds(h, n.id, MkRec(s, Above(k, 0), n.color, Ptr(n.Kid(s)), Ptr(n.Kid(s.Other()))))
    ensures Sound(h, n.Kid(s), n.id) && Sound(h, n.Kid(s.Other()), n.id) && n.id != 0
    ensures k.In? ==>
      && k.id != 0 && Ptr(k.sib) != n.id
      && Holds(h, k.id, MkRec(k.side, Above(k.up, 0), k.color, n.id, Ptr(k.sib)))
    ensures k.In? ==> k.id != n.id && k.id != Ptr(n.Kid(s)) && k.id != Ptr(n.Kid(s.Other()))
    ensures n.id != Ptr(n.Kid(s)) && n.id != Ptr(n.Kid(s.Other()))
  {
    assert Rep(h, n.left, n.id) && Rep(h, n.right, n.id);
    RootAndBelow(n.left);
    RootAndBelow(n.right);
    assert Ids(n) == Ids(n.left) + {n.id} + Ids(n.right);
    if k.In? { RootAndBelow(k.sib); }
  }

  ghost predicate OnPath(h: Arena, k: Ctx, n: Tree, rel: Ctx, st: Tree) {
    && n.Node? && LeftSpine(rel) && st.Node? && Plug(rel, st) == n.right
    && RepCtx(h, rel, st.id, n.id) && Rep(h, st, Above(rel, n.id))
  }

  /** The pointers around the successor. */
  lemma {:induction false} SuccessorRecords(h: Arena, root: nat, k: Ctx, n: Tree, rel: Ctx, st: Tree)
    requires Linked(h, root, k, n) && Succession(k, n, rel, st) && OnPath(h, k, n, rel, st)
    ensures Holds(h, st.id, Rec(Above(rel, n.id), st.color, 0, Ptr(st.right))) && st.id != 0
      && Sound(h, st.right, st.id)
    ensures rel.In? ==> rel.id != 0 && rel.id in h
    ensures CtxRoot(rel, st.id) == Ptr(n.right) && Ptr(n.right) in h && Ptr(n.right) != 0
    ensures CtxRoot(rel, Ptr(st.right)) == if rel.In? then Ptr(n.right) else Ptr(st.right)
  {
    RepPlug(h, rel, st, n.id);
    assert Rep(h, st.right, st.id) && Rep(h, n.right, n.id);
    assert n.right.Node? by { if rel.In? { RootInCtx(rel, st.id); PlugDistinct(rel, st); } }
  }

  lemma {:induction false} SuccessorDiffer(h: Arena, root: nat, k: Ctx, n: Tree, rel: Ctx, st: Tree)
    requires Linked(h, root, k, n) && Succession(k, n, rel, st) && OnPath(h, k, n, rel, st)
    ensures st.id !in {n.id, n.left.id, Above(k, 0), Ptr(st.right)}
    ensures n.id !in {n.left.id, Above(k, 0), Ptr(st.right)}
    ensures n.left.id !in {Above(k, 0), Ptr(st.right)} && (k.In? ==> k.id != Ptr(st.right))
    ensures rel.In? ==> rel.id !in {n.id, st.id, n.left.id, Above(k, 0), Ptr(st.right)}
    ensures rel.In? ==> Ptr(n.right) !in {n.id, st.id, n.left.id, Above(k, 0), Ptr(st.right)}
  {
    SuccessorRecords(h, root, k, n, rel, st);
    OneChildPointers(h, root, k, n, Left);
    SuccessorApart(k, n, rel, st);
    RootAndBelow(n.left);
    RootAndBelow(st.right);
    NextAndBeyond(k);
    RootInCtx(rel, st.id);
    NextAndBeyond(rel);
    assert st.id in Ids(st) && Ids(st.right) <= Ids(st);
  }
}
