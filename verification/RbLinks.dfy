/**
 Each rebalancing step as it is carried out on an arena: when the step's writes are done,
 the arena holds the rewritten tree.
 */
module RbLinks {
  import opened RbShape
  import opened RbArena
  import opened RbSteps

  /** Where a rotation leaves the pointer to the rotated subtree. */
  ghost predicate Hooked(h: Arena, h': Arena, root: nat, root': nat, up: Ctx, x: nat) {
    && root' == (if up.Top? then x else root)
    && (up.In? ==> up.id in h && up.id in h' && h'[up.id] == h[up.id].WithKid(up.side, x))
  }

  ghost predicate Adopted(h: Arena, h': Arena, t: Tree, par: nat, c: Color) {
    t.Node? ==> t.id in h && t.id in h' && h'[t.id] == h[t.id].(parent := par, color := c)
  }

  ghost predicate Holds(h: Arena, x: nat, r: Rec) { x in h && h[x] == r }

  lemma {:induction false} RootAndBelow(t: Tree)
    requires Distinct(t)
    ensures Below(t) <= Ids(t) && (t.Node? ==> t.id in Ids(t) && t.id !in Below(t))
  {}

  lemma {:induction false} NextAndBeyond(k: Ctx)
    requires CtxDistinct(k)
    ensures Beyond(k) <= CtxIds(k) && (k.In? ==> k.id in CtxIds(k) && k.id !in Beyond(k))
  {}

  /** The pointer to `old_` in its parent now leads to `new_`. */
  ghost predicate Rehooked(h: Arena, h': Arena, parent: nat, old_: nat, new_: nat) {
    parent != 0 ==>
      && parent in h
      && Holds(h', parent, h[parent].WithKid(if h[parent].left == old_ then Left else Right, new_))
  }

  ghost predicate RotateArgs(h: Arena, old_: nat, new_: nat, tmp: nat) {
    && old_ in h && new_ in h && old_ != new_
    && tmp !in {old_, new_} && (tmp != 0 ==> tmp in h)
    && var parent := h[old_].parent;
       parent !in {old_, new_} && (parent != 0 ==> parent in h && parent != tmp)
  }

  ghost predicate Relinked(h: Arena, h': Arena, old_: nat, new_: nat, s: Side, tmp: nat, paint: bool)
    requires RotateArgs(h, old_, new_, tmp)
  {
    && Holds(h', new_, h[new_].WithKid(s.Other(), old_))
    && Holds(h', old_, h[old_].WithKid(s, tmp))
    && (tmp != 0 ==> Holds(h', tmp, h[tmp].(parent := old_, color := if paint then Black else h[tmp].color)))
    && Frame(h, h', {old_, new_, tmp})
  }

  ghost predicate RotateWrote(h: Arena, h': Arena, old_: nat, new_: nat, s: Side, tmp: nat, color: Color, paint: bool)
    requires RotateArgs(h, old_, new_, tmp)
  {
    var parent := h[old_].parent;
    && Holds(h', new_, h[new_].WithKid(s.Other(), old_).(parent := parent, color := h[old_].color))
    && Holds(h', old_, h[old_].WithKid(s, tmp).(parent := new_, color := color))
    && (tmp != 0 ==> Holds(h', tmp, h[tmp].(parent := old_, color := if paint then Black else h[tmp].color)))
    && Rehooked(h, h', parent, old_, new_)
    && Frame(h, h', {old_, new_, tmp, parent})
  }

  /** `old_`, its far child `mid` and the near child `new_` of `mid`, before a double rotation. */
  ghost predicate TwistArgs(h: Arena, old_: nat, mid: nat, new_: nat, s: Side) {
    && old_ in h && mid in h && new_ in h && old_ != mid && new_ !in {old_, mid}
    && var a, b, parent := h[new_].Kid(s), h[new_].Kid(s.Other()), h[old_].parent;
       && (a != 0 ==> a in h && a != b) && (b != 0 ==> b in h) && a !in {old_, mid, new_} && b !in {old_, mid, new_}
       && parent !in {old_, mid, new_} && (parent != 0 ==> parent in h && parent !in {a, b})
  }

  ghost predicate TwistWrote(h: Arena, h': Arena, old_: nat, mid: nat, new_: nat, s: Side)
    requires TwistArgs(h, old_, mid, new_, s)
  {
    var o := s.Other();
    var a, b, parent := h[new_].Kid(s), h[new_].Kid(o), h[old_].parent;
    && Holds(h', old_, h[old_].WithKid(o, a).(parent := new_, color := Black))
    && Holds(h', new_, h[new_].WithKid(s, old_).WithKid(o, mid).(parent := parent, color := h[old_].color))
    && Holds(h', mid, h[mid].WithKid(s, b).(parent := new_, color := Black))
    && (a != 0 ==> Holds(h', a, h[a].(parent := old_)))
    && (b != 0 ==> Holds(h', b, h[b].(parent := mid, color := Black)))
    && Rehooked(h, h', parent, old_, new_)
    && Frame(h, h', {old_, mid, new_, a, b, parent})
  }

  /** What the two rotations of an insertion write, `new_` rising past `mid` and `old_`. */
  ghost predicate TurnedTwice(h: Arena, h': Arena, old_: nat, mid: nat, new_: nat, s: Side)
    requires TwistArgs(h, old_, mid, new_, s.Other())
  {
    var o := s.Other();
    var a, b, parent := h[new_].Kid(s), h[new_].Kid(o), h[old_].parent;
    && Holds(h', mid, h[mid].WithKid(o, a).(parent := new_, color := Red))
    && Holds(h', new_, h[new_].WithKid(s, mid).WithKid(o, old_).(parent := parent, color := h[old_].color))
    && Holds(h', old_, h[old_].WithKid(s, b).(parent := new_, color := Red))
    && (a != 0 ==> Holds(h', a, h[a].(parent := mid, color := Black)))
    && (b != 0 ==> Holds(h', b, h[b].(parent := old_, color := Black)))
    && Rehooked(h, h', parent, old_, new_)
    && Frame(h, h', {old_, mid, new_, a, b, parent})
  }

  ghost predicate Sound(h: Arena, t: Tree, par: nat) {
    t.Node? ==> Holds(h, t.id, Rec(par, t.color, Ptr(t.left), Ptr(t.right))) && t.id != 0
  }

  /** The pointers around a focus with a grandparent. */
  lemma {:induction false} FamilyRecords(h: Arena, root: nat, k: Ctx, t: Tree)
    requires Linked(h, root, k, t) && t.Node? && k.In? && k.up.In?
    ensures Sound(h, t, k.id) && Sound(h, t.left, t.id) && Sound(h, t.right, t.id)
    ensures Holds(h, k.id, MkRec(k.side, k.up.id, k.color, t.id, Ptr(k.sib)))
    ensures Holds(h, k.up.id, MkRec(k.up.side, Above(k.up.up, 0), k.up.color, k.id, Ptr(k.up.sib)))
    ensures Sound(h, k.sib, k.id) && Sound(h, k.up.sib, k.up.id)
    ensures k.up.up.In? ==>
      Holds(h, k.up.up.id, MkRec(k.up.up.side, Above(k.up.up.up, 0), k.up.up.color, k.up.id, Ptr(k.up.up.sib)))
    ensures k.id != 0 && k.up.id != 0 && (k.up.up.In? ==> k.up.up.id != 0)
  {
    assert RepCtx(h, k.up, k.id, 0) && RepCtx(h, k.up.up, k.up.id, 0);
    assert Rep(h, t.left, t.id) && Rep(h, t.right, t.id);
  }

  lemma {:induction false} FamilyApart(h: Arena, root: nat, k: Ctx, t: Tree)
    requires Linked(h, root, k, t) && t.Node? && k.In? && k.up.In?
    ensures var a, b, x, u, v := Ptr(t.left), Ptr(t.right), Ptr(k.sib), Ptr(k.up.sib), Above(k.up.up, 0);
      && t.id !in {k.id, k.up.id, a, b, x, u, v}
      && k.id !in {k.up.id, a, b, x, u, v}
      && k.up.id !in {a, b, x, u, v}
      && (a != 0 ==> a !in {b, x, u, v})
      && (b != 0 ==> b !in {x, u, v})
      && (x != 0 ==> x !in {u, v})
      && (u != 0 ==> u != v)
    ensures k.up.up.In? ==> Ptr(k.up.up.sib) != k.up.id
  {
    FamilyRecords(h, root, k, t);
    SeparateTwo(k, t);
    var up := k.up.up;
    assert Ids(t) == Ids(t.left) + {t.id} + Ids(t.right);
    RootAndBelow(t.left);
    RootAndBelow(t.right);
    RootAndBelow(k.sib);
    RootAndBelow(k.up.sib);
    NextAndBeyond(up);
    if up.In? { RootAndBelow(up.sib); }
  }

  lemma {:induction false} OuterTurnAvoid(k: Ctx, t: Tree, w: set<nat>)
    requires Separate(k, t) && k.In? && k.up.In?
    requires w == {k.id, k.up.id, Ptr(k.sib), Above(k.up.up, 0)}
    ensures Avoid(w, Ids(t)) && Avoid(w, Ids(k.up.sib)) && Avoid(w, Below(k.sib)) && Avoid(w, Beyond(k.up.up))
  {
    SeparateTwo(k, t);
    RootAndBelow(k.sib);
    NextAndBeyond(k.up.up);
  }

  lemma {:induction false} OuterTurnLinked(h: Arena, h': Arena, root: nat, root': nat, k: Ctx, t: Tree)
    requires Linked(h, root, k, t) && t.Node? && k.In? && k.up.In? && k.side == k.up.side && !RootRed(k.sib)
    requires Holds(h', k.id, MkRec(k.side, Above(k.up.up, 0), Black, t.id, k.up.id))
    requires Holds(h', k.up.id, MkRec(k.side, k.id, Red, Ptr(k.sib), Ptr(k.up.sib)))
    requires Adopted(h, h', k.sib, k.up.id, Black)
    requires Hooked(h, h', root, root', k.up.up, k.id)
    requires Frame(h, h', {k.id, k.up.id, Ptr(k.sib), Above(k.up.up, 0)})
    ensures Linked(h', root', k.up.up, Turn(k, t))
  {
    var s, p, x, g, u, up := k.side, k.id, k.sib, k.up.id, k.up.sib, k.up.up;
    assert RepCtx(h, k.up, p, 0);
    assert root == CtxRoot(k.up, p) == CtxRoot(up, g);
    TurnInorder(k, t);
    SeparateSameSeq(k, t, up, Turn(k, t));
    var w := {p, g, Ptr(x), Above(up, 0)};
    OuterTurnAvoid(k, t, w);
    RepFrame(h, h', w, t, p);
    RepFrame(h, h', w, u, g);
    RepAdopt(h, h', w, x, p, g, Black);
    assert x.Paint(Black) == x;
    Rotated(h, h', w, root, root', up, s, Black, Red, t, p, x, g, u);
  }

  lemma {:induction false} InnerTurnAvoid(k: Ctx, t: Tree, w: set<nat>)
    requires Separate(k, t) && k.In? && k.up.In? && t.Node?
    requires w == {k.id, k.up.id, t.id, Ptr(t.left), Ptr(t.right), Above(k.up.up, 0)}
    ensures Avoid(w, Ids(k.sib)) && Avoid(w, Ids(k.up.sib)) && Avoid(w, Beyond(k.up.up))
    ensures Avoid(w, Below(t.left)) && Avoid(w, Below(t.right))
  {
    SeparateTwo(k, t);
    assert Ids(t) == Ids(t.left) + {t.id} + Ids(t.right);
    RootAndBelow(t.left);
    RootAndBelow(t.right);
    NextAndBeyond(k.up.up);
  }

  lemma {:induction false} InnerTurnLinked(h: Arena, h': Arena, root: nat, root': nat, k: Ctx, t: Tree)
    requires Linked(h, root, k, t) && t.Node? && k.In? && k.up.In? && k.side != k.up.side
    requires !RootRed(t.Kid(Left)) && !RootRed(t.Kid(Right))
    requires Holds(h', k.id, MkRec(k.up.side, t.id, Red, Ptr(k.sib), Ptr(t.Kid(k.up.side))))
    requires Holds(h', t.id, MkRec(k.up.side, Above(k.up.up, 0), Black, k.id, k.up.id))
    requires Holds(h', k.up.id, MkRec(k.up.side, t.id, Red, Ptr(t.Kid(k.side)), Ptr(k.up.sib)))
    requires Adopted(h, h', t.Kid(k.up.side), k.id, Black) && Adopted(h, h', t.Kid(k.side), k.up.id, Black)
    requires Hooked(h, h', root, root', k.up.up, t.id)
    requires Frame(h, h', {k.id, k.up.id, t.id, Ptr(t.left), Ptr(t.right), Above(k.up.up, 0)})
    ensures Linked(h', root', k.up.up, Turn(k, t))
  {
    var s, p, x, g, u, up := k.up.side, k.id, k.sib, k.up.id, k.up.sib, k.up.up;
    var a, b := t.Kid(s), t.Kid(k.side);
    assert RepCtx(h, k.up, p, 0);
    assert root == CtxRoot(k.up, p) == CtxRoot(up, g);
    TurnInorder(k, t);
    SeparateSameSeq(k, t, up, Turn(k, t));
    var w := {p, g, t.id, Ptr(t.left), Ptr(t.right), Above(up, 0)};
    InnerTurnAvoid(k, t, w);
    RepFrame(h, h', w, x, p);
    RepFrame(h, h', w, u, g);
    RepAdopt(h, h', w, a, t.id, p, Black);
    RepAdopt(h, h', w, b, t.id, g, Black);
    assert a.Paint(Black) == a && b.Paint(Black) == b;
    assert Rep(h', Mk(s, Red, x, p, a), t.id);
    Rotated(h, h', w, root, root', up, s, Black, Red, Mk(s, Red, x, p, a), t.id, b, g, u);
  }

  lemma {:induction false} FlipLinked(h: Arena, h': Arena, root: nat, k: Ctx, t: Tree)
    requires Linked(h, root, k, t) && t.Node? && k.In? && k.up.In? && k.up.sib.Node?
    requires k.id in h && Holds(h', k.id, h[k.id].(color := Black))
    requires k.up.id in h && Holds(h', k.up.id, h[k.up.id].(color := Red))
    requires k.up.sib.id in h && Holds(h', k.up.sib.id, h[k.up.sib.id].(color := Black))
    requires Frame(h, h', {k.id, k.up.id, k.up.sib.id})
    ensures Linked(h', root, k.up.up, Flip(k, t))
  {
    var p, x, g, u, up := k.id, k.sib, k.up.id, k.up.sib, k.up.up;
    assert RepCtx(h, k.up, p, 0);
    assert root == CtxRoot(k.up, p) == CtxRoot(up, g);
    SeparateTwo(k, t);
    RootAndBelow(u);
    var w := {p, g, u.id};
    RepFrame(h, h', w, t, p);
    RepFrame(h, h', w, x, p);
    CtxFrame(h, h', w, up, g, 0);
    RepAdopt(h, h', w, u, g, g, Black);
    assert Rep(h', Mk(k.side, Black, t, p, x), g);
    FlipInorder(k, t);
    SeparateSameSeq(k, t, up, Flip(k, t));
  }

  lemma {:induction false} RootBlackened(h: Arena, h': Arena, root: nat, k: Ctx, t: Tree)
    requires Linked(h, root, k, t) && t.Node? && Above(k, 0) == 0
    requires h' == SetParentColor(h, t.id, 0, Black)
    ensures k.Top? && Linked(h', root, Top, t.Paint(Black))
  {
    RootAndBelow(t);
    RepAdopt(h, h', {t.id}, t, 0, 0, Black);
  }

  /** What the insertion loop sees below a red parent. */
  lemma {:induction false} InsertView(h: Arena, root: nat, k: Ctx, t: Tree)
    requires Linked(h, root, k, t) && InsertGap(k, t) && k.In? && k.color == Red
    ensures k.up.In? && k.up.color == Black && !RootRed(k.sib) && !RootRed(t.left) && !RootRed(t.right)
    ensures Holds(h, k.id, MkRec(k.side, k.up.id, Red, t.id, Ptr(k.sib)))
    ensures Holds(h, k.up.id, MkRec(k.up.side, Above(k.up.up, 0), Black, k.id, Ptr(k.up.sib)))
    ensures k.id != Ptr(k.up.sib) && t.id != Ptr(k.sib) && Sound(h, k.up.sib, k.up.id)
  {
    assert CtxNoRedRed(k.up, true);
    FamilyRecords(h, root, k, t);
    FamilyApart(h, root, k, t);
  }

  // ----- Erasure

  lemma {:induction false} SeparateNephews(k: Ctx, t: Tree)
    requires Separate(k, t) && k.In? && k.sib.Node?
    ensures k.id != k.sib.id
    ensures var a, b := k.sib.Kid(k.side), k.sib.Kid(k.side.Other());
            && {k.id, k.sib.id} !! Ids(t) + Ids(a) + Ids(b) + CtxIds(k.up)
            && Ids(t) !! Ids(a) && Ids(t) !! Ids(b) && Ids(t) !! CtxIds(k.up)
            && Ids(a) !! Ids(b) && Ids(a) !! CtxIds(k.up) && Ids(b) !! CtxIds(k.up)
            && Distinct(a) && Distinct(b) && CtxDistinct(k.up)
  {
    var a, b := k.sib.Kid(k.side), k.sib.Kid(k.side.Other());
    assert Ids(k.sib) == Ids(a) + {k.sib.id} + Ids(b);
    assert Distinct(k.sib);
  }

  /** The pointers around a focus with a sibling. */
  lemma {:induction false} NephewRecords(h: Arena, root: nat, k: Ctx, t: Tree)
    requires Linked(h, root, k, t) && k.In? && k.sib.Node?
    ensures Holds(h, k.id, MkRec(k.side, Above(k.up, 0), k.color, Ptr(t), k.sib.id))
    ensures var a, b := k.sib.Kid(k.side), k.sib.Kid(k.side.Other());
      && Holds(h, k.sib.id, MkRec(k.side, k.id, k.sib.color, Ptr(a), Ptr(b)))
      && Sound(h, a, k.sib.id) && Sound(h, b, k.sib.id)
      && (a.Node? ==> Sound(h, a.left, a.id) && Sound(h, a.right, a.id))
    ensures k.up.In? ==> Holds(h, k.up.id, MkRec(k.up.side, Above(k.up.up, 0), k.up.color, k.id, Ptr(k.up.sib)))
    ensures k.id != 0 && k.sib.id != 0 && (k.up.In? ==> k.up.id != 0)
    ensures Sound(h, t, k.id)
  {
    var a, b := k.sib.Kid(k.side), k.sib.Kid(k.side.Other());
    assert Rep(h, k.sib, k.id) && Rep(h, a, k.sib.id) && Rep(h, b, k.sib.id);
    if a.Node? { assert Rep(h, a.left, a.id) && Rep(h, a.right, a.id); }
    assert RepCtx(h, k.up, k.id, 0);
  }

  lemma {:induction false} NephewApart(h: Arena, root: nat, k: Ctx, t: Tree)
    requires Linked(h, root, k, t) && k.In? && k.sib.Node?
    ensures var a, b, v := Ptr(k.sib.Kid(k.side)), Ptr(k.sib.Kid(k.side.Other())), Above(k.up, 0);
      && k.id !in {k.sib.id, a, b, v} && k.sib.id !in {a, b, v}
      && (a != 0 ==> a !in {b, v}) && (b != 0 ==> b != v)
    ensures k.up.In? ==> Ptr(k.up.sib) != k.id
    ensures Ptr(t) != k.sib.id
  {
    NephewRecords(h, root, k, t);
    SeparateNephews(k, t);
    RootAndBelow(k.sib.Kid(Left));
    RootAndBelow(k.sib.Kid(Right));
    NextAndBeyond(k.up);
    if k.up.In? { RootAndBelow(k.up.sib); }
    RootAndBelow(t);
  }

  /** The children of the near nephew. */
  lemma {:induction false} NearApart(h: Arena, root: nat, k: Ctx, t: Tree)
    requires Linked(h, root, k, t) && k.In? && k.sib.Node? && k.sib.Kid(k.side).Node?
    ensures var near := k.sib.Kid(k.side);
      var x, y := Ptr(near.left), Ptr(near.right);
      && near.id !in {k.id, k.sib.id, x, y, Ptr(k.sib.Kid(k.side.Other())), Above(k.up, 0)}
      && (x != 0 ==> x !in {k.id, k.sib.id, y, Ptr(k.sib.Kid(k.side.Other())), Above(k.up, 0)})
      && (y != 0 ==> y !in {k.id, k.sib.id, x, Ptr(k.sib.Kid(k.side.Other())), Above(k.up, 0)})
  {
    var near, far := k.sib.Kid(k.side), k.sib.Kid(k.side.Other());
    NephewRecords(h, root, k, t);
    SeparateNephews(k, t);
    assert Ids(near) == Ids(near.left) + {near.id} + Ids(near.right);
    RootAndBelow(near.left);
    RootAndBelow(near.right);
    RootAndBelow(far);
    NextAndBeyond(k.up);
  }

  lemma {:induction false} NephewsAvoid(k: Ctx, t: Tree, w: set<nat>)
    requires Separate(k, t) && k.In? && k.sib.Node?
    requires w == {k.id, k.sib.id, Ptr(k.sib.Kid(Left)), Ptr(k.sib.Kid(Right)), Above(k.up, 0)}
    ensures Avoid(w, Ids(t)) && Avoid(w, Below(k.sib.Kid(Left))) && Avoid(w, Below(k.sib.Kid(Right)))
    ensures Avoid(w, Beyond(k.up))
  {
    SeparateNephews(k, t);
    RootAndBelow(k.sib.Kid(Left));
    RootAndBelow(k.sib.Kid(Right));
    NextAndBeyond(k.up);
  }

  lemma {:induction false} LowerAvoid(k: Ctx, t: Tree, w: set<nat>)
    requires Separate(k, t) && k.In? && k.sib.Node?
    requires w == {k.id, k.sib.id, Ptr(k.sib.Kid(k.side)), Above(k.up, 0)}
    ensures Avoid(w, Ids(t)) && Avoid(w, Below(k.sib.Kid(k.side))) && Avoid(w, Ids(k.sib.Kid(k.side.Other())))
    ensures Avoid(w, Beyond(k.up))
  {
    SeparateNephews(k, t);
    RootAndBelow(k.sib.Kid(k.side));
    NextAndBeyond(k.up);
  }

  /** Case 1. */
  lemma {:induction false} LowerLinked(h: Arena, h': Arena, root: nat, root': nat, k: Ctx, t: Tree)
    requires Linked(h, root, k, t) && k.In? && k.sib.Node? && k.sib.Kid(k.side).Node? && !RootRed(k.sib.Kid(k.side))
    requires Holds(h', k.id, MkRec(k.side, k.sib.id, Red, Ptr(t), Ptr(k.sib.Kid(k.side))))
    requires Holds(h', k.sib.id, MkRec(k.side, Above(k.up, 0), k.color, k.id, Ptr(k.sib.Kid(k.side.Other()))))
    requires Adopted(h, h', k.sib.Kid(k.side), k.id, Black)
    requires Hooked(h, h', root, root', k.up, k.sib.id)
    requires Frame(h, h', {k.id, k.sib.id, Ptr(k.sib.Kid(k.side)), Above(k.up, 0)})
    ensures Linked(h', root', Lower(k), t)
  {
    var s, o, p, x, up := k.side, k.side.Other(), k.id, k.sib.id, k.up;
    var a, b := k.sib.Kid(s), k.sib.Kid(o);
    var w := {p, x, Ptr(a), Above(up, 0)};
    LowerAvoid(k, t, w);
    RepFrame(h, h', w, t, p);
    RepFrame(h, h', w, b, x);
    RepAdopt(h, h', w, a, x, p, Black);
    assert a.Paint(Black) == a;
    LowerInorder(k, t);
    var f := Mk(o, k.color, b, x, Mk(o, Red, a, p, t));
    assert Plug(Lower(k), t) == Plug(up, f);
    SeparateSameSeq(k, t, up, f);
    Rotated(h, h', w, root, root', up, o, k.color, Red, b, x, a, p, t);
    LinkedPlug(h', root', up, f);
    LinkedPlug(h', root', Lower(k), t);
  }

  /** Case 2. */
  lemma {:induction false} ReddenLinked(h: Arena, h': Arena, root: nat, k: Ctx, t: Tree, c: Color)
    requires Linked(h, root, k, t) && k.In? && k.sib.Node?
    requires k.id in h && Holds(h', k.id, h[k.id].(color := c))
    requires k.sib.id in h && Holds(h', k.sib.id, h[k.sib.id].(color := Red))
    requires Frame(h, h', {k.id, k.sib.id})
    ensures Linked(h', root, k.up, Redden(k, t, c))
  {
    SeparateNephews(k, t);
    var w := {k.id, k.sib.id};
    RepFrame(h, h', w, t, k.id);
    RepAdopt(h, h', w, k.sib, k.id, k.id, Red);
    CtxFrame(h, h', w, k.up, k.id, 0);
    ReddenInorder(k, t, c);
    SeparateSameSeq(k, t, k.up, Redden(k, t, c));
  }

  /** Case 4. */
  lemma {:induction false} TurnOuterLinked(h: Arena, h': Arena, root: nat, root': nat, k: Ctx, t: Tree)
    requires Linked(h, root, k, t) && k.In? && k.sib.Node? && k.sib.Kid(k.side.Other()).Node?
    requires Holds(h', k.id, MkRec(k.side, k.sib.id, Black, Ptr(t), Ptr(k.sib.Kid(k.side))))
    requires Holds(h', k.sib.id, MkRec(k.side, Above(k.up, 0), k.color, k.id, Ptr(k.sib.Kid(k.side.Other()))))
    requires k.sib.Kid(k.side).Node? ==> Adopted(h, h', k.sib.Kid(k.side), k.id, k.sib.Kid(k.side).color)
    requires Adopted(h, h', k.sib.Kid(k.side.Other()), k.sib.id, Black)
    requires Hooked(h, h', root, root', k.up, k.sib.id)
    requires Frame(h, h', {k.id, k.sib.id, Ptr(k.sib.Kid(Left)), Ptr(k.sib.Kid(Right)), Above(k.up, 0)})
    ensures Linked(h', root', k.up, TurnOuter(k, t))
  {
    var s, o, p, x, up := k.side, k.side.Other(), k.id, k.sib.id, k.up;
    var a, b := k.sib.Kid(s), k.sib.Kid(o);
    var w := {p, x, Ptr(k.sib.Kid(Left)), Ptr(k.sib.Kid(Right)), Above(up, 0)};
    NephewsAvoid(k, t, w);
    TurnOuterInorder(k, t);
    SeparateSameSeq(k, t, up, TurnOuter(k, t));
    RepFrame(h, h', w, t, p);
    if a.Node? { RepAdopt(h, h', w, a, x, p, a.color); }
    RepAdopt(h, h', w, b, x, x, Black);
    Rotated(h, h', w, root, root', up, o, k.color, Black, b.Paint(Black), x, a, p, t);
  }

  lemma {:induction false} TurnInnerAvoid(k: Ctx, t: Tree, w: set<nat>)
    requires Separate(k, t) && k.In? && k.sib.Node? && k.sib.Kid(k.side).Node?
    requires var near := k.sib.Kid(k.side);
             w == {k.id, k.sib.id, near.id, Ptr(near.Kid(Left)), Ptr(near.Kid(Right)), Above(k.up, 0)}
    ensures Avoid(w, Ids(t)) && Avoid(w, Ids(k.sib.Kid(k.side.Other()))) && Avoid(w, Beyond(k.up))
    ensures Avoid(w, Below(k.sib.Kid(k.side).Kid(Left))) && Avoid(w, Below(k.sib.Kid(k.side).Kid(Right)))
  {
    SeparateNephews(k, t);
    var near := k.sib.Kid(k.side);
    assert Ids(near) == Ids(near.left) + {near.id} + Ids(near.right);
    RootAndBelow(near.left);
    RootAndBelow(near.right);
    NextAndBeyond(k.up);
  }

  /** Cases 3 and 4. */
  lemma {:induction false} TurnInnerLinked(h: Arena, h': Arena, root: nat, root': nat, k: Ctx, t: Tree)
    requires Linked(h, root, k, t) && k.In? && k.sib.Node? && k.sib.Kid(k.side).Node?
    requires var near := k.sib.Kid(k.side);
      && !RootRed(near.Kid(k.side.Other()))
      && Holds(h', k.id, MkRec(k.side, near.id, Black, Ptr(t), Ptr(near.Kid(k.side))))
      && Holds(h', near.id, MkRec(k.side, Above(k.up, 0), k.color, k.id, k.sib.id))
      && Holds(h', k.sib.id,
        MkRec(k.side, near.id, Black, Ptr(near.Kid(k.side.Other())), Ptr(k.sib.Kid(k.side.Other()))))
      && (near.Kid(k.side).Node? ==> Adopted(h, h', near.Kid(k.side), k.id, near.Kid(k.side).color))
      && Adopted(h, h', near.Kid(k.side.Other()), k.sib.id, Black)
      && Hooked(h, h', root, root', k.up, near.id)
      && Frame(h, h', {k.id, k.sib.id, near.id, Ptr(near.Kid(Left)), Ptr(near.Kid(Right)), Above(k.up, 0)})
    ensures Linked(h', root', k.up, TurnInner(k, t))
  {
    var s, o, p, y, up := k.side, k.side.Other(), k.id, k.sib.id, k.up;
    var near, far := k.sib.Kid(s), k.sib.Kid(o);
    var a, b := near.Kid(s), near.Kid(o);
    var w := {p, y, near.id, Ptr(near.Kid(Left)), Ptr(near.Kid(Right)), Above(up, 0)};
    TurnInnerAvoid(k, t, w);
    TurnInnerInorder(k, t);
    SeparateSameSeq(k, t, up, TurnInner(k, t));
    assert Rep(h, k.sib, p) && Rep(h, near, y);
    RepFrame(h, h', w, t, p);
    RepFrame(h, h', w, far, y);
    if a.Node? { RepAdopt(h, h', w, a, near.id, p, a.color); }
    RepAdopt(h, h', w, b, near.id, y, Black);
    assert b.Paint(Black) == b;
    assert Rep(h', Mk(o, Black, far, y, b), near.id);
    Rotated(h, h', w, root, root', up, o, k.color, Black, Mk(o, Black, far, y, b), near.id, a, p, t);
  }
}
