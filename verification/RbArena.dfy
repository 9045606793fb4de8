/**
 Red-black nodes in memory: an arena of records with parent, colour and child links,
 and what it means for such an arena to hold a given tree.
 */
module RbArena {
  import opened RbShape

  /** `struct rb_node`; a pointer is a nonzero node number, 0 is NULL. */
  datatype Rec = Rec(parent: nat, color: Color, left: nat, right: nat) {
    function Kid(s: Side): nat { if s == Left then left else right }
    function WithKid(s: Side, v: nat): Rec {
      if s == Left then this.(left := v) else this.(right := v)
    }
  }

  type Arena = map<nat, Rec>

  function MkRec(s: Side, p: nat, c: Color, a: nat, b: nat): Rec {
    if s == Left then Rec(p, c, a, b) else Rec(p, c, b, a)
  }

  // ----- The writes the tree code is made of

  function SetParent(h: Arena, x: nat, p: nat): Arena
    requires x in h
  {
    h[x := h[x].(parent := p)]
  }

  function SetParentColor(h: Arena, x: nat, p: nat, c: Color): Arena
    requires x in h
  {
    h[x := h[x].(parent := p, color := c)]
  }

  function SetKid(h: Arena, x: nat, s: Side, v: nat): Arena
    requires x in h
  {
    h[x := h[x].WithKid(s, v)]
  }

  // ----- What an arena holds

  /** The arena holds tree `t`, whose root has parent `par`. */
  ghost predicate Rep(h: Arena, t: Tree, par: nat) {
    t.Node? ==>
      && t.id != 0 && t.id in h
      && h[t.id] == Rec(par, t.color, Ptr(t.left), Ptr(t.right))
      && Rep(h, t.left, t.id) && Rep(h, t.right, t.id)
  }

  /** The arena holds context `k`, whose hole is the pointer `hole` and whose root has parent `par`. */
  ghost predicate RepCtx(h: Arena, k: Ctx, hole: nat, par: nat) {
    match k
    case Top => true
    case In(s, up, c, id, sib) =>
      && id != 0 && id in h
      && h[id] == MkRec(s, Above(up, par), c, hole, Ptr(sib))
      && Rep(h, sib, id) && RepCtx(h, up, id, par)
  }

  ghost function CtxRoot(k: Ctx, hole: nat): nat {
    if k.Top? then hole else CtxRoot(k.up, k.id)
  }

  /** Tree `t` in context `k`, each node once, under the root pointer `root`. */
  ghost predicate Linked(h: Arena, root: nat, k: Ctx, t: Tree) {
    && Rep(h, t, Above(k, 0))
    && RepCtx(h, k, Ptr(t), 0)
    && root == CtxRoot(k, Ptr(t))
    && Separate(k, t)
  }

  lemma {:induction false} RepPlug(h: Arena, k: Ctx, t: Tree, par: nat)
    ensures Rep(h, Plug(k, t), par) <==> RepCtx(h, k, Ptr(t), par) && Rep(h, t, Above(k, par))
    ensures Ptr(Plug(k, t)) == CtxRoot(k, Ptr(t))
  {
    match k
    case Top =>
    case In(s, up, c, id, sib) => RepPlug(h, up, Mk(s, c, t, id, sib), par);
  }

  /** Any way of splitting a tree into context and focus is as linked as the whole. */
  lemma {:induction false} LinkedPlug(h: Arena, root: nat, k: Ctx, t: Tree)
    ensures Linked(h, root, k, t) <==> Linked(h, root, Top, Plug(k, t))
  {
    RepPlug(h, k, t, 0);
    PlugDistinct(k, t);
  }

  // ----- Framing

  /** Outside `w`, the records of `h` are still there. */
  ghost predicate Frame(h: Arena, h': Arena, w: set<nat>) {
    forall x :: x in h && x !in w ==> x in h' && h'[x] == h[x]
  }

  /** No node in `w` occurs in `m`; 0 is no node. */
  ghost predicate Avoid(w: set<nat>, m: set<nat>) {
    forall x :: x in w && x != 0 ==> x !in m
  }

  lemma {:induction false} RepFrame(h: Arena, h': Arena, w: set<nat>, t: Tree, par: nat)
    requires Rep(h, t, par) && Frame(h, h', w) && Avoid(w, Ids(t))
    ensures Rep(h', t, par)
  {
    if t.Node? {
      RepFrame(h, h', w, t.left, t.id);
      RepFrame(h, h', w, t.right, t.id);
    }
  }

  lemma {:induction false} CtxFrame(h: Arena, h': Arena, w: set<nat>, k: Ctx, hole: nat, par: nat)
    requires RepCtx(h, k, hole, par) && Frame(h, h', w) && Avoid(w, CtxIds(k))
    ensures RepCtx(h', k, hole, par)
  {
    match k
    case Top =>
    case In(s, up, c, id, sib) =>
      RepFrame(h, h', w, sib, id);
      CtxFrame(h, h', w, up, id, par);
  }

  /** Nodes of `t` other than its root. */
  ghost function Below(t: Tree): set<nat> {
    if t.Nil? then {} else Ids(t.left) + Ids(t.right)
  }

  /** Nodes of `k` other than the one next to the hole. */
  ghost function Beyond(k: Ctx): set<nat> {
    if k.Top? then {} else CtxIds(k.up) + Ids(k.sib)
  }

  /** The root record of `t` gets a new parent and colour, and nothing else in `t` changes. */
  lemma {:induction false} RepAdopt(h: Arena, h': Arena, w: set<nat>, t: Tree, par: nat, par': nat, c: Color)
    requires Rep(h, t, par) && Frame(h, h', w) && Avoid(w, Below(t))
    requires t.Node? ==> t.id in h' && h'[t.id] == h[t.id].(parent := par', color := c)
    ensures Rep(h', t.Paint(c), par')
  {
    if t.Node? {
      RepFrame(h, h', w, t.left, t.id);
      RepFrame(h, h', w, t.right, t.id);
    }
  }

  /** The pointer in the hole is replaced, and nothing else in `k` changes. */
  lemma {:induction false} CtxRehang(h: Arena, h': Arena, w: set<nat>, k: Ctx, hole: nat, hole': nat, par: nat)
    requires RepCtx(h, k, hole, par) && Frame(h, h', w) && Avoid(w, Beyond(k))
    requires k.In? ==> k.id in h' && h'[k.id] == h[k.id].WithKid(k.side, hole')
    ensures RepCtx(h', k, hole', par)
  {
    if k.In? {
      RepFrame(h, h', w, k.sib, k.id);
      CtxFrame(h, h', w, k.up, k.id, par);
    }
  }

  /** A finished rotation: `x` has taken the place of `y` under `up`, and `y` hangs below it. */
  lemma {:induction false} Rotated(
      h: Arena, h': Arena, w: set<nat>, root: nat, root': nat, up: Ctx, s: Side, c: Color, d: Color,
      a: Tree, x: nat, b: Tree, y: nat, z: Tree)
    requires RepCtx(h, up, y, 0) && root == CtxRoot(up, y) && root' == (if up.Top? then x else root)
    requires Frame(h, h', w) && Avoid(w, Beyond(up))
    requires up.In? ==> up.id in h' && h'[up.id] == h[up.id].WithKid(up.side, x)
    requires x != 0 && x in h' && h'[x] == MkRec(s, Above(up, 0), c, Ptr(a), y)
    requires y != 0 && y in h' && h'[y] == MkRec(s, x, d, Ptr(b), Ptr(z))
    requires Rep(h', a, x) && Rep(h', b, y) && Rep(h', z, y)
    requires Separate(up, Mk(s, c, a, x, Mk(s, d, b, y, z)))
    ensures Linked(h', root', up, Mk(s, c, a, x, Mk(s, d, b, y, z)))
  {
    CtxRehang(h, h', w, up, y, x, 0);
    assert Rep(h', Mk(s, d, b, y, z), x);
  }
}
