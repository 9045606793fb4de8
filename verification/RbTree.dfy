/**
 The tree operations of lib/rbtree.c, lib/rbtree.h, lib/rbtree_augmented.h and
 lib/rbtree_ka.h on one root, as the sequence of record writes they perform.

 The source writes every rebalancing step twice, once for each mirror image; here the
 two halves are one body over a `Side`.
 */
module RbTree {
  import opened RbShape
  import opened RbArena
  import opened RbSteps
  import opened RbLinks
  import opened SortedSeq
  import opened RbErase
  import opened RbWalk

  /** `struct rb_root_cached`; plain roots leave `leftmost` alone. */
  class RbRoot {
    var nodes: map<nat, Rec>
    var root: nat
    var leftmost: nat
    ghost var tree: Tree

    /** `RB_ROOT_CACHED` */
    constructor ()
      ensures CachedValid() && Seq() == []
    {
      nodes, root, leftmost, tree := map[], 0, 0, Nil;
    }

    /** `RB_ROOT` assigned over a root: its nodes are forgotten. */
    method Reset()
      modifies this
      ensures CachedValid() && Seq() == []
    {
      root, leftmost, tree := 0, 0, Nil;
    }

    ghost predicate Valid()
      reads this
    {
      IsRedBlack(tree) && Linked(nodes, root, Top, tree)
    }

    /** The sorted sequence the tree stands for. */
    ghost function Seq(): seq<nat>
      reads this
    {
      Inorder(tree)
    }

    /** `__rb_change_child` */
    method ChangeChild(old_: nat, new_: nat, parent: nat)
      requires parent != 0 ==> parent in nodes
      modifies this`nodes, this`root
      ensures parent == 0 ==> root == new_ && nodes == old(nodes)
      ensures parent != 0 ==>
        root == old(root) &&
        nodes == SetKid(old(nodes), parent, if old(nodes)[parent].left == old_ then Left else Right, new_)
    {
      if parent != 0 {
        nodes := SetKid(nodes, parent, if nodes[parent].left == old_ then Left else Right, new_);
      } else {
        root := new_;
      }
    }

    /** `__rb_rotate_set_parents`: `new_` takes the place of `old_`, which moves below it. */
    method RotateSetParents(old_: nat, new_: nat, color: Color)
      requires old_ in nodes && new_ in nodes && nodes[old_].parent !in {old_, new_}
      requires nodes[old_].parent != 0 ==> nodes[old_].parent in nodes
      requires old_ != new_
      modifies this`nodes, this`root
      ensures var h := old(nodes);
              var parent := h[old_].parent;
              && Holds(nodes, new_, h[new_].(parent := parent, color := h[old_].color))
              && Holds(nodes, old_, h[old_].(parent := new_, color := color))
              && Rehooked(h, nodes, parent, old_, new_)
              && Frame(h, nodes, {old_, new_, parent})
              && root == if parent == 0 then new_ else old(root)
    {
      var parent := nodes[old_].parent;
      nodes := SetParentColor(nodes, new_, parent, nodes[old_].color);
      nodes := SetParentColor(nodes, old_, new_, color);
      ChangeChild(old_, new_, parent);
    }

    /** `tmp` moves under `old_`, and `old_` under `new_`; `paint` turns `tmp` black. */
    method Relink(old_: nat, new_: nat, s: Side, tmp: nat, paint: bool)
      requires RotateArgs(nodes, old_, new_, tmp)
      modifies this`nodes
      ensures Relinked(old(nodes), nodes, old_, new_, s, tmp, paint)
    {
      nodes := SetKid(nodes, old_, s, tmp);
      nodes := SetKid(nodes, new_, s.Other(), old_);
      if tmp != 0 {
        if paint {
          nodes := SetParentColor(nodes, tmp, old_, Black);
        } else {
          nodes := SetParent(nodes, tmp, old_);
        }
      }
    }

    /**
     The writes shared by all rotations: `new_`, the child of `old_` on side `s`, moves up, and
     its inner child `tmp` moves under `old_`.
     */
    method Rotate(old_: nat, new_: nat, s: Side, tmp: nat, color: Color, paint: bool)
      requires RotateArgs(nodes, old_, new_, tmp)
      modifies this`nodes, this`root
      ensures RotateWrote(old(nodes), nodes, old_, new_, s, tmp, color, paint)
      ensures root == if old(nodes)[old_].parent == 0 then new_ else old(root)
    {
      Relink(old_, new_, s, tmp, paint);
      RotateSetParents(old_, new_, color);
    }

    // ----- Insertion

    /** Case 2 of `__rb_insert`: rotate at the parent. */
    method RotateAtParent(node: nat, parent: nat, s: Side)
      requires node in nodes && parent in nodes && node != parent
      requires var tmp := nodes[node].Kid(s); tmp !in {node, parent} && (tmp != 0 ==> tmp in nodes)
      modifies this`nodes
      ensures var h, o := old(nodes), s.Other();
              var tmp := h[node].Kid(s);
              && Holds(nodes, parent, h[parent].WithKid(o, tmp).(parent := node, color := Red))
              && Holds(nodes, node, h[node].WithKid(s, parent))
              && (tmp != 0 ==> Holds(nodes, tmp, h[tmp].(parent := parent, color := Black)))
              && Frame(h, nodes, {node, parent, tmp})
    {
      var tmp := nodes[node].Kid(s);
      nodes := SetKid(nodes, parent, s.Other(), tmp);
      nodes := SetKid(nodes, node, s, parent);
      if tmp != 0 {
        nodes := SetParentColor(nodes, tmp, parent, Black);
      }
      nodes := SetParentColor(nodes, parent, node, Red);
    }

    /** Case 3 of `__rb_insert` alone: the node is an outer grandchild. */
    method InsertOuter(parent: nat, gparent: nat, s: Side, ghost k: Ctx, ghost t: Tree)
      requires Linked(nodes, root, k, t) && t.Node?
      requires k.In? && !RootRed(k.sib) && k.up.In? && k.up.color == Black
      requires parent == k.id && gparent == k.up.id && k.side == k.up.side == s
      modifies this`nodes, this`root
      ensures Linked(nodes, root, k.up.up, Turn(k, t))
    {
      ghost var h, r := nodes, root;
      FamilyRecords(h, root, k, t);
      FamilyApart(h, root, k, t);
      Rotate(gparent, parent, s, nodes[parent].Kid(s.Other()), Red, true);
      OuterTurnLinked(h, nodes, r, root, k, t);
    }

    method TurnTwice(node: nat, parent: nat, gparent: nat, s: Side)
      requires TwistArgs(nodes, gparent, parent, node, s.Other())
      modifies this`nodes, this`root
      ensures TurnedTwice(old(nodes), nodes, gparent, parent, node, s)
      ensures root == if old(nodes)[gparent].parent == 0 then node else old(root)
    {
      RotateAtParent(node, parent, s);
      Rotate(gparent, node, s, nodes[node].Kid(s.Other()), Red, true);
    }

    /** Cases 2 and 3 of `__rb_insert`: the node is an inner grandchild. */
    method InsertInner(node: nat, parent: nat, gparent: nat, s: Side, ghost k: Ctx, ghost t: Tree)
      requires Linked(nodes, root, k, t) && t.Node? && !RootRed(t.left) && !RootRed(t.right)
      requires k.In? && k.up.In? && k.up.color == Black
      requires node == t.id && parent == k.id && gparent == k.up.id && k.side.Other() == k.up.side == s
      modifies this`nodes, this`root
      ensures Linked(nodes, root, k.up.up, Turn(k, t))
    {
      ghost var h, r := nodes, root;
      FamilyRecords(h, root, k, t);
      FamilyApart(h, root, k, t);
      TurnTwice(node, parent, gparent, s);
      InnerTurnLinked(h, nodes, r, root, k, t);
    }

    /** Case 1 of `__rb_insert`: colour flips; the grandparent becomes the new focus. */
    method InsertFlip(parent: nat, gparent: nat, uncle: nat, ghost k: Ctx, ghost t: Tree)
      requires Linked(nodes, root, k, t) && t.Node?
      requires k.In? && k.up.In? && k.up.sib.Node?
      requires parent == k.id && gparent == k.up.id && uncle == k.up.sib.id
      modifies this`nodes
      ensures Linked(nodes, root, k.up.up, Flip(k, t))
    {
      ghost var h := nodes;
      FamilyRecords(h, root, k, t);
      FamilyApart(h, root, k, t);
      nodes := SetParentColor(nodes, uncle, gparent, Black);
      nodes := SetParentColor(nodes, parent, gparent, Black);
      nodes := SetParentColor(nodes, gparent, nodes[gparent].parent, Red);
      FlipLinked(h, nodes, root, k, t);
    }

    /** `__rb_insert`: the new red leaf sits in the hole of `k0`. */
    method InsertColor(node0: nat, ghost k0: Ctx)
      requires var leaf := Node(Red, Nil, node0, Nil); Linked(nodes, root, k0, leaf) && InsertGap(k0, leaf)
      modifies this`nodes, this`root, this`tree
      ensures Valid() && Seq() == Before(k0) + [node0] + After(k0)
    {
      ghost var k, t := k0, Node(Red, Nil, node0, Nil);
      PlugInorder(k, t);
      var node := node0;
      var parent := nodes[node].parent;
      while true
        invariant Linked(nodes, root, k, t) && InsertGap(k, t)
        invariant node == t.id && parent == Above(k, 0)
        invariant Inorder(Plug(k, t)) == Before(k0) + [node0] + After(k0)
        decreases k
      {
        if parent == 0 {
          ghost var h := nodes;
          nodes := SetParentColor(nodes, node, 0, Black);
          RootBlackened(h, nodes, root, k, t);
          k, t := Top, t.Paint(Black);
          break;
        }
        if nodes[parent].color == Black {
          break;
        }
        InsertView(nodes, root, k, t);
        var gparent := nodes[parent].parent;
        var s := if parent != nodes[gparent].right then Left else Right;
        var tmp := nodes[gparent].Kid(s.Other());
        if tmp != 0 && nodes[tmp].color == Red {
          FlipKeeps(k, t);
          FlipInorder(k, t);
          InsertFlip(parent, gparent, tmp, k, t);
          k, t := k.up.up, Flip(k, t);
          node := gparent;
          parent := nodes[node].parent;
        } else {
          TurnFits(k, t);
          TurnInorder(k, t);
          if node == nodes[parent].Kid(s.Other()) {
            InsertInner(node, parent, gparent, s, k, t);
          } else {
            InsertOuter(parent, gparent, s, k, t);
          }
          k, t := k.up.up, Turn(k, t);
          break;
        }
      }
      tree := Plug(k, t);
      PlugRedBlack(k, t);
      LinkedPlug(nodes, root, k, t);
    }

    /** The search loop of `rb_add` and `rb_add_cached`: where `node` will be hung. */
    method FindSlot(node: nat, less: Less) returns (parent: nat, side: Side, first: bool, ghost k: Ctx)
      requires Valid()
      ensures Linked(nodes, root, k, Nil) && Plug(k, Nil) == tree && Fits(k, Nil)
      ensures parent == Above(k, 0) && (k.In? ==> side == k.side)
      ensures first <==> Before(k) == []
      ensures StrictWeak(less) && SortedBy(less, Seq()) ==> Slot(less, k, node)
    {
      ghost var t := tree;
      k := Top;
      var link := root;
      parent, side, first := 0, Left, true;
      while link != 0
        invariant Linked(nodes, root, k, t) && Plug(k, t) == tree
        invariant link == Ptr(t) && parent == Above(k, 0) && (k.In? ==> side == k.side)
        invariant first <==> Before(k) == []
        invariant StrictWeak(less) && SortedBy(less, Seq()) ==> Slot(less, k, node)
        decreases t
      {
        parent := link;
        ghost var k0, t0 := k, t;
        if less(node, parent) {
          side := Left;
          k, t := In(Left, k, t.color, t.id, t.right), t.left;
        } else {
          side := Right;
          first := false;
          k, t := In(Right, k, t.color, t.id, t.left), t.right;
        }
        link := nodes[parent].Kid(side);
        SlotStep(less, k0, t0, node);
        LinkedPlug(nodes, root, k, t);
        LinkedPlug(nodes, root, k0, t0);
      }
      PlugRedBlack(k, t);
    }

    /** `rb_link_node` */
    method LinkNode(node: nat, parent: nat, side: Side, ghost k: Ctx)
      requires Linked(nodes, root, k, Nil) && node != 0 && node !in CtxIds(k)
      requires parent == Above(k, 0) && (k.In? ==> side == k.side)
      modifies this`nodes, this`root
      ensures Linked(nodes, root, k, Node(Red, Nil, node, Nil))
    {
      ghost var h := nodes;
      nodes := nodes[node := Rec(parent, Red, 0, 0)];
      CtxFrame(h, nodes, {node}, k, 0, 0);
      if parent == 0 {
        root := node;
      } else {
        ghost var g := nodes;
        nodes := SetKid(nodes, parent, side, node);
        NextAndBeyond(k);
        CtxRehang(g, nodes, {parent}, k, 0, node, 0);
      }
    }

    /** `rb_add` */
    method Add(node: nat, less: Less)
      requires Valid() && node != 0 && node !in Seq()
      modifies this`nodes, this`root, this`tree
      ensures Valid()
      ensures exists i :: 0 <= i <= |old(Seq())| && Seq() == old(Seq())[..i] + [node] + old(Seq())[i..]
      ensures StrictWeak(less) && SortedBy(less, old(Seq())) ==> Seq() == Insert(less, old(Seq()), node)
    {
      var parent, side, first, k := FindSlot(node, less);
      SlotSeq(tree, k, less, node);
      LinkNode(node, parent, side, k);
      LeafGap(k, node);
      InsertColor(node, k);
    }

    // ----- Erasure

    /** Case 1 of `____rb_erase_color`: the red sibling is rotated above the parent. */
    method EraseLower(parent: nat, sibling: nat, s: Side, ghost k: Ctx, ghost t: Tree)
      requires Linked(nodes, root, k, t) && k.In? && k.sib.Node?
      requires k.sib.Kid(k.side).Node? && !RootRed(k.sib.Kid(k.side))
      requires parent == k.id && sibling == k.sib.id && s == k.side
      modifies this`nodes, this`root
      ensures Linked(nodes, root, Lower(k), t)
    {
      ghost var h, r := nodes, root;
      NephewRecords(h, root, k, t);
      NephewApart(h, root, k, t);
      Rotate(parent, sibling, s.Other(), nodes[sibling].Kid(s), Red, true);
      LowerLinked(h, nodes, r, root, k, t);
    }

    /** Case 4 of `____rb_erase_color` alone. */
    method EraseOuter(parent: nat, sibling: nat, far: nat, s: Side, ghost k: Ctx, ghost t: Tree)
      requires Linked(nodes, root, k, t) && k.In? && k.sib.Node? && k.sib.Kid(k.side.Other()).Node?
      requires parent == k.id && sibling == k.sib.id && s == k.side && far == k.sib.Kid(s.Other()).id
      modifies this`nodes, this`root
      ensures Linked(nodes, root, k.up, TurnOuter(k, t))
    {
      ghost var h, r := nodes, root;
      NephewRecords(h, root, k, t);
      NephewApart(h, root, k, t);
      nodes := SetParentColor(nodes, far, sibling, Black);
      Rotate(parent, sibling, s.Other(), nodes[sibling].Kid(s), Black, false);
      TurnOuterLinked(h, nodes, r, root, k, t);
    }

    /** Case 3 of `____rb_erase_color`: rotate at the sibling. */
    method RotateAtSibling(parent: nat, sibling: nat, near: nat, s: Side)
      requires parent in nodes && sibling in nodes && near in nodes
      requires parent != sibling && near !in {parent, sibling}
      requires var tmp := nodes[near].Kid(s.Other()); tmp !in {parent, sibling, near} && (tmp != 0 ==> tmp in nodes)
      modifies this`nodes
      ensures var h, o := old(nodes), s.Other();
              var tmp := h[near].Kid(o);
              && Holds(nodes, sibling, h[sibling].WithKid(s, tmp))
              && Holds(nodes, near, h[near].WithKid(o, sibling))
              && Holds(nodes, parent, h[parent].WithKid(o, near))
              && (tmp != 0 ==> Holds(nodes, tmp, h[tmp].(parent := sibling, color := Black)))
              && Frame(h, nodes, {parent, sibling, near, tmp})
    {
      var tmp := nodes[near].Kid(s.Other());
      nodes := SetKid(nodes, sibling, s, tmp);
      nodes := SetKid(nodes, near, s.Other(), sibling);
      nodes := SetKid(nodes, parent, s.Other(), near);
      if tmp != 0 {
        nodes := SetParentColor(nodes, tmp, sibling, Black);
      }
    }

    /** The writes of cases 3 and 4 of `____rb_erase_color` together. */
    method Twist(parent: nat, sibling: nat, near: nat, s: Side)
      requires TwistArgs(nodes, parent, sibling, near, s)
      modifies this`nodes, this`root
      ensures TwistWrote(old(nodes), nodes, parent, sibling, near, s)
      ensures root == if old(nodes)[parent].parent == 0 then near else old(root)
    {
      RotateAtSibling(parent, sibling, near, s);
      nodes := SetParentColor(nodes, sibling, near, Black);
      Rotate(parent, near, s.Other(), nodes[near].Kid(s), Black, false);
    }

    /** Cases 3 and 4 of `____rb_erase_color`. */
    method EraseInner(parent: nat, sibling: nat, near: nat, s: Side, ghost k: Ctx, ghost t: Tree)
      requires Linked(nodes, root, k, t) && k.In? && k.sib.Node? && k.sib.Kid(k.side).Node?
      requires parent == k.id && sibling == k.sib.id && s == k.side && near == k.sib.Kid(s).id
      requires k.sib.color == Black && !RootRed(k.sib.Kid(s).Kid(s.Other()))
      modifies this`nodes, this`root
      ensures Linked(nodes, root, k.up, TurnInner(k, t))
    {
      ghost var h, r := nodes, root;
      NephewRecords(h, root, k, t);
      NephewApart(h, root, k, t);
      NearApart(h, root, k, t);
      Twist(parent, sibling, near, s);
      TurnInnerLinked(h, nodes, r, root, k, t);
    }

    /**
     Cases 2 to 4 of `____rb_erase_color`, the sibling being black. `again` says that the
     deficit has moved up to the parent.
     */
    method EraseSettle(parent: nat, sibling: nat, s: Side, ghost k: Ctx, ghost t: Tree)
      returns (again: bool, ghost k': Ctx, ghost t': Tree)
      requires Linked(nodes, root, k, t) && EraseGap(k, t) && k.In? && !RootRed(k.sib)
      requires parent == k.id && sibling == Ptr(k.sib) && s == k.side
      modifies this`nodes, this`root
      ensures Linked(nodes, root, k', t') && Inorder(Plug(k', t')) == Inorder(Plug(k, t))
      ensures again ==> k.color == Black && k' == k.up && Ptr(t') == parent && EraseGap(k', t')
      ensures !again || k'.Top? ==> Fits(k', t')
    {
      GapSibling(k, t);
      NephewRecords(nodes, root, k, t);
      var tmp1 := nodes[sibling].Kid(s.Other());
      k' := k.up;
      if tmp1 == 0 || nodes[tmp1].color == Black {
        var tmp2 := nodes[sibling].Kid(s);
        if tmp2 == 0 || nodes[tmp2].color == Black {
          // Case 2 - sibling color flip
          ghost var h := nodes;
          nodes := SetParentColor(nodes, sibling, parent, Red);
          again := nodes[parent].color == Black;
          if !again {
            nodes := nodes[parent := nodes[parent].(color := Black)];
          }
          t' := Redden(k, t, Black);
          NephewApart(h, root, k, t);
          ReddenLinked(h, nodes, root, k, t, Black);
          ReddenKeeps(k, t);
          ReddenInorder(k, t, Black);
        } else {
          TurnInnerFits(k, t);
          TurnInnerInorder(k, t);
          EraseInner(parent, sibling, tmp2, s, k, t);
          again, t' := false, TurnInner(k, t);
        }
      } else {
        TurnOuterFits(k, t);
        TurnOuterInorder(k, t);
        EraseOuter(parent, sibling, tmp1, s, k, t);
        again, t' := false, TurnOuter(k, t);
      }
    }

    /** `____rb_erase_color`: the paths through the empty hole of `k0` are one black node short. */
    method EraseColor(parent0: nat, ghost k0: Ctx)
      requires Linked(nodes, root, k0, Nil) && EraseGap(k0, Nil) && k0.In? && parent0 == k0.id
      modifies this`nodes, this`root, this`tree
      ensures Valid() && Seq() == Inorder(Plug(k0, Nil))
    {
      ghost var k, t := k0, Nil;
      var node, parent := 0, parent0;
      while true
        invariant Linked(nodes, root, k, t) && EraseGap(k, t) && k.In?
        invariant node == Ptr(t) && parent == k.id
        invariant Inorder(Plug(k, t)) == Inorder(Plug(k0, Nil))
        decreases k
      {
        GapSibling(k, t);
        NephewRecords(nodes, root, k, t);
        NephewApart(nodes, root, k, t);
        var s := if node != nodes[parent].right then Left else Right;
        var sibling := nodes[parent].Kid(s.Other());
        ghost var k1 := k;
        if nodes[sibling].color == Red {
          LowerKeeps(k, t);
          LowerInorder(k, t);
          var tmp1 := nodes[sibling].Kid(s);
          EraseLower(parent, sibling, s, k, t);
          k1 := Lower(k);
          sibling := tmp1;
        }
        var again, k', t' := EraseSettle(parent, sibling, s, k1, t);
        k, t := k', t';
        if !again {
          break;
        }
        node := parent;
        parent := nodes[node].parent;
        if parent == 0 {
          break;
        }
      }
      tree := Plug(k, t);
      PlugRedBlack(k, t);
      LinkedPlug(nodes, root, k, t);
    }

    /** Case 1 of `__rb_erase_augmented`: no child on side `s`. */
    method UnlinkOneChild(node: nat, s: Side, ghost k: Ctx, ghost n: Tree) returns (rebalance: nat)
      requires Linked(nodes, root, k, n) && Fits(k, n) && n.Node? && node == n.id && n.Kid(s).Nil?
      modifies this`nodes, this`root
      ensures Linked(nodes, root, k, n.Kid(s.Other()).Paint(n.color))
      ensures rebalance == 0 ==> Fits(k, n.Kid(s.Other()).Paint(n.color))
      ensures rebalance != 0 ==> k.In? && rebalance == k.id && n.Kid(s.Other()).Nil? && EraseGap(k, Nil)
    {
      ghost var h, r := nodes, root;
      OneChildShape(k, n, s);
      OneChildPointers(h, root, k, n, s);
      var child := nodes[node].Kid(s.Other());
      var pc := nodes[node];
      ChangeChild(node, child, pc.parent);
      if child != 0 {
        nodes := SetParentColor(nodes, child, pc.parent, pc.color);
        rebalance := 0;
      } else {
        rebalance := if pc.color == Black then pc.parent else 0;
      }
      OneChildLinked(h, nodes, r, root, k, n, s);
    }

    /** The search for the successor in `__rb_erase_augmented`, and the unhooking of case 3. */
    method DetachSuccessor(node: nat, ghost k: Ctx, ghost n: Tree)
      returns (parent: nat, successor: nat, child2: nat, ghost rel: Ctx, ghost st: Tree)
      requires Linked(nodes, root, k, n) && n.Node? && node == n.id && n.left.Node? && n.right.Node?
      modifies this`nodes
      ensures Succession(k, n, rel, st) && OnPath(old(nodes), k, n, rel, st)
      ensures successor == st.id && parent == Above(rel, st.id) && child2 == Ptr(st.right)
      ensures rel.In? ==> rel.id in old(nodes) && CtxRoot(rel, st.id) in old(nodes)
      ensures st.id in Moved(old(nodes), rel, st)
      ensures nodes == SetKid(Moved(old(nodes), rel, st), st.id, Right, CtxRoot(rel, Ptr(st.right)))
    {
      ghost var h := nodes;
      rel, st := Top, n.right;
      var child := nodes[node].right;
      assert Rep(h, n.right, n.id);
      successor := child;
      parent := successor;
      var tmp := nodes[child].left;
      while tmp != 0
        invariant nodes == h && OnPath(h, k, n, rel, st)
        invariant successor == st.id && tmp == Ptr(st.left) && parent == Above(rel, st.id)
        decreases st
      {
        assert Rep(h, st.left, st.id);
        parent := successor;
        successor := tmp;
        tmp := nodes[tmp].left;
        rel, st := In(Left, rel, st.color, st.id, st.right), st.left;
      }
      assert Rep(h, st.left, st.id);
      SuccessorRecords(h, root, k, n, rel, st);
      SuccessorDiffer(h, root, k, n, rel, st);
      child2 := nodes[successor].right;
      if successor != child {
        nodes := SetKid(nodes, parent, Left, child2);
        nodes := SetKid(nodes, successor, Right, child);
        nodes := SetParent(nodes, child, successor);
      }
    }

    /** The writes of `__rb_erase_augmented` that put the detached successor in the place of `node`. */
    method InstallSuccessor(node: nat, successor: nat, parent: nat, child2: nat) returns (rebalance: nat)
      requires node in nodes && successor in nodes && nodes[node].left in nodes
      requires var tmp, up := nodes[node].left, nodes[node].parent;
        && node !in {successor, tmp, child2, up} && successor !in {tmp, child2, up} && tmp !in {child2, up}
        && (child2 != 0 ==> child2 in nodes && child2 != up) && (up != 0 ==> up in nodes)
      modifies this`nodes, this`root
      ensures var h := old(nodes);
        var tmp, up := h[node].left, h[node].parent;
        && Holds(nodes, successor, h[successor].(left := tmp, parent := up, color := h[node].color))
        && Holds(nodes, tmp, h[tmp].(parent := successor))
        && (child2 != 0 ==> Holds(nodes, child2, h[child2].(parent := parent, color := Black)))
        && Rehooked(h, nodes, up, node, successor)
        && Frame(h, nodes, {successor, tmp, child2, up})
        && root == (if up == 0 then successor else old(root))
        && rebalance == (if child2 == 0 && h[successor].color == Black then parent else 0)
    {
      var tmp := nodes[node].left;
      nodes := SetKid(nodes, successor, Left, tmp);
      nodes := SetParent(nodes, tmp, successor);
      var pc := nodes[node];
      ChangeChild(node, successor, pc.parent);
      if child2 != 0 {
        nodes := SetParentColor(nodes, child2, parent, Black);
        rebalance := 0;
      } else {
        rebalance := if nodes[successor].color == Black then parent else 0;
      }
      nodes := SetParentColor(nodes, successor, pc.parent, pc.color);
    }

    /** Cases 2 and 3 of `__rb_erase_augmented`: the successor takes the place of `node`. */
    method UnlinkTwoChildren(node: nat, ghost k: Ctx, ghost n: Tree)
      returns (rebalance: nat, ghost k': Ctx, ghost t': Tree)
      requires Linked(nodes, root, k, n) && Fits(k, n) && n.Node? && node == n.id && n.left.Node? && n.right.Node?
      modifies this`nodes, this`root
      ensures Linked(nodes, root, k', t') && Inorder(Plug(k', t')) == Remove(Inorder(Plug(k, n)), node)
      ensures rebalance == 0 ==> Fits(k', t')
      ensures rebalance != 0 ==> k'.In? && rebalance == k'.id && t'.Nil? && EraseGap(k', t')
    {
      ghost var h, r := nodes, root;
      OneChildPointers(h, root, k, n, Left);
      var parent, successor, child2, rel, st := DetachSuccessor(node, k, n);
      SuccessorRecords(h, root, k, n, rel, st);
      SuccessorDiffer(h, root, k, n, rel, st);
      rebalance := InstallSuccessor(node, successor, parent, child2);
      k', t' := Compose(rel, Base(k, n, st.id)), st.right.Paint(Black);
      SuccessorLinked(h, nodes, r, root, k, n, rel, st);
      SuccessorShape(k, n, rel, st);
      SuccessorSeq(k, n, rel, st);
    }

    /** `rb_erase` */
    method Erase(node: nat)
      requires Valid() && node in Seq()
      modifies this`nodes, this`root, this`tree
      ensures Valid() && Seq() == Remove(old(Seq()), node)
    {
      ghost var k, n := Focus(node);
      PlugRedBlack(k, n);
      OneChildPointers(nodes, root, k, n, Left);
      var rebalance;
      ghost var k', t';
      if nodes[node].left == 0 {
        OneChildSeq(k, n, Left);
        k', t' := k, n.right.Paint(n.color);
        rebalance := UnlinkOneChild(node, Left, k, n);
      } else if nodes[node].right == 0 {
        OneChildSeq(k, n, Right);
        k', t' := k, n.left.Paint(n.color);
        rebalance := UnlinkOneChild(node, Right, k, n);
      } else {
        rebalance, k', t' := UnlinkTwoChildren(node, k, n);
      }
      if rebalance != 0 {
        EraseColor(rebalance, k');
      } else {
        tree := Plug(k', t');
        PlugRedBlack(k', t');
        LinkedPlug(nodes, root, k', t');
      }
    }

    // ----- Walks

    /** Brings a node of the tree into focus. */
    lemma Focus(node: nat) returns (k: Ctx, n: Tree)
      requires Valid() && node in Seq()
      ensures Linked(nodes, root, k, n) && Plug(k, n) == tree && n.Node? && n.id == node
    {
      InorderIds(tree);
      k, n := Locate(tree, node, Top);
      LinkedPlug(nodes, root, k, n);
    }

    /** The downward loops of `rb_first`, `rb_last`, `rb_next` and `rb_prev`. */
    method GoDown(start: nat, s: Side, ghost t0: Tree, ghost par: nat) returns (n: nat)
      requires Rep(nodes, t0, par) && t0.Node? && start == t0.id
      ensures n == Edge(t0, s)
    {
      ghost var t := t0;
      n := start;
      ghost var p := par;
      while nodes[n].Kid(s) != 0
        invariant Rep(nodes, t, p) && t.Node? && n == t.id && Edge(t, s) == Edge(t0, s)
        decreases t
      {
        assert Rep(nodes, t.Kid(s), t.id);
        n := nodes[n].Kid(s);
        p, t := t.id, t.Kid(s);
      }
      assert Rep(nodes, t.Kid(s), t.id);
    }

    /** The upward loops of `rb_next` and `rb_prev`. */
    method GoUp(start: nat, s: Side, ghost k0: Ctx, ghost n0: Tree) returns (parent: nat)
      requires Linked(nodes, root, k0, n0) && n0.Node? && start == n0.id
      ensures parent == Ancestor(k0, s)
    {
      ghost var k, n := k0, n0;
      var node := start;
      OneChildPointers(nodes, root, k, n, Left);
      parent := nodes[node].parent;
      while parent != 0 && node == nodes[parent].Kid(s)
        invariant Linked(nodes, root, k, n) && n.Node? && node == n.id && parent == Above(k, 0)
        invariant k.In? ==>
          && k.id != 0 && Ptr(k.sib) != n.id
          && Holds(nodes, k.id, MkRec(k.side, Above(k.up, 0), k.color, n.id, Ptr(k.sib)))
        invariant Ancestor(k, s) == Ancestor(k0, s)
        decreases k
      {
        node := parent;
        ghost var up, m := k.up, Mk(k.side, k.color, n, k.id, k.sib);
        assert Plug(up, m) == Plug(k, n);
        LinkedPlug(nodes, root, k, n);
        LinkedPlug(nodes, root, up, m);
        k, n := up, m;
        OneChildPointers(nodes, root, k, n, Left);
        parent := nodes[node].parent;
      }
    }

    /** `rb_next` for `s == Right`, `rb_prev` for `s == Left`; a node cleared with RB_CLEAR_NODE has no neighbour. */
    method Neighbour(node: nat, s: Side) returns (r: nat)
      requires Valid() && node in nodes
      requires node in Seq() || (nodes[node].parent == node && nodes[node].color == Red)
      ensures node !in Seq() ==> r == 0
      ensures node in Seq() && s == Right ==> r == NextIn(Seq(), node)
      ensures node in Seq() && s == Left ==> r == PrevIn(Seq(), node)
    {
      if nodes[node].parent == node && nodes[node].color == Red {
        if node in Seq() {
          ghost var k, n := Focus(node);
          OneChildPointers(nodes, root, k, n, s);
          assert false;
        }
        return 0;
      }
      ghost var k, n := Focus(node);
      OneChildPointers(nodes, root, k, n, s);
      Neighbours(k, n);
      if nodes[node].Kid(s) != 0 {
        assert Rep(nodes, n.Kid(s), n.id);
        r := GoDown(nodes[node].Kid(s), s.Other(), n.Kid(s), n.id);
      } else {
        r := GoUp(node, s, k, n);
      }
    }

    /** `rb_first` for `s == Left`, `rb_last` for `s == Right`. */
    method Extreme(s: Side) returns (r: nat)
      requires Valid()
      ensures r == if s == Left then First(Seq()) else Last(Seq())
    {
      EdgeSeq(tree);
      r := 0;
      if root != 0 {
        r := GoDown(root, s, tree, 0);
      }
    }

    /** `rb_find`: `cmp` compares the key with that of a node. */
    method Find(cmp: nat -> int) returns (r: nat)
      requires Valid() && Descending(cmp, Seq())
      ensures r == 0 ==> forall x :: x in Seq() ==> cmp(x) != 0
      ensures r != 0 ==> r in Seq() && cmp(r) == 0
    {
      ghost var k, t := Top, tree;
      r := root;
      while r != 0
        invariant Linked(nodes, root, k, t) && Plug(k, t) == tree && r == Ptr(t) && Excluded(cmp, k)
        decreases t
      {
        ghost var k0, t0 := k, t;
        FindStep(cmp, k, t);
        var c := cmp(r);
        if c == 0 {
          return;
        }
        var side := if c < 0 then Left else Right;
        k, t := In(side, k, t.color, t.id, t.Kid(side.Other())), t.Kid(side);
        r := nodes[r].Kid(side);
        LinkedPlug(nodes, root, k, t);
        LinkedPlug(nodes, root, k0, t0);
      }
      PlugInorder(k, t);
    }

    // ----- Cached leftmost node

    ghost predicate CachedValid()
      reads this
    {
      Valid() && leftmost == First(Seq())
    }

    lemma SeqFacts()
      requires Valid()
      ensures 0 !in Seq() && NoRepeat(Seq()) && forall x :: x in Seq() ==> x in nodes
    {
      InorderIds(tree);
      RepNonzero(nodes, tree, 0);
      DistinctInorder(tree);
    }

    /** `rb_add_cached` */
    method AddCached(node: nat, less: Less) returns (r: nat)
      requires CachedValid() && node != 0 && node !in Seq()
      modifies this
      ensures CachedValid()
      ensures r == if leftmost == node then node else 0
      ensures exists i :: 0 <= i <= |old(Seq())| && Seq() == old(Seq())[..i] + [node] + old(Seq())[i..]
      ensures StrictWeak(less) && SortedBy(less, old(Seq())) ==> Seq() == Insert(less, old(Seq()), node)
    {
      SeqFacts();
      var parent, side, first, k := FindSlot(node, less);
      SlotSeq(tree, k, less, node);
      LinkNode(node, parent, side, k);
      LeafGap(k, node);
      if first {
        leftmost := node;
      }
      InsertColor(node, k);
      r := if first then node else 0;
    }

    /** `rb_erase_cached` */
    method EraseCached(node: nat) returns (r: nat)
      requires CachedValid() && node in Seq()
      modifies this
      ensures CachedValid() && Seq() == Remove(old(Seq()), node)
      ensures r == if old(leftmost) == node then leftmost else 0
    {
      SeqFacts();
      ghost var a, b := SplitAt(Seq(), node);
      NextAt(a, node, b);
      r := 0;
      if leftmost == node {
        leftmost := Neighbour(node, Right);
        r := leftmost;
      }
      Erase(node);
    }

    /** `rb_move_cached`: the key of `node` has changed, and `less` is the order on the new keys. */
    method MoveCached(node: nat, less: Less)
      requires CachedValid() && node in Seq()
      requires StrictWeak(less) && SortedBy(less, Remove(Seq(), node))
      modifies this
      ensures CachedValid() && Seq() == Resort(less, old(Seq()), node)
    {
      SeqFacts();
      ghost var a, b := SplitAt(Seq(), node);
      NextAt(a, node, b);
      PrevAt(a, node, b);
      var prev := Neighbour(node, Left);
      var next := Neighbour(node, Right);
      if prev != 0 || next != 0 {
        if (prev != 0 && less(node, prev)) || (next != 0 && less(next, node)) {
          var _ := EraseCached(node);
          var _ := AddCached(node, less);
        }
      }
    }

    // ----- Teardown in postorder

    /** `rb_left_deepest_node`: the first node of the subtree `t0` in postorder. */
    method LeftDeepest(start: nat, ghost k0: Ctx, ghost t0: Tree) returns (node: nat, ghost k: Ctx, ghost t: Tree)
      requires Rep(nodes, t0, Above(k0, 0)) && t0.Node? && start == t0.id
      requires RepRest(nodes, k0, start) && Separate(k0, t0)
      ensures Rep(nodes, t, Above(k, 0)) && t.Node? && node == t.id && RepRest(nodes, k, node) && Separate(k, t)
      ensures Plug(k, t) == Plug(k0, t0) && [node] + Rest(k) == Postorder(t0) + Rest(k0)
    {
      k, t := k0, t0;
      node := start;
      while true
        invariant Rep(nodes, t, Above(k, 0)) && t.Node? && node == t.id && RepRest(nodes, k, node)
        invariant Plug(k, t) == Plug(k0, t0) && Separate(k, t) && Postorder(t) + Rest(k) == Postorder(t0) + Rest(k0)
        decreases t
      {
        assert Rep(nodes, t.left, t.id) && Rep(nodes, t.right, t.id);
        if nodes[node].left != 0 {
          node := nodes[node].left;
          Descend(k, t, Left);
          k, t := In(Left, k, t.color, t.id, t.right), t.left;
        } else if nodes[node].right != 0 {
          node := nodes[node].right;
          Descend(k, t, Right);
          k, t := In(Right, k, t.color, t.id, t.left), t.right;
        } else {
          assert Postorder(t) == [] + [] + [t.id];
          return;
        }
      }
    }

    /** `rb_next_postorder`: the children of the node in focus may be gone already. */
    method NextPostorder(node: nat, ghost k: Ctx, ghost t: Tree) returns (r: nat, ghost k': Ctx, ghost t': Tree)
      requires AtNode(nodes, k, t, node)
      ensures k.Top? ==> r == 0
      ensures k.In? ==> AtNode(nodes, k', t', r) && Plug(k', t') == Plug(k, t) && Rest(k) == [r] + Rest(k')
    {
      var parent := nodes[node].parent;
      k', t' := k, t;
      if k.In? { RootAndBelow(k.sib); }
      if parent != 0 && node == nodes[parent].left && nodes[parent].right != 0 {
        TurnRight(k, t);
        r, k', t' := LeftDeepest(nodes[parent].right, In(Right, k.up, k.color, k.id, t), k.sib);
      } else {
        r := parent;
        if k.In? {
          PlugDistinct(k, t);
          k', t' := k.up, Mk(k.side, k.color, t, k.id, k.sib);
          PlugDistinct(k', t');
        }
      }
    }

    lemma PostorderOnce()
      requires Valid()
      ensures NoRepeat(Postorder(tree)) && forall x :: x in Postorder(tree) <==> x in Seq()
    {
      SeqFacts();
      PostorderPermutes(tree);
      PermutesOnce(Seq(), Postorder(tree));
    }

    /**
     `rbtree_postorder_for_each_entry_safe` with a body that gives the node away: its record is
     taken out of the arena, so that reading it again would be an error.
     */
    method DestroyAll() returns (visited: seq<nat>)
      requires Valid()
      modifies this
      ensures visited == Postorder(old(tree))
      ensures CachedValid() && Seq() == []
      ensures forall x :: x in visited ==> x !in nodes
    {
      visited := [];
      var pos := 0;
      ghost var k, t := Top, tree;
      if root != 0 {
        pos, k, t := LeftDeepest(root, Top, tree);
      }
      while pos != 0
        invariant Walking(nodes, tree, k, t, pos, visited)
        invariant forall x :: x in visited ==> x !in nodes
        invariant tree == old(tree)
        decreases |Postorder(tree)| - |visited|
      {
        var n, k', t' := NextPostorder(pos, k, t);
        WalkStep(nodes, tree, k, t, pos, visited, k', t', n);
        visited := visited + [pos];
        nodes := nodes - {pos};
        pos := n;
        k, t := k', t';
      }
      root, leftmost := 0, 0;
      tree := Nil;
    }
  }
}
