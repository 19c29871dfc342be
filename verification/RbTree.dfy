/** The red-black tree itself: search, insertion, deletion and the two traversals. */
module RbTree {
  import opened Values
  import opened RbShape
  import opened RbRotate
  import opened RbRelink
  import opened RbBalance
  import opened RbMap

  class RbTree {
    var root: Node
    const leaf: Node
    var length: int
    ghost var tree: Tree        // what the nodes spell out
    ghost var nodes: set<Node>  // the nodes opened and not yet closed
    ghost var turns: nat        // the rotations made so far

    ghost predicate Shaped()
      reads this, nodes, leaf
    {
      && nodes == Nodes(tree) && At(root, leaf, Hole, tree)
      && !leaf.red && leaf.left == null && leaf.right == null
    }

    ghost predicate Valid()
      reads this, nodes, leaf
    {
      Shaped() && RedBlack(tree) && Sorted(Items(tree)) && length == |Items(tree)|
    }

    /** The map the tree stands for: its values by key. */
    ghost function Contents(): map<int, Value>
      reads this
    {
      MapOf(Items(tree))
    }

    function Deref(where: Slot): Node?
      reads this, match where { case RootSlot => {} case LeftSlot(n) => {n} case RightSlot(n) => {n} }
    {
      match where
      case RootSlot => root
      case LeftSlot(n) => n.left
      case RightSlot(n) => n.right
    }

    constructor ()
      ensures Shaped() && tree == Leaf && length == 0 && fresh(leaf)
    {
      var sentinel := new Node(EMPTY_VALUE, false, null, null);
      leaf, root, length := sentinel, sentinel, 0;
      tree, nodes, turns := Leaf, {}, 0;
    }

    method LeftRotate(node: Node, ghost c: Ctx, ghost t: Tree)
      requires At(root, leaf, c, t) && t.Bin? && t.r.Bin? && node == t.n
      modifies this`root, this`turns, CtxNodes(c) + Nodes(t)
      ensures At(root, leaf, c, RotateL(t)) && AllItems(c, RotateL(t)) == AllItems(c, t)
      ensures turns == old(turns) + 1
    {
      hide Snap, CellAt, Holds, Distinct, CtxDistinct, CanRotateL, RotatedL;
      SnapAt(c, t, leaf);
      SnapAt(c, RotateL(t), leaf);
      RotatedSnapL(root, leaf, c, t);
      CanRotateSnapL(root, leaf, c, t);
      RotateItems(t);
      if !c.Hole? { RootInContext(c, t.n); }
      root := LeftRotateCells(root, leaf, node, Snap(c, t, leaf));
      turns := turns + 1;
    }

    method RightRotate(node: Node, ghost c: Ctx, ghost t: Tree)
      requires At(root, leaf, c, t) && t.Bin? && t.l.Bin? && node == t.n
      modifies this`root, this`turns, CtxNodes(c) + Nodes(t)
      ensures At(root, leaf, c, RotateR(t)) && AllItems(c, RotateR(t)) == AllItems(c, t)
      ensures turns == old(turns) + 1
    {
      hide Snap, CellAt, Holds, Distinct, CtxDistinct, CanRotateR, RotatedR;
      SnapAt(c, t, leaf);
      SnapAt(c, RotateR(t), leaf);
      RotatedSnapR(root, leaf, c, t);
      CanRotateSnapR(root, leaf, c, t);
      RotateItems(t);
      if !c.Hole? { RootInContext(c, t.n); }
      root := RightRotateCells(root, leaf, node, Snap(c, t, leaf));
      turns := turns + 1;
    }

    method SetColor(node: Node, red: bool, ghost c: Ctx, ghost t: Tree)
      requires At(root, leaf, c, t) && node in Nodes(t)
      modifies node`red
      ensures At(root, leaf, c, Recolor(t, node, red)) && AllItems(c, Recolor(t, node, red)) == AllItems(c, t)
    {
      RecolorItems(t, node, red);
      Paint(root, leaf, node, red, c, t);
    }

    lemma {:induction false} Up(c: Ctx, t: Tree)
      requires !c.Hole? && At(root, leaf, c, t)
      ensures At(root, leaf, c.up, Grow(c, t)) && AllItems(c.up, Grow(c, t)) == AllItems(c, t)
      ensures CtxNodes(c.up) + Nodes(Grow(c, t)) == CtxNodes(c) + Nodes(t)
    {
      GrowItems(c, t);
      if c.InL? { StepL(leaf, c.up, Grow(c, t)); } else { StepR(leaf, c.up, Grow(c, t)); }
    }

    lemma {:induction false} DownL(c: Ctx, t: Tree)
      requires t.Bin? && At(root, leaf, c, t)
      ensures var d := LeftOf(c, t);
        && At(root, leaf, d, t.l) && AllItems(d, t.l) == AllItems(c, t)
        && CtxNodes(d) + Nodes(t.l) == CtxNodes(c) + Nodes(t)
    {
      StepL(leaf, c, t);
      GrowItems(LeftOf(c, t), t.l);
    }

    lemma {:induction false} DownR(c: Ctx, t: Tree)
      requires t.Bin? && At(root, leaf, c, t)
      ensures var d := RightOf(c, t);
        && At(root, leaf, d, t.r) && AllItems(d, t.r) == AllItems(c, t)
        && CtxNodes(d) + Nodes(t.r) == CtxNodes(c) + Nodes(t)
    {
      StepR(leaf, c, t);
      GrowItems(RightOf(c, t), t.r);
    }

    /** What the code sees around a focus that has a parent and a grandparent. */
    lemma {:induction false} Family(c: Ctx, t: Tree)
      requires At(root, leaf, c, t) && t.Bin? && !leaf.red && !c.Hole? && !c.up.Hole?
      ensures var P := Grow(c, t); var G := Grow(c.up, P);
        && At(root, leaf, c.up.up, G) && AllItems(c.up.up, G) == AllItems(c, t)
        && CtxNodes(c.up.up) + Nodes(G) == CtxNodes(c) + Nodes(t)
        && t.n.parent == P.n && P.n.parent == G.n
        && (P.n.left == t.n <==> c.InL?) && (P.n.right == t.n <==> c.InR?)
        && (G.n.left == P.n <==> c.up.InL?) && (G.n.right == P.n <==> c.up.InR?)
        && (c.up.InL? ==> G.n.right == Top(G.r, leaf))
        && (c.up.InR? ==> G.n.left == Top(G.l, leaf))
        && P.n.red == c.red && Top(Uncle(c), leaf).red == IsRed(Uncle(c))
        && Distinct(P) && Distinct(G) && root != t.n && root != P.n
    {
      var P := Grow(c, t);
      var G := Grow(c.up, P);
      Up(c, t);
      Up(c.up, P);
      Here(root, leaf, c, t);
      Here(root, leaf, c.up, P);
      Here(root, leaf, c.up.up, G);
      if c.up.InL? {
        DownR(c.up.up, G);
        if G.r.Bin? { Here(root, leaf, RightOf(c.up.up, G), G.r); }
      } else {
        DownL(c.up.up, G);
        if G.l.Bin? { Here(root, leaf, LeftOf(c.up.up, G), G.l); }
      }
    }

    /** Red uncle: the grandparent becomes the red focus. */
    method PushUp(node: Node, uncle: Node, ghost c: Ctx, ghost t: Tree) returns (node': Node)
      requires At(root, leaf, c, t) && RedFocus(c, t) && node == t.n && !leaf.red
      requires !c.Hole? && c.red && !c.up.Hole? && IsRed(Uncle(c)) && uncle == Uncle(c).n
      modifies CtxNodes(c) + Nodes(t)
      ensures var w := PushedUp(c, t);
        && At(root, leaf, c.up.up, w) && RedFocus(c.up.up, w) && node' == w.n
        && AllItems(c.up.up, w) == AllItems(c, t)
        && CtxNodes(c.up.up) + Nodes(w) == CtxNodes(c) + Nodes(t)
    {
      assert t.Bin?;
      hide RbShape.At, RedFocus;
      Family(c, t);
      PushUpKeeps(c, t);
      ghost var up, P, U := c.up.up, Grow(c, t), Uncle(c);
      ghost var G := Grow(c.up, P);
      SetColor(node.parent, false, up, G);
      G := Recolor(G, P.n, false);
      SetColor(uncle, false, up, G);
      G := Recolor(G, uncle, false);
      SetColor(node.parent.parent, true, up, G);
      G := Recolor(G, G.n, true);
      node' := node.parent.parent;
    }

    /** Inner grandchild: one left rotation at the parent, which becomes the focus. */
    method StraightenL(node0: Node, ghost c: Ctx, ghost t: Tree) returns (node: Node)
      requires At(root, leaf, c, t) && RedFocus(c, t) && node0 == t.n && !leaf.red
      requires c.InR? && c.red && !c.up.Hole?
      modifies this`root, this`turns, CtxNodes(c) + Nodes(t)
      ensures var w := RotateL(Grow(c, t)); var d := LeftOf(c.up, w);
        && At(root, leaf, d, w.l) && RedFocus(d, w.l) && node == w.l.n
        && AllItems(d, w.l) == AllItems(c, t)
        && CtxNodes(d) + Nodes(w.l) == CtxNodes(c) + Nodes(t)
      ensures turns == old(turns) + 1
    {
      assert t.Bin?;
      hide RbShape.At, RedFocus;
      Family(c, t);
      StraightKeepsL(c, t);
      Up(c, t);
      node := node0.parent;
      LeftRotate(node, c.up, Grow(c, t));
      DownL(c.up, RotateL(Grow(c, t)));
    }

    /** Outer grandchild: parent black, grandparent red, one right rotation at the grandparent. */
    method LiftR(node: Node, ghost c: Ctx, ghost t: Tree)
      requires At(root, leaf, c, t) && RedFocus(c, t) && node == t.n && !leaf.red
      requires c.InL? && c.red && c.up.InL? && !IsRed(Uncle(c))
      modifies this`root, this`turns, CtxNodes(c) + Nodes(t)
      ensures var G := Grow(c.up, Grow(c, t)); var w := LiftedR(G.l, G); var d := LeftOf(c.up.up, w);
        && At(root, leaf, d, w.l) && RedFocus(d, w.l) && w.l == t && !w.red
        && AllItems(d, w.l) == AllItems(c, t)
        && CtxNodes(d) + Nodes(w.l) == CtxNodes(c) + Nodes(t)
      ensures turns == old(turns) + 1
    {
      hide RbShape.At, RedFocus;
      RedFocusFacts(c, t);
      ghost var up, G := c.up.up, Grow(c.up, Grow(c, t));
      LiftKeepsR(up, G);
      Family(c, t);
      SetColor(node.parent, false, up, G);
      G := Recolor(G, G.l.n, false);
      SetColor(node.parent.parent, true, up, G);
      G := Recolor(G, G.n, true);
      RightRotate(node.parent.parent, up, G);
      DownL(up, RotateR(G));
    }

    /** Inner grandchild: one right rotation at the parent, which becomes the focus. */
    method StraightenR(node0: Node, ghost c: Ctx, ghost t: Tree) returns (node: Node)
      requires At(root, leaf, c, t) && RedFocus(c, t) && node0 == t.n && !leaf.red
      requires c.InL? && c.red && !c.up.Hole?
      modifies this`root, this`turns, CtxNodes(c) + Nodes(t)
      ensures var w := RotateR(Grow(c, t)); var d := RightOf(c.up, w);
        && At(root, leaf, d, w.r) && RedFocus(d, w.r) && node == w.r.n
        && AllItems(d, w.r) == AllItems(c, t)
        && CtxNodes(d) + Nodes(w.r) == CtxNodes(c) + Nodes(t)
      ensures turns == old(turns) + 1
    {
      assert t.Bin?;
      hide RbShape.At, RedFocus;
      Family(c, t);
      StraightKeepsR(c, t);
      Up(c, t);
      node := node0.parent;
      RightRotate(node, c.up, Grow(c, t));
      DownR(c.up, RotateR(Grow(c, t)));
    }

    /** Outer grandchild: parent black, grandparent red, one left rotation at the grandparent. */
    method LiftL(node: Node, ghost c: Ctx, ghost t: Tree)
      requires At(root, leaf, c, t) && RedFocus(c, t) && node == t.n && !leaf.red
      requires c.InR? && c.red && c.up.InR? && !IsRed(Uncle(c))
      modifies this`root, this`turns, CtxNodes(c) + Nodes(t)
      ensures var G := Grow(c.up, Grow(c, t)); var w := LiftedL(G.r, G); var d := RightOf(c.up.up, w);
        && At(root, leaf, d, w.r) && RedFocus(d, w.r) && w.r == t && !w.red
        && AllItems(d, w.r) == AllItems(c, t)
        && CtxNodes(d) + Nodes(w.r) == CtxNodes(c) + Nodes(t)
      ensures turns == old(turns) + 1
    {
      hide RbShape.At, RedFocus;
      RedFocusFacts(c, t);
      ghost var up, G := c.up.up, Grow(c.up, Grow(c, t));
      LiftKeepsL(up, G);
      Family(c, t);
      SetColor(node.parent, false, up, G);
      G := Recolor(G, G.r.n, false);
      SetColor(node.parent.parent, true, up, G);
      G := Recolor(G, G.n, true);
      LeftRotate(node.parent.parent, up, G);
      DownR(up, RotateL(G));
    }

    /** The loop and the final `rbnode_set_black(tr->root)` of `rbtree_fast_set`. */
    method RebalanceInsert(node0: Node, ghost c0: Ctx, ghost t0: Tree) returns (ghost w: Tree, ghost rotations: nat)
      requires At(root, leaf, c0, t0) && RedFocus(c0, t0) && node0 == t0.n && !leaf.red
      modifies this`root, this`turns, CtxNodes(c0) + Nodes(t0)
      ensures At(root, leaf, Hole, w) && RedBlack(w) && Items(w) == AllItems(c0, t0)
      ensures Nodes(w) == CtxNodes(c0) + Nodes(t0)
      ensures rotations <= 2
      ensures turns == old(turns) + rotations
    {
      hide RbShape.At, RedFocus, AllItems;
      ghost var c, t := c0, t0;
      var node := node0;
      rotations := 0;
      RedFocusFacts(c, t);
      Around(c, t);
      while node != root && node.parent.red
        invariant At(root, leaf, c, t) && RedFocus(c, t) && t.Bin? && node == t.n && !leaf.red
        invariant AllItems(c, t) == AllItems(c0, t0)
        invariant CtxNodes(c) + Nodes(t) == CtxNodes(c0) + Nodes(t0)
        invariant !c.Hole? ==> node.parent == c.n && c.n.red == c.red && root != node
        invariant c.Hole? ==> root == node
        invariant rotations <= 2 && (rotations > 0 ==> c.Hole? || !c.red) && turns == old(turns) + rotations
        decreases Depth(c)
      {
        RedFocusFacts(c, t);
        node, c, t, rotations := InsertRound(node, c, t);
        RedFocusFacts(c, t);
        Around(c, t);
      }
      InsertionDone(c, t);
      w := BlackenRoot(c, t);
    }

    /** `rbnode_set_black(tr->root)` */
    method BlackenRoot(ghost c: Ctx, ghost t: Tree) returns (ghost w: Tree)
      requires At(root, leaf, c, t) && Plug(c, t).Bin?
      modifies CtxNodes(c) + Nodes(t)
      ensures w == Plug(c, t).(red := false)
      ensures At(root, leaf, Hole, w) && Items(w) == AllItems(c, t) && Nodes(w) == CtxNodes(c) + Nodes(t)
    {
      hide RbShape.At;
      PlugItems(c, t);
      Zip(root, leaf, c, t);
      w := Plug(c, t);
      Here(root, leaf, Hole, w);
      SetColor(root, false, Hole, w);
      w := w.(red := false);
    }

    /** What the loop guard reads. */
    lemma {:induction false} Around(c: Ctx, t: Tree)
      requires At(root, leaf, c, t) && t.Bin?
      ensures !c.Hole? ==> t.n.parent == c.n && c.n.red == c.red && root != t.n
      ensures c.Hole? ==> root == t.n
      ensures leaf !in CtxNodes(c) + Nodes(t)
    {
      Here(root, leaf, c, t);
      if !c.Hole? {
        Up(c, t);
        Here(root, leaf, c.up, Grow(c, t));
      }
    }

    /** One round of the insertion loop below a parent that is a left child. */
    method InsertRoundL(node0: Node, ghost c0: Ctx, ghost t0: Tree)
      returns (node: Node, ghost c: Ctx, ghost t: Tree, ghost rotations: nat)
      requires At(root, leaf, c0, t0) && RedFocus(c0, t0) && t0.Bin? && node0 == t0.n && !leaf.red
      requires !c0.Hole? && c0.red && c0.up.InL?
      modifies this`root, this`turns, CtxNodes(c0) + Nodes(t0)
      ensures At(root, leaf, c, t) && RedFocus(c, t) && t.Bin? && node == t.n
      ensures Depth(c) < Depth(c0)
      ensures AllItems(c, t) == AllItems(c0, t0)
      ensures CtxNodes(c) + Nodes(t) == CtxNodes(c0) + Nodes(t0)
      ensures rotations <= 2 && (rotations > 0 ==> !c.Hole? && !c.red)
      ensures turns == old(turns) + rotations
    {
      hide RbShape.At, RedFocus, AllItems;
      node, c, t, rotations := node0, c0, t0, 0;
      Family(c, t);
      RedFocusFacts(c, t);
      Without(c, t);
      var uncle := node.parent.parent.right;
      if uncle.red {
        node := PushUp(node, uncle, c, t);
        c, t := c.up.up, PushedUp(c, t);
      } else {
        if node == node.parent.right {
          node := StraightenL(node, c, t);
          ghost var w := RotateL(Grow(c, t));
          c, t, rotations := LeftOf(c.up, w), w.l, rotations + 1;
        }
        LiftR(node, c, t);
        ghost var G := Grow(c.up, Grow(c, t));
        c, rotations := LeftOf(c.up.up, LiftedR(G.l, G)), rotations + 1;
      }
    }

    /** One round of the insertion loop below a parent that is a right child. */
    method InsertRoundR(node0: Node, ghost c0: Ctx, ghost t0: Tree)
      returns (node: Node, ghost c: Ctx, ghost t: Tree, ghost rotations: nat)
      requires At(root, leaf, c0, t0) && RedFocus(c0, t0) && t0.Bin? && node0 == t0.n && !leaf.red
      requires !c0.Hole? && c0.red && c0.up.InR?
      modifies this`root, this`turns, CtxNodes(c0) + Nodes(t0)
      ensures At(root, leaf, c, t) && RedFocus(c, t) && t.Bin? && node == t.n
      ensures Depth(c) < Depth(c0)
      ensures AllItems(c, t) == AllItems(c0, t0)
      ensures CtxNodes(c) + Nodes(t) == CtxNodes(c0) + Nodes(t0)
      ensures rotations <= 2 && (rotations > 0 ==> !c.Hole? && !c.red)
      ensures turns == old(turns) + rotations
    {
      hide RbShape.At, RedFocus, AllItems;
      node, c, t, rotations := node0, c0, t0, 0;
      Family(c, t);
      RedFocusFacts(c, t);
      Without(c, t);
      var uncle := node.parent.parent.left;
      if uncle.red {
        node := PushUp(node, uncle, c, t);
        c, t := c.up.up, PushedUp(c, t);
      } else {
        if node == node.parent.left {
          node := StraightenR(node, c, t);
          ghost var w := RotateR(Grow(c, t));
          c, t, rotations := RightOf(c.up, w), w.r, rotations + 1;
        }
        LiftL(node, c, t);
        ghost var G := Grow(c.up, Grow(c, t));
        c, rotations := RightOf(c.up.up, LiftedL(G.r, G)), rotations + 1;
      }
    }

    /** One round of the insertion loop. */
    method InsertRound(node0: Node, ghost c0: Ctx, ghost t0: Tree)
      returns (node: Node, ghost c: Ctx, ghost t: Tree, ghost rotations: nat)
      requires At(root, leaf, c0, t0) && RedFocus(c0, t0) && node0 == t0.n && !leaf.red
      requires !c0.Hole? && c0.red && !c0.up.Hole?
      modifies this`root, this`turns, CtxNodes(c0) + Nodes(t0)
      ensures At(root, leaf, c, t) && RedFocus(c, t) && node == t.n
      ensures Depth(c) < Depth(c0)
      ensures AllItems(c, t) == AllItems(c0, t0)
      ensures CtxNodes(c) + Nodes(t) == CtxNodes(c0) + Nodes(t0)
      ensures rotations <= 2 && (rotations > 0 ==> !c.Hole? && !c.red)
      ensures turns == old(turns) + rotations
    {
      assert t0.Bin?;
      Family(c0, t0);
      hide RbShape.At, RedFocus, AllItems, Depth, CtxNodes, Nodes;
      if node0.parent == node0.parent.parent.left {
        node, c, t, rotations := InsertRoundL(node0, c0, t0);
      } else {
        node, c, t, rotations := InsertRoundR(node0, c0, t0);
      }
    }

    /** The slot of the focus holds the focus. */
    lemma {:induction false} InSlot(c: Ctx, t: Tree)
      requires At(root, leaf, c, t)
      ensures Deref(SlotOf(c)) == Top(t, leaf)
      ensures t.Bin? ==> t.n.value == t.v && t.n != leaf
      ensures !c.Hole? ==> c.n in CtxNodes(c)
    {
      if t.Bin? { Here(root, leaf, c, t); }
      if !c.Hole? {
        Up(c, t);
        Here(root, leaf, c.up, Grow(c, t));
      }
    }

    /** The slot whose node has the key, or else the one empty slot where the key belongs. */
    method FastGet(key: Value) returns (where: Slot, parent: Node?, ghost c: Ctx, ghost t: Tree)
      requires Shaped() && Sorted(Items(tree))
      ensures At(root, leaf, c, t) && Plug(c, t) == tree && AllItems(c, t) == Items(tree)
      ensures where == SlotOf(c) && Deref(where) == Top(t, leaf)
      ensures Between(c, key.key)
      ensures t.Bin? ==> Compare(key, t.v) == 0 && t.n != leaf
      ensures t.Leaf? ==> parent == Above(c)
    {
      assert Between(Hole, key.key);
      assert AllItems(Hole, tree) == Items(tree);
      hide RbShape.At, Between, AllItems;
      c, t, where, parent := Hole, tree, RootSlot, null;
      InSlot(c, t);
      while Deref(where) != leaf
        invariant At(root, leaf, c, t) && Plug(c, t) == tree && AllItems(c, t) == Items(tree)
        invariant where == SlotOf(c) && Deref(where) == Top(t, leaf)
        invariant Between(c, key.key) && (t.Bin? ==> t.n != leaf)
        invariant parent == Above(c)
        decreases t
      {
        var node := Deref(where);
        Here(root, leaf, c, t);
        var cmp := Compare(key, node.value);
        if cmp == 0 {
          parent := node.parent;
          return;
        }
        BetweenStep(c, t, key.key);
        if cmp < 0 {
          DownL(c, t);
          where, c, t := LeftSlot(node), LeftOf(c, t), t.l;
        } else {
          DownR(c, t);
          where, c, t := RightSlot(node), RightOf(c, t), t.r;
        }
        parent := node;
        InSlot(c, t);
      }
    }

    method Get(key: Value) returns (value: Value, ok: bool)
      requires Valid()
      ensures ok <==> key.key in Contents()
      ensures value == if ok then Contents()[key.key] else EMPTY_VALUE
    {
      hide RbShape.At;
      var slot, _, c, t := FastGet(key);
      var where := Deref(slot);
      FoundOrNot(key, c, t);
      if where == leaf {
        return EMPTY_VALUE, false;
      }
      InSlot(c, t);
      return where.value, true;
    }

    /** What the outcome of a search says about the map. */
    lemma FoundOrNot(key: Value, c: Ctx, t: Tree)
      requires At(root, leaf, c, t) && Sorted(AllItems(c, t)) && Between(c, key.key)
      requires t.Bin? ==> t.v.key == key.key
      ensures Top(t, leaf) == leaf <==> t.Leaf?
      ensures t.Leaf? ==> key.key !in MapOf(AllItems(c, t))
      ensures t.Bin? ==> key.key in MapOf(AllItems(c, t)) && MapOf(AllItems(c, t))[key.key] == t.v
    {
      if t.Bin? {
        SplitItems(c, t);
        DeleteItem(Before(c) + Items(t.l), Item(t.n, t.v), Items(t.r) + After(c));
      } else {
        assert AllItems(c, t) == Before(c) + After(c);
        InsertItem(Before(c), Item(leaf, key), After(c));
      }
    }

    method OpenNode(value: Value, parent: Node?) returns (node: Node)
      modifies this`nodes
      ensures fresh(node) && nodes == old(nodes) + {node}
      ensures node.value == value && node.red && node.parent == parent && node.left == leaf && node.right == leaf
    {
      node := new Node(value, true, parent, leaf);
      nodes := nodes + {node};
    }

    /** Puts a fresh node into an empty slot and rebalances. */
    method FastSet(where: Slot, node: Node, ghost c: Ctx) returns (ghost rotations: nat)
      requires At(root, leaf, c, Leaf) && RedBlack(Plug(c, Leaf)) && where == SlotOf(c)
      requires !leaf.red && leaf.left == null && leaf.right == null
      requires node !in CtxNodes(c) && node != leaf && nodes == CtxNodes(c) + {node}
      requires node.left == leaf && node.right == leaf && node.red && node.parent == Above(c)
      modifies this`root, this`turns, this`length, this`tree, CtxNodes(c) + {node}
      ensures At(root, leaf, Hole, tree) && RedBlack(tree) && nodes == Nodes(tree)
      ensures !leaf.red && leaf.left == null && leaf.right == null
      ensures Items(tree) == Before(c) + [Item(node, old(node.value))] + After(c)
      ensures nodes == old(nodes) && length == old(length) + 1
      ensures rotations <= 2
      ensures turns == old(turns) + rotations
    {
      ghost var t := Bin(Leaf, node, true, node.value, Leaf);
      FreshFocus(c, node, node.value);
      assert leaf !in CtxNodes(c) + {node};
      hide RbShape.At, RedFocus, RedBlack, AllItems;
      root := Link(root, leaf, where, node, c);
      length := length + 1;
      rotations := 0;
      if where == RootSlot {
        tree := BlackenRoot(c, t);
      } else {
        tree, rotations := RebalanceInsert(node, c, t);
      }
    }

    /** `(*where)->value = value` */
    method Overwrite(there: Node, value: Value, ghost c: Ctx, ghost t: Tree)
      requires Valid() && At(root, leaf, c, t) && Plug(c, t) == tree && AllItems(c, t) == Items(tree)
      requires t.Bin? && there == t.n && Compare(value, t.v) == 0
      modifies this`tree, there`value
      ensures Valid() && nodes == old(nodes)
      ensures Contents() == old(Contents())[value.key := value]
      ensures Stays(old(Items(tree)), Items(tree), value.key)
    {
      hide RedBlack, Sorted, AllItems, Stays, MapOf, Items;
      PlugItems(c, t);
      OverwriteKeeps(c, t, value);
      SetValue(root, leaf, there, value, c, t);
      ghost var t' := t.(v := value);
      Zip(root, leaf, c, t');
      PlugItems(c, t');
      tree := Plug(c, t');
      assert Nodes(t') == Nodes(t);
    }

    method Set(value: Value)
      requires Valid()
      modifies this, nodes
      ensures Valid() && fresh(nodes - old(nodes))
      ensures Contents() == old(Contents())[value.key := value]
      ensures Stays(old(Items(tree)), Items(tree), value.key)
      ensures turns <= old(turns) + 2
    {
      hide RbShape.At, RedBlack, Sorted, Between, Stays;
      var where, parent, c, t := FastGet(value);
      var there := Deref(where);
      PlugItems(c, t);
      FoundOrNot(value, c, t);
      if there != leaf {
        InSlot(c, t);
        Overwrite(there, value, c, t);
        return;
      }
      var node := OpenNode(value, parent);
      ghost var _ := FastSet(where, node, c);
      InsertBetween(c, Item(node, value));
    }

    /** The focus as the deletion loop holds it: `temp` is its top, possibly the sentinel, and
        `temp`'s parent is the node above. */
    ghost predicate Focused(c: Ctx, t: Tree, temp: Node)
      reads this, CtxNodes(c) + Nodes(t), leaf
    {
      && At(root, leaf, c, t) && temp == Top(t, leaf)
      && (!c.Hole? ==> temp.parent == c.n)
      && !leaf.red
    }

    lemma FocusedAt(c: Ctx, t: Tree, temp: Node)
      requires At(root, leaf, c, t) && temp == Top(t, leaf) && !leaf.red
      requires t.Leaf? && !c.Hole? ==> leaf.parent == c.n
      ensures Focused(c, t, temp)
    {
      if t.Bin? { Here(root, leaf, c, t); }
    }

    lemma {:induction false} FocusedFacts(c: Ctx, t: Tree, temp: Node)
      requires Focused(c, t, temp)
      ensures At(root, leaf, c, t) && temp == Top(t, leaf) && !leaf.red
      ensures temp.red == IsRed(t) && (!c.Hole? ==> temp.parent == c.n)
      ensures leaf !in CtxNodes(c) + Nodes(t)
      ensures root == temp <==> c.Hole?
    {
      if t.Bin? { Here(root, leaf, c, t); }
      if !c.Hole? { RootInContext(c, temp); }
    }

    /** What the code sees of the sibling of a focus that is a left child. */
    lemma {:induction false} SiblingsL(c: Ctx, t: Tree, temp: Node)
      requires Focused(c, t, temp) && c.InL? && c.r.Bin?
      ensures var P := Grow(c, t); var w := c.r;
        && At(root, leaf, c.up, P) && AllItems(c.up, P) == AllItems(c, t)
        && CtxNodes(c.up) + Nodes(P) == CtxNodes(c) + Nodes(t) && Distinct(P)
        && temp.parent == P.n && P.n.left == temp && P.n.right == w.n
        && P.n.red == c.red && w.n.red == w.red && P.n != w.n && temp != w.n
        && w.n.left == Top(w.l, leaf) && w.n.right == Top(w.r, leaf)
        && Top(w.l, leaf).red == IsRed(w.l) && Top(w.r, leaf).red == IsRed(w.r)
    {
      var P, w := Grow(c, t), c.r;
      Up(c, t);
      Here(root, leaf, c.up, P);
      DownR(c.up, P);
      var d := RightOf(c.up, P);
      Here(root, leaf, d, w);
      DownL(d, w);
      if w.l.Bin? { Here(root, leaf, LeftOf(d, w), w.l); }
      DownR(d, w);
      if w.r.Bin? { Here(root, leaf, RightOf(d, w), w.r); }
    }

    /** Red sibling. */
    method SinkL(temp: Node, ghost c: Ctx, ghost t: Tree)
      requires Focused(c, t, temp) && ShortFocus(c, t) && c.InL? && IsRed(c.r)
      modifies this`root, this`turns, CtxNodes(c) + Nodes(t)
      ensures var w := SunkL(c, t); var d := LeftOf(LeftOf(c.up, w), w.l);
        && Focused(d, t, temp) && ShortFocus(d, t) && d.red && d.r.Bin? && !d.r.red
        && AllItems(d, t) == AllItems(c, t)
        && CtxNodes(d) + Nodes(t) == CtxNodes(c) + Nodes(t)
      ensures turns == old(turns) + 1
    {
      hide RbShape.At, ShortFocus, AllItems;
      SinkKeepsL(c, t);
      FocusedFacts(c, t, temp);
      SiblingsL(c, t, temp);
      ghost var P := Grow(c, t);
      var w := temp.parent.right;
      SetColor(w, false, c.up, P);
      P := Recolor(P, w, false);
      SetColor(temp.parent, true, c.up, P);
      P := Recolor(P, P.n, true);
      LeftRotate(temp.parent, c.up, P);
      P := RotateL(P);
      DownL(c.up, P);
      DownL(LeftOf(c.up, P), P.l);
      FocusedAt(LeftOf(LeftOf(c.up, P), P.l), t, temp);
    }

    /** Black sibling with black children. */
    method DropL(temp: Node, ghost c: Ctx, ghost t: Tree) returns (temp': Node)
      requires Focused(c, t, temp) && ShortFocus(c, t) && !IsRed(t)
      requires c.InL? && c.r.Bin? && !c.r.red && !IsRed(c.r.l) && !IsRed(c.r.r)
      modifies CtxNodes(c) + Nodes(t)
      ensures var w := DroppedL(c, t);
        && Focused(c.up, w, temp') && ShortFocus(c.up, w)
        && AllItems(c.up, w) == AllItems(c, t)
        && CtxNodes(c.up) + Nodes(w) == CtxNodes(c) + Nodes(t)
    {
      hide RbShape.At, ShortFocus, AllItems;
      DropKeepsL(c, t);
      FocusedFacts(c, t, temp);
      SiblingsL(c, t, temp);
      ghost var P := Grow(c, t);
      var w := temp.parent.right;
      SetColor(w, true, c.up, P);
      P := Recolor(P, w, true);
      temp' := temp.parent;
      FocusedAt(c.up, P, temp');
    }

    /** Black sibling, red child on the near side only. */
    method TurnL(temp: Node, ghost c: Ctx, ghost t: Tree)
      requires Focused(c, t, temp) && ShortFocus(c, t)
      requires c.InL? && c.r.Bin? && !c.r.red && IsRed(c.r.l) && !IsRed(c.r.r)
      modifies this`root, this`turns, CtxNodes(c) + Nodes(t)
      ensures var d := c.(r := TurnedL(c.r));
        && Focused(d, t, temp) && ShortFocus(d, t)
        && AllItems(d, t) == AllItems(c, t)
        && CtxNodes(d) + Nodes(t) == CtxNodes(c) + Nodes(t)
      ensures turns == old(turns) + 1
    {
      hide RbShape.At, ShortFocus, AllItems;
      TurnKeepsL(c, t);
      FocusedFacts(c, t, temp);
      SiblingsL(c, t, temp);
      ghost var P := Grow(c, t);
      ghost var d, W := RightOf(c.up, P), c.r;
      DownR(c.up, P);
      var w := temp.parent.right;
      SetColor(w.left, false, d, W);
      W := Recolor(W, w.left, false);
      SetColor(w, true, d, W);
      W := Recolor(W, w, true);
      RightRotate(w, d, W);
      W := RotateR(W);
      Up(d, W);
      P := Grow(d, W);
      DownL(c.up, P);
      FocusedAt(LeftOf(c.up, P), t, temp);
    }

    /** Black sibling, red child on the far side: nothing is short any more. */
    method BorrowL(temp: Node, ghost c: Ctx, ghost t: Tree)
      requires Focused(c, t, temp) && ShortFocus(c, t) && !IsRed(t)
      requires c.InL? && c.r.Bin? && !c.r.red && IsRed(c.r.r)
      modifies this`root, this`turns, CtxNodes(c) + Nodes(t)
      ensures var w := BorrowedL(c, t);
        && At(root, leaf, c.up, w) && RedBlack(Plug(c.up, w))
        && AllItems(c.up, w) == AllItems(c, t)
        && CtxNodes(c.up) + Nodes(w) == CtxNodes(c) + Nodes(t)
      ensures turns == old(turns) + 1
    {
      hide RbShape.At, ShortFocus, RedBlack, AllItems;
      BorrowKeepsL(c, t);
      FocusedFacts(c, t, temp);
      SiblingsL(c, t, temp);
      ghost var P := Grow(c, t);
      var w := temp.parent.right;
      BorrowColorsL(c, t);
      SetColor(w, temp.parent.red, c.up, P);
      P := Recolor(P, w, c.red);
      SetColor(temp.parent, false, c.up, P);
      P := Recolor(P, P.n, false);
      SetColor(w.right, false, c.up, P);
      P := Recolor(P, c.r.r.n, false);
      LeftRotate(temp.parent, c.up, P);
    }

    /** What the code sees of the sibling of a focus that is a right child. */
    lemma {:induction false} SiblingsR(c: Ctx, t: Tree, temp: Node)
      requires Focused(c, t, temp) && c.InR? && c.l.Bin?
      ensures var P := Grow(c, t); var w := c.l;
        && At(root, leaf, c.up, P) && AllItems(c.up, P) == AllItems(c, t)
        && CtxNodes(c.up) + Nodes(P) == CtxNodes(c) + Nodes(t) && Distinct(P)
        && temp.parent == P.n && P.n.right == temp && P.n.left == w.n
        && P.n.red == c.red && w.n.red == w.red && P.n != w.n && temp != w.n
        && w.n.right == Top(w.r, leaf) && w.n.left == Top(w.l, leaf)
        && Top(w.r, leaf).red == IsRed(w.r) && Top(w.l, leaf).red == IsRed(w.l)
    {
      var P, w := Grow(c, t), c.l;
      Up(c, t);
      Here(root, leaf, c.up, P);
      DownL(c.up, P);
      var d := LeftOf(c.up, P);
      Here(root, leaf, d, w);
      DownR(d, w);
      if w.r.Bin? { Here(root, leaf, RightOf(d, w), w.r); }
      DownL(d, w);
      if w.l.Bin? { Here(root, leaf, LeftOf(d, w), w.l); }
    }

    /** Red sibling. */
    method SinkR(temp: Node, ghost c: Ctx, ghost t: Tree)
      requires Focused(c, t, temp) && ShortFocus(c, t) && c.InR? && IsRed(c.l)
      modifies this`root, this`turns, CtxNodes(c) + Nodes(t)
      ensures var w := SunkR(c, t); var d := RightOf(RightOf(c.up, w), w.r);
        && Focused(d, t, temp) && ShortFocus(d, t) && d.red && d.l.Bin? && !d.l.red
        && AllItems(d, t) == AllItems(c, t)
        && CtxNodes(d) + Nodes(t) == CtxNodes(c) + Nodes(t)
      ensures turns == old(turns) + 1
    {
      hide RbShape.At, ShortFocus, AllItems;
      SinkKeepsR(c, t);
      FocusedFacts(c, t, temp);
      SiblingsR(c, t, temp);
      ghost var P := Grow(c, t);
      var w := temp.parent.left;
      SetColor(w, false, c.up, P);
      P := Recolor(P, w, false);
      SetColor(temp.parent, true, c.up, P);
      P := Recolor(P, P.n, true);
      RightRotate(temp.parent, c.up, P);
      P := RotateR(P);
      DownR(c.up, P);
      DownR(RightOf(c.up, P), P.r);
      FocusedAt(RightOf(RightOf(c.up, P), P.r), t, temp);
    }

    /** Black sibling with black children. */
    method DropR(temp: Node, ghost c: Ctx, ghost t: Tree) returns (temp': Node)
      requires Focused(c, t, temp) && ShortFocus(c, t) && !IsRed(t)
      requires c.InR? && c.l.Bin? && !c.l.red && !IsRed(c.l.r) && !IsRed(c.l.l)
      modifies CtxNodes(c) + Nodes(t)
      ensures var w := DroppedR(c, t);
        && Focused(c.up, w, temp') && ShortFocus(c.up, w)
        && AllItems(c.up, w) == AllItems(c, t)
        && CtxNodes(c.up) + Nodes(w) == CtxNodes(c) + Nodes(t)
    {
      hide RbShape.At, ShortFocus, AllItems;
      DropKeepsR(c, t);
      FocusedFacts(c, t, temp);
      SiblingsR(c, t, temp);
      ghost var P := Grow(c, t);
      var w := temp.parent.left;
      SetColor(w, true, c.up, P);
      P := Recolor(P, w, true);
      temp' := temp.parent;
      FocusedAt(c.up, P, temp');
    }

    /** Black sibling, red child on the near side only. */
    method TurnR(temp: Node, ghost c: Ctx, ghost t: Tree)
      requires Focused(c, t, temp) && ShortFocus(c, t)
      requires c.InR? && c.l.Bin? && !c.l.red && IsRed(c.l.r) && !IsRed(c.l.l)
      modifies this`root, this`turns, CtxNodes(c) + Nodes(t)
      ensures var d := c.(l := TurnedR(c.l));
        && Focused(d, t, temp) && ShortFocus(d, t)
        && AllItems(d, t) == AllItems(c, t)
        && CtxNodes(d) + Nodes(t) == CtxNodes(c) + Nodes(t)
      ensures turns == old(turns) + 1
    {
      hide RbShape.At, ShortFocus, AllItems;
      TurnKeepsR(c, t);
      FocusedFacts(c, t, temp);
      SiblingsR(c, t, temp);
      ghost var P := Grow(c, t);
      ghost var d, W := LeftOf(c.up, P), c.l;
      DownL(c.up, P);
      var w := temp.parent.left;
      SetColor(w.right, false, d, W);
      W := Recolor(W, w.right, false);
      SetColor(w, true, d, W);
      W := Recolor(W, w, true);
      LeftRotate(w, d, W);
      W := RotateL(W);
      Up(d, W);
      P := Grow(d, W);
      DownR(c.up, P);
      FocusedAt(RightOf(c.up, P), t, temp);
    }

    /** Black sibling, red child on the far side: nothing is short any more. */
    method BorrowR(temp: Node, ghost c: Ctx, ghost t: Tree)
      requires Focused(c, t, temp) && ShortFocus(c, t) && !IsRed(t)
      requires c.InR? && c.l.Bin? && !c.l.red && IsRed(c.l.l)
      modifies this`root, this`turns, CtxNodes(c) + Nodes(t)
      ensures var w := BorrowedR(c, t);
        && At(root, leaf, c.up, w) && RedBlack(Plug(c.up, w))
        && AllItems(c.up, w) == AllItems(c, t)
        && CtxNodes(c.up) + Nodes(w) == CtxNodes(c) + Nodes(t)
      ensures turns == old(turns) + 1
    {
      hide RbShape.At, ShortFocus, RedBlack, AllItems;
      BorrowKeepsR(c, t);
      FocusedFacts(c, t, temp);
      SiblingsR(c, t, temp);
      ghost var P := Grow(c, t);
      var w := temp.parent.left;
      BorrowColorsR(c, t);
      SetColor(w, temp.parent.red, c.up, P);
      P := Recolor(P, w, c.red);
      SetColor(temp.parent, false, c.up, P);
      P := Recolor(P, P.n, false);
      SetColor(w.left, false, c.up, P);
      P := Recolor(P, c.l.l.n, false);
      RightRotate(temp.parent, c.up, P);
    }

    /** The loop and the final `rbnode_set_black(temp)` of `rbtree_fast_pop`. */
    method RebalanceDelete(temp0: Node, ghost c0: Ctx, ghost t0: Tree) returns (ghost w: Tree, ghost rotations: nat)
      requires Focused(c0, t0, temp0) && ShortFocus(c0, t0)
      modifies this`root, this`turns, CtxNodes(c0) + Nodes(t0), leaf`red
      ensures At(root, leaf, Hole, w) && RedBlack(w) && Items(w) == AllItems(c0, t0)
      ensures Nodes(w) == CtxNodes(c0) + Nodes(t0)
      ensures rotations <= 3 && !leaf.red
      ensures turns == old(turns) + rotations
    {
      hide RbShape.At, ShortFocus, AllItems, RedBlack;
      ghost var c, t, done := c0, t0, false;
      var temp := temp0;
      rotations := 0;
      FocusedFacts(c, t, temp);
      while temp != root && !temp.red
        invariant Focused(c, t, temp) && temp.red == IsRed(t) && (root == temp <==> c.Hole?)
        invariant leaf !in CtxNodes(c) + Nodes(t)
        invariant AllItems(c, t) == AllItems(c0, t0)
        invariant CtxNodes(c) + Nodes(t) == CtxNodes(c0) + Nodes(t0)
        invariant if done then c.Hole? && RedBlack(t) else ShortFocus(c, t)
        invariant rotations <= 3 && (rotations > 0 ==> c.Hole? || IsRed(t)) && turns == old(turns) + rotations
        decreases if c.Hole? || IsRed(t) then 0 else 1 + Depth(c)
      {
        temp, c, t, done, rotations := DeleteRound(temp, c, t);
        FocusedFacts(c, t, temp);
      }
      w := BlackenTemp(temp, c, t, done);
    }

    /** The cases of a black sibling, for a focus that is a left child. */
    method SettleL(temp0: Node, ghost c0: Ctx, ghost t0: Tree)
      returns (temp: Node, ghost c: Ctx, ghost t: Tree, ghost done: bool, ghost rotations: nat)
      requires Focused(c0, t0, temp0) && ShortFocus(c0, t0) && !IsRed(t0)
      requires c0.InL? && c0.r.Bin? && !c0.r.red
      modifies this`root, this`turns, CtxNodes(c0) + Nodes(t0)
      ensures Focused(c, t, temp)
      ensures AllItems(c, t) == AllItems(c0, t0)
      ensures CtxNodes(c) + Nodes(t) == CtxNodes(c0) + Nodes(t0)
      ensures if done then c.Hole? && RedBlack(t) else ShortFocus(c, t)
      ensures rotations <= 2 && (rotations > 0 ==> done)
      ensures !done ==> c == c0.up && t.Bin? && t.red == c0.red
      ensures turns == old(turns) + rotations
    {
      hide RbShape.At, ShortFocus, AllItems, RedBlack, Focused;
      temp, c, t, done, rotations := temp0, c0, t0, false, 0;
      SiblingsL(c, t, temp);
      var w := temp.parent.right;
      if !w.left.red && !w.right.red {
        ghost var s := DroppedL(c, t);
        temp := DropL(temp, c, t);
        c, t := c.up, s;
      } else {
        if !w.right.red {
          TurnL(temp, c, t);
          c, rotations := c.(r := TurnedL(c.r)), 1;
        }
        FocusedFacts(c, t, temp);
        BorrowL(temp, c, t);
        ghost var s := BorrowedL(c, t);
        Zip(root, leaf, c.up, s);
        PlugItems(c.up, s);
        temp, c, t, done, rotations := root, Hole, Plug(c.up, s), true, rotations + 1;
        WholeItems(t);
        FocusedWhole(t);
      }
    }

    /** One round of the deletion loop at a left child. */
    method DeleteRoundL(temp0: Node, ghost c0: Ctx, ghost t0: Tree)
      returns (temp: Node, ghost c: Ctx, ghost t: Tree, ghost done: bool, ghost rotations: nat)
      requires Focused(c0, t0, temp0) && ShortFocus(c0, t0) && c0.InL? && !IsRed(t0)
      modifies this`root, this`turns, CtxNodes(c0) + Nodes(t0)
      ensures Focused(c, t, temp)
      ensures AllItems(c, t) == AllItems(c0, t0)
      ensures CtxNodes(c) + Nodes(t) == CtxNodes(c0) + Nodes(t0)
      ensures if done then c.Hole? && RedBlack(t) else ShortFocus(c, t)
      ensures c.Hole? || IsRed(t) || Depth(c) < Depth(c0)
      ensures rotations <= 3 && (rotations > 0 ==> c.Hole? || IsRed(t))
      ensures turns == old(turns) + rotations
    {
      hide RbShape.At, ShortFocus, AllItems, RedBlack, Focused;
      temp, c, t, done, rotations := temp0, c0, t0, false, 0;
      ShortFocusFacts(c, t);
      SiblingsL(c, t, temp);
      var w := temp.parent.right;
      ghost var sunk := 0;
      if w.red {
        SinkL(temp, c, t);
        ghost var s := SunkL(c, t);
        c, sunk := LeftOf(LeftOf(c.up, s), s.l), 1;
      }
      temp, c, t, done, rotations := SettleL(temp, c, t);
      rotations := rotations + sunk;
    }

    /** The cases of a black sibling, for a focus that is a right child. */
    method SettleR(temp0: Node, ghost c0: Ctx, ghost t0: Tree)
      returns (temp: Node, ghost c: Ctx, ghost t: Tree, ghost done: bool, ghost rotations: nat)
      requires Focused(c0, t0, temp0) && ShortFocus(c0, t0) && !IsRed(t0)
      requires c0.InR? && c0.l.Bin? && !c0.l.red
      modifies this`root, this`turns, CtxNodes(c0) + Nodes(t0)
      ensures Focused(c, t, temp)
      ensures AllItems(c, t) == AllItems(c0, t0)
      ensures CtxNodes(c) + Nodes(t) == CtxNodes(c0) + Nodes(t0)
      ensures if done then c.Hole? && RedBlack(t) else ShortFocus(c, t)
      ensures rotations <= 2 && (rotations > 0 ==> done)
      ensures !done ==> c == c0.up && t.Bin? && t.red == c0.red
      ensures turns == old(turns) + rotations
    {
      hide RbShape.At, ShortFocus, AllItems, RedBlack, Focused;
      temp, c, t, done, rotations := temp0, c0, t0, false, 0;
      SiblingsR(c, t, temp);
      var w := temp.parent.left;
      if !w.right.red && !w.left.red {
        ghost var s := DroppedR(c, t);
        temp := DropR(temp, c, t);
        c, t := c.up, s;
      } else {
        if !w.left.red {
          TurnR(temp, c, t);
          c, rotations := c.(l := TurnedR(c.l)), 1;
        }
        FocusedFacts(c, t, temp);
        BorrowR(temp, c, t);
        ghost var s := BorrowedR(c, t);
        Zip(root, leaf, c.up, s);
        PlugItems(c.up, s);
        temp, c, t, done, rotations := root, Hole, Plug(c.up, s), true, rotations + 1;
        WholeItems(t);
        FocusedWhole(t);
      }
    }

    /** One round of the deletion loop at a right child. */
    method DeleteRoundR(temp0: Node, ghost c0: Ctx, ghost t0: Tree)
      returns (temp: Node, ghost c: Ctx, ghost t: Tree, ghost done: bool, ghost rotations: nat)
      requires Focused(c0, t0, temp0) && ShortFocus(c0, t0) && c0.InR? && !IsRed(t0)
      modifies this`root, this`turns, CtxNodes(c0) + Nodes(t0)
      ensures Focused(c, t, temp)
      ensures AllItems(c, t) == AllItems(c0, t0)
      ensures CtxNodes(c) + Nodes(t) == CtxNodes(c0) + Nodes(t0)
      ensures if done then c.Hole? && RedBlack(t) else ShortFocus(c, t)
      ensures c.Hole? || IsRed(t) || Depth(c) < Depth(c0)
      ensures rotations <= 3 && (rotations > 0 ==> c.Hole? || IsRed(t))
      ensures turns == old(turns) + rotations
    {
      hide RbShape.At, ShortFocus, AllItems, RedBlack, Focused;
      temp, c, t, done, rotations := temp0, c0, t0, false, 0;
      ShortFocusFacts(c, t);
      SiblingsR(c, t, temp);
      var w := temp.parent.left;
      ghost var sunk := 0;
      if w.red {
        SinkR(temp, c, t);
        ghost var s := SunkR(c, t);
        c, sunk := RightOf(RightOf(c.up, s), s.r), 1;
      }
      temp, c, t, done, rotations := SettleR(temp, c, t);
      rotations := rotations + sunk;
    }

    /** One round of the deletion loop. */
    method DeleteRound(temp0: Node, ghost c0: Ctx, ghost t0: Tree)
      returns (temp: Node, ghost c: Ctx, ghost t: Tree, ghost done: bool, ghost rotations: nat)
      requires Focused(c0, t0, temp0) && ShortFocus(c0, t0) && !c0.Hole? && !IsRed(t0)
      modifies this`root, this`turns, CtxNodes(c0) + Nodes(t0)
      ensures Focused(c, t, temp)
      ensures AllItems(c, t) == AllItems(c0, t0)
      ensures CtxNodes(c) + Nodes(t) == CtxNodes(c0) + Nodes(t0)
      ensures if done then c.Hole? && RedBlack(t) else ShortFocus(c, t)
      ensures c.Hole? || IsRed(t) || Depth(c) < Depth(c0)
      ensures rotations <= 3 && (rotations > 0 ==> c.Hole? || IsRed(t))
      ensures turns == old(turns) + rotations
    {
      hide RbShape.At, ShortFocus, AllItems, RedBlack, Focused;
      ShortFocusFacts(c0, t0);
      if c0.InL? { SiblingsL(c0, t0, temp0); } else { SiblingsR(c0, t0, temp0); }
      if temp0 == temp0.parent.left {
        temp, c, t, done, rotations := DeleteRoundL(temp0, c0, t0);
      } else {
        temp, c, t, done, rotations := DeleteRoundR(temp0, c0, t0);
      }
    }

    lemma {:induction false} WholeItems(t: Tree)
      ensures AllItems(Hole, t) == Items(t) && CtxNodes(Hole) + Nodes(t) == Nodes(t)
    {
    }

    lemma FocusedWhole(t: Tree)
      requires At(root, leaf, Hole, t) && !leaf.red
      ensures Focused(Hole, t, root)
    {
    }

    /** `rbnode_set_black(temp)` */
    method BlackenTemp(temp: Node, ghost c: Ctx, ghost t: Tree, ghost done: bool) returns (ghost w: Tree)
      requires Focused(c, t, temp) && (c.Hole? || IsRed(t))
      requires if done then c.Hole? && RedBlack(t) else ShortFocus(c, t)
      modifies temp`red
      ensures At(root, leaf, Hole, w) && RedBlack(w)
      ensures Items(w) == AllItems(c, t) && Nodes(w) == CtxNodes(c) + Nodes(t) && !leaf.red
    {
      if !done { DeletionDone(c, t); }
      FocusedFacts(c, t, temp);
      ghost var s := Blackened(t);
      assert Items(s) == Items(t) && Nodes(s) == Nodes(t);
      assert done ==> s == t;
      hide RbShape.At, ShortFocus, RedBlack;
      if temp == leaf {
        temp.red := false;
      } else {
        SetColor(temp, false, c, t);
      }
      Zip(root, leaf, c, s);
      PlugItems(c, s);
      w := Plug(c, s);
    }

    /** The in-order successor of a node with two children: the leftmost node on its right. */
    method Successor(node: Node, ghost c: Ctx, ghost t: Tree) returns (subst: Node, ghost inner: Ctx, ghost s: Tree)
      requires At(root, leaf, c, t) && t.Bin? && node == t.n && t.r.Bin?
      ensures t.r == Plug(inner, s) && s.Bin? && s.l.Leaf? && subst == s.n && Before(inner) == []
      ensures At(root, leaf, c, t) && At(root, leaf, SuccessorCtx(c, t, inner), s)
      ensures subst.right == Top(s.r, leaf)
    {
      hide RbShape.At, Items, Nodes, CtxNodes, AllItems;
      ghost var base := RightOf(c, t);
      Here(root, leaf, c, t);
      DownR(c, t);
      subst, inner, s := node.right, Hole, t.r;
      Here(root, leaf, base, s);
      while subst.left != leaf
        invariant t.r == Plug(inner, s) && s.Bin? && subst == s.n && Before(inner) == []
        invariant At(root, leaf, c, t) && At(root, leaf, Comp(inner, base), s)
        invariant subst.left == Top(s.l, leaf) && subst.right == Top(s.r, leaf)
        decreases s
      {
        DownL(Comp(inner, base), s);
        subst, inner, s := subst.left, LeftOf(inner, s), s.l;
        Here(root, leaf, Comp(inner, base), s);
      }
      LeafTop(Comp(inner, base), s);
    }

    lemma LeafTop(c: Ctx, t: Tree)
      requires At(root, leaf, c, t) && t.Bin?
      ensures Top(t.l, leaf) == leaf <==> t.l.Leaf?
      ensures Top(t.r, leaf) == leaf <==> t.r.Leaf?
    {
    }

    /** `subst == node`: the node has at most one child, which moves up. */
    method DetachNode(node: Node, temp: Node, ghost c: Ctx, ghost t: Tree, ghost s: Tree)
      requires At(root, leaf, c, t) && !c.Hole? && t.Bin? && node == t.n && temp == Top(s, leaf) && !leaf.red
      requires (t.l.Leaf? && s == t.r) || (t.r.Leaf? && s == t.l)
      modifies {c.n}, temp`parent
      ensures Focused(c, s, temp)
    {
      Here(root, leaf, c, t);
      assert c.n in CtxNodes(c);
      Unlink(root, leaf, node, temp, c, t, s);
      AdoptTemp(leaf, temp, node.parent, c, s);
      FocusedAt(c, s, temp);
    }

    /** `subst != node`, first half: the successor is unlinked, and its child hung in its place. */
    method PullOut(node: Node, subst: Node, temp: Node, ghost c: Ctx, ghost t: Tree, ghost inner: Ctx, ghost s: Tree)
      requires t.Bin? && node == t.n && leaf !in CtxNodes(c) + Nodes(t) && Distinct(t)
      requires t.r == Plug(inner, s) && s.Bin? && s.l.Leaf? && subst == s.n && temp == Top(s.r, leaf)
      requires At(root, leaf, SuccessorCtx(c, t, inner), s)
      modifies CtxNodes(c) + Nodes(t), leaf`parent
      ensures var w := Bin(t.l, node, t.red, t.v, Plug(inner, s.r));
        && Apart(c, w, leaf) && root == RootOf(c, node)
        && Holds(OpenSnap(RightOf(c, w), w.r, leaf))
        && subst !in CtxNodes(c) + Nodes(w) && CtxNodes(c) + Nodes(w) <= CtxNodes(c) + Nodes(t)
      ensures subst in Nodes(t) && subst != leaf && subst.value == s.v
      ensures temp == leaf ==> leaf.parent == if inner.Hole? then subst else inner.n
    {
      ghost var d := SuccessorCtx(c, t, inner);
      ghost var w := Bin(t.l, node, t.red, t.v, Plug(inner, s.r));
      SuccessorCover(c, t, inner, s);
      SuccessorCover(c, w, inner, s.r);
      Here(root, leaf, d, s);
      Unlink(root, leaf, subst, temp, d, s, s.r);
      InnerBelow(inner, s);
      hide RbShape.At, Apart, Holds, OpenSnap, Snap;
      if subst.parent == node {
        AdoptTemp(leaf, temp, subst, d, s.r);
      } else {
        AdoptTemp(leaf, temp, subst.parent, d, s.r);
      }
      PulledOut(c, w, inner, s.r);
      assert subst !in CtxNodes(d) + Nodes(s.r);
    }

    lemma {:induction false} InnerBelow(inner: Ctx, s: Tree)
      ensures !inner.Hole? ==> inner.n in Nodes(Plug(inner, s))
    {
      PlugItems(inner, s);
    }

    /** The focus moved from the successor's old place back up to the node. */
    lemma {:induction false} PulledOut(c: Ctx, w: Tree, inner: Ctx, s: Tree)
      requires w.Bin? && w.r == Plug(inner, s)
      requires Apart(SuccessorCtx(c, w, inner), s, leaf)
      requires root == RootOf(SuccessorCtx(c, w, inner), Top(s, leaf))
      requires Holds(if inner.Hole? then OpenSnap(RightOf(c, w), s, leaf) else Snap(SuccessorCtx(c, w, inner), s, leaf))
      ensures Apart(c, w, leaf) && root == RootOf(c, w.n)
      ensures Holds(OpenSnap(RightOf(c, w), w.r, leaf))
    {
      Refocus(leaf, RightOf(c, w), inner, s);
      StepR(leaf, c, w);
      if !inner.Hole? {
        OpenSnapOf(RightOf(c, w), w.r, leaf);
        Weaken(OpenSnap(RightOf(c, w), w.r, leaf), Snap(RightOf(c, w), w.r, leaf));
      }
    }

    /** `subst != node`: the successor moves up into the place of the node. */
    method DetachSuccessor(node: Node, subst: Node, temp: Node, ghost c: Ctx, ghost t: Tree, ghost inner: Ctx,
                           ghost s: Tree)
      requires At(root, leaf, c, t) && t.Bin? && node == t.n && !leaf.red
      requires t.r == Plug(inner, s) && s.Bin? && s.l.Leaf? && subst == s.n && temp == Top(s.r, leaf)
      requires At(root, leaf, SuccessorCtx(c, t, inner), s)
      modifies this`root, CtxNodes(c) + Nodes(t), leaf`parent
      ensures Focused(SuccessorCtx(c, Bin(t.l, s.n, t.red, s.v, t.r), inner), s.r, temp)
    {
      ghost var w := Bin(t.l, node, t.red, t.v, Plug(inner, s.r));
      ghost var w' := Renamed(w, subst, s.v);
      assert leaf !in CtxNodes(c) + Nodes(t) && Distinct(t);
      hide RbShape.At, Apart, Holds, OpenSnap, Snap;
      PullOut(node, subst, temp, c, t, inner, s);
      root := Graft(root, leaf, node, subst, c, w);
      DownR(c, w');
      FocusDown(RightOf(c, w'), inner, s.r);
      SuccessorCover(c, w', inner, s.r);
      FocusedAt(Comp(inner, RightOf(c, w')), s.r, temp);
    }

    lemma {:induction false} FocusDown(outer: Ctx, inner: Ctx, t: Tree)
      requires At(root, leaf, outer, Plug(inner, t))
      ensures At(root, leaf, Comp(inner, outer), t)
    {
      Refocus(leaf, outer, inner, t);
    }

    /** `subst == tr->root`: the only child, if any, becomes the black root. */
    method PopRoot(node: Node, temp: Node, ghost t: Tree, ghost s: Tree)
      requires At(root, leaf, Hole, t) && RedBlack(t) && t.Bin? && node == t.n && temp == Top(s, leaf) && !leaf.red
      requires (t.l.Leaf? && s == t.r) || (t.r.Leaf? && s == t.l)
      modifies this`root, temp`red
      ensures At(root, leaf, Hole, Blackened(s)) && RedBlack(Blackened(s)) && !leaf.red
      ensures Items(Blackened(s)) == Items(s) && Nodes(Blackened(s)) == Nodes(s)
    {
      OnlyChild(t, s);
      assert leaf !in Nodes(t);
      SplicedSnap(Hole, t, s, leaf);
      Weaken(OpenSnap(Hole, s, leaf), Snap(Hole, t, leaf));
      assert OpenSnap(Hole, s, leaf) == Snap(Hole, s, leaf);
      root := temp;
      if temp == leaf {
        temp.red := false;
      } else {
        SetColor(temp, false, Hole, s);
      }
    }

    /** The end of a deletion: nothing to do if a red node was unlinked, else rebalance. */
    method FinishPop(temp: Node, red: bool, ghost d: Ctx, ghost s: Tree) returns (ghost w: Tree, ghost rotations: nat)
      requires Focused(d, s, temp)
      requires red ==> RedBlack(Plug(d, s))
      requires !red ==> ShortFocus(d, s)
      modifies this`root, this`turns, CtxNodes(d) + Nodes(s), leaf`red
      ensures At(root, leaf, Hole, w) && RedBlack(w) && !leaf.red
      ensures Items(w) == AllItems(d, s) && Nodes(w) == CtxNodes(d) + Nodes(s)
      ensures rotations <= 3
      ensures turns == old(turns) + rotations
    {
      hide RbShape.At, RedBlack, ShortFocus;
      FocusedFacts(d, s, temp);
      if red {
        Zip(root, leaf, d, s);
        PlugItems(d, s);
        w, rotations := Plug(d, s), 0;
      } else {
        w, rotations := RebalanceDelete(temp, d, s);
      }
    }

    /** `subst == tr->root`, as a step on the whole tree. */
    method PopAtRoot(node: Node, temp: Node, ghost c: Ctx, ghost t: Tree, ghost s: Tree) returns (ghost w: Tree)
      requires At(root, leaf, c, t) && RedBlack(Plug(c, t)) && t.Bin? && node == t.n && temp == Top(s, leaf)
      requires !leaf.red
      requires (t.l.Leaf? && s == t.r) || (t.r.Leaf? && s == t.l)
      requires node == root
      modifies this`root, CtxNodes(c) + Nodes(t), leaf`red
      ensures At(root, leaf, Hole, w) && RedBlack(w) && !leaf.red
      ensures Items(w) == (Before(c) + Items(t.l)) + (Items(t.r) + After(c))
      ensures Nodes(w) == CtxNodes(c) + Nodes(t.l) + Nodes(t.r)
    {
      hide RbShape.At, RedBlack;
      UnlinkItems(c, t, s);
      Around(c, t);
      assert c == Hole && Nodes(s) <= Nodes(t);
      PopRoot(node, temp, t, s);
      w := Blackened(s);
    }

    /** The node has at most one child. */
    method PopOne(node: Node, temp: Node, ghost c: Ctx, ghost t: Tree, ghost s: Tree)
      returns (ghost w: Tree, ghost rotations: nat)
      requires At(root, leaf, c, t) && RedBlack(Plug(c, t)) && t.Bin? && node == t.n && temp == Top(s, leaf)
      requires !leaf.red
      requires (t.l.Leaf? && s == t.r) || (t.r.Leaf? && s == t.l)
      modifies this`root, this`turns, this`length, CtxNodes(c) + Nodes(t), leaf`red, leaf`parent
      ensures At(root, leaf, Hole, w) && RedBlack(w) && !leaf.red && length == old(length) - 1
      ensures Items(w) == (Before(c) + Items(t.l)) + (Items(t.r) + After(c))
      ensures Nodes(w) == CtxNodes(c) + Nodes(t.l) + Nodes(t.r)
      ensures rotations <= 3
      ensures turns == old(turns) + rotations
    {
      hide RbShape.At, RedBlack, ShortFocus, Items, AllItems, Nodes, CtxNodes, Before, After;
      UnlinkKeeps(c, t, s);
      UnlinkItems(c, t, s);
      Here(root, leaf, c, t);
      if node == root {
        length := length - 1;
        w := PopAtRoot(node, temp, c, t, s);
        rotations := 0;
        return;
      }
      InSlot(c, t);
      ChildNodes(t);
      var red := node.red;
      DetachNode(node, temp, c, t, s);
      length := length - 1;
      w, rotations := FinishPop(temp, red, c, s);
    }

    /** The node has two children, and its successor takes its place. */
    method PopTwo(node: Node, ghost c: Ctx, ghost t: Tree) returns (ghost w: Tree, ghost rotations: nat)
      requires At(root, leaf, c, t) && RedBlack(Plug(c, t)) && t.Bin? && node == t.n && !leaf.red
      requires t.r.Bin?
      modifies this`root, this`turns, this`length, CtxNodes(c) + Nodes(t), leaf`red, leaf`parent
      ensures At(root, leaf, Hole, w) && RedBlack(w) && !leaf.red && length == old(length) - 1
      ensures Items(w) == (Before(c) + Items(t.l)) + (Items(t.r) + After(c))
      ensures Nodes(w) == CtxNodes(c) + Nodes(t.l) + Nodes(t.r)
      ensures rotations <= 3
      ensures turns == old(turns) + rotations
    {
      hide RbShape.At, RedBlack, ShortFocus, AllItems, Items;
      ghost var inner, s;
      var subst;
      subst, inner, s := Successor(node, c, t);
      var temp := subst.right;
      SuccessorKeeps(c, t, inner, s);
      SuccessorItems(c, t, inner, s);
      Here(root, leaf, SuccessorCtx(c, t, inner), s);
      var red := subst.red;
      DetachSuccessor(node, subst, temp, c, t, inner, s);
      length := length - 1;
      w, rotations := FinishPop(temp, red, SuccessorCtx(c, Bin(t.l, s.n, t.red, s.v, t.r), inner), s.r);
    }

    /** The node leaves the chain of links, whatever children it has. */
    method TakeOut(node: Node, ghost c: Ctx, ghost t: Tree) returns (ghost w: Tree, ghost rotations: nat)
      requires At(root, leaf, c, t) && RedBlack(Plug(c, t)) && t.Bin? && node == t.n && !leaf.red
      modifies this`root, this`turns, this`length, CtxNodes(c) + Nodes(t), leaf`red, leaf`parent
      ensures At(root, leaf, Hole, w) && RedBlack(w) && !leaf.red && length == old(length) - 1
      ensures Items(w) == (Before(c) + Items(t.l)) + (Items(t.r) + After(c))
      ensures Nodes(w) == CtxNodes(c) + Nodes(t.l) + Nodes(t.r)
      ensures rotations <= 3
      ensures turns == old(turns) + rotations
    {
      hide RbShape.At, RedBlack, Nodes, CtxNodes, Items, Before, After, Plug;
      LeafTop(c, t);
      Here(root, leaf, c, t);
      if node.left == leaf {
        w, rotations := PopOne(node, node.right, c, t, t.r);
      } else if node.right == leaf {
        w, rotations := PopOne(node, node.left, c, t, t.l);
      } else {
        w, rotations := PopTwo(node, c, t);
      }
    }

    method FastPop(node: Node, ghost c: Ctx, ghost t: Tree) returns (ret: Value, ghost rotations: nat)
      requires Shaped() && RedBlack(tree)
      requires At(root, leaf, c, t) && Plug(c, t) == tree && t.Bin? && node == t.n
      modifies this`root, this`turns, this`length, this`tree, nodes, leaf`red, leaf`parent
      ensures At(root, leaf, Hole, tree) && RedBlack(tree) && !leaf.red
      ensures Nodes(tree) == nodes - {node}
      ensures Items(tree) == (Before(c) + Items(t.l)) + (Items(t.r) + After(c))
      ensures ret == t.v && length == old(length) - 1
      ensures rotations <= 3
      ensures turns == old(turns) + rotations
    {
      hide RedBlack, Nodes, CtxNodes, Items, Before, After, Plug;
      PlugItems(c, t);
      Here(root, leaf, c, t);
      Without(c, t);
      ret := node.value;
      tree, rotations := TakeOut(node, c, t);
    }

    lemma {:induction false} ChildNodes(t: Tree)
      requires t.Bin?
      ensures Nodes(t.l) <= Nodes(t) && Nodes(t.r) <= Nodes(t)
      ensures (t.l.Bin? ==> t.l.n in Nodes(t)) && (t.r.Bin? ==> t.r.n in Nodes(t))
    {
    }

    lemma {:induction false} Without(c: Ctx, t: Tree)
      requires At(root, leaf, c, t) && t.Bin?
      ensures CtxNodes(c) + Nodes(t.l) + Nodes(t.r) == CtxNodes(c) + Nodes(t) - {t.n}
      ensures leaf !in CtxNodes(c) + Nodes(t)
    {
    }

    method CloseNode(node: Node)
      requires node in nodes
      modifies this`nodes
      ensures nodes == old(nodes) - {node}
    {
      nodes := nodes - {node};
    }

    /** `rbtree_fast_pop` and `rbtree_close_node`. */
    method Remove(node: Node, ghost c: Ctx, ghost t: Tree) returns (ret: Value)
      requires Shaped() && RedBlack(tree) && node in nodes
      requires At(root, leaf, c, t) && Plug(c, t) == tree && t.Bin? && node == t.n
      modifies this, nodes, leaf`red, leaf`parent
      ensures Shaped() && RedBlack(tree) && nodes == old(nodes) - {node}
      ensures Items(tree) == (Before(c) + Items(t.l)) + (Items(t.r) + After(c))
      ensures ret == t.v && length == old(length) - 1 && turns <= old(turns) + 3
    {
      hide RedBlack, Items, Before, After, Plug;
      assert leaf !in nodes;
      ghost var rotations;
      ret, rotations := FastPop(node, c, t);
      CloseNode(node);
    }

    method Pop(key: Value) returns (value: Value, ok: bool)
      requires Valid()
      modifies this, nodes, leaf
      ensures Valid() && nodes <= old(nodes)
      ensures ok <==> key.key in old(Contents())
      ensures value == if ok then old(Contents())[key.key] else EMPTY_VALUE
      ensures Contents() == old(Contents()) - {key.key}
      ensures Stays(old(Items(tree)), Items(tree), key.key)
      ensures turns <= old(turns) + 3
    {
      hide RbShape.At, RedBlack, Sorted, Stays, Between, AllItems, MapOf;
      var where, _, c, t := FastGet(key);
      var search := Deref(where);
      PlugItems(c, t);
      FoundOrNot(key, c, t);
      if search == leaf {
        StaysSame(Items(tree), key.key);
        return EMPTY_VALUE, false;
      }
      SplitItems(c, t);
      DeleteItem(Before(c) + Items(t.l), Item(t.n, t.v), Items(t.r) + After(c));
      value := Remove(search, c, t);
      ok := true;
    }
  }
}
