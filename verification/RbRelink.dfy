/** Hanging a node in a slot, taking one out, and letting the in-order successor take the place
    of a deleted node. */
module RbRelink {
  import opened Values
  import opened RbShape

  /** The slot in which the focus hangs: `&tr->root`, `&n->left` or `&n->right`. */
  datatype Slot = RootSlot | LeftSlot(of: Node) | RightSlot(of: Node)

  ghost function SlotOf(c: Ctx): Slot {
    match c
    case Hole => RootSlot
    case InL(_, n, _, _, _) => LeftSlot(n)
    case InR(_, _, n, _, _) => RightSlot(n)
  }

  /** The cells after `x` has been hung in the hole of `c`. */
  ghost function Hung(c: Ctx, m: map<Node?, Cell>, x: Node?): map<Node?, Cell>
    requires !c.Hole? ==> c.n in m
  {
    match c
    case Hole => m
    case InL(_, n, _, _, _) => m[n := m[n].(left := x)]
    case InR(_, _, n, _, _) => m[n := m[n].(right := x)]
  }

  lemma {:induction false} HungCell(c: Ctx, t: Tree, x: Node, leaf: Node, n: Node)
    requires CtxDistinct(c) && n in CtxNodes(c) && n !in Nodes(t)
    ensures Hung(c, OpenSnap(c, t, leaf), x)[n] == CtxCell(c, x, leaf, n) || n == leaf
    ensures Hung(c, Snap(c, t, leaf), x)[n] == CtxCell(c, x, leaf, n)
  {
    CtxCellHole(c, Top(t, leaf), x, leaf, n);
  }

  /** `*where = x` */
  method StoreSlot(root: Node?, where: Slot, x: Node, ghost c: Ctx, ghost m: map<Node?, Cell>) returns (root': Node?)
    requires Holds(m) && where == SlotOf(c) && (!c.Hole? ==> c.n in m)
    modifies if c.Hole? then {} else {c.n}
    ensures Holds(Hung(c, m, x)) && root' == if c.Hole? then x else root
  {
    root' := root;
    match where
    case RootSlot => root' := x;
    case LeftSlot(n) => SetLeft(n, x, m);
    case RightSlot(n) => SetRight(n, x, m);
  }

  /** Hanging a fresh red node in an empty slot. */
  lemma {:induction false} LinkedSnap(c: Ctx, x: Node, v: Value, leaf: Node)
    requires Apart(c, Leaf, leaf) && x !in CtxNodes(c) && x != leaf
    ensures var t := Bin(Leaf, x, true, v, Leaf);
      && Apart(c, t, leaf)
      && Snap(c, t, leaf) == Hung(c, Snap(c, Leaf, leaf), x)[x := Cell(v, true, Above(c), leaf, leaf)]
  {
    var t := Bin(Leaf, x, true, v, Leaf);
    assert Nodes(t) == {x};
    forall n | n in CtxNodes(c) {
      HungCell(c, Leaf, x, leaf, n);
    }
  }

  /** Hangs the fresh red `node` in the empty slot `where`. */
  method Link(root: Node, leaf: Node, where: Slot, node: Node, ghost c: Ctx) returns (root': Node?)
    requires At(root, leaf, c, Leaf) && where == SlotOf(c)
    requires node !in CtxNodes(c) && node != leaf
    requires node.left == leaf && node.right == leaf && node.red && node.parent == Above(c)
    modifies CtxNodes(c)
    ensures root' != null && At(root', leaf, c, Bin(Leaf, node, true, node.value, Leaf))
  {
    ghost var m := Snap(c, Leaf, leaf);
    SnapAt(c, Leaf, leaf);
    root' := StoreSlot(root, where, node, c, m);
    LinkedSnap(c, node, node.value, leaf);
    if !c.Hole? { RootInContext(c, leaf); }
    assert Holds(Hung(c, m, node)[node := Cell(node.value, true, Above(c), leaf, leaf)]);
  }

  lemma {:induction false} SplicedCell(c: Ctx, t: Tree, s: Tree, leaf: Node, n: Node)
    requires Apart(c, t, leaf) && t.Bin?
    requires (t.l.Leaf? && s == t.r) || (t.r.Leaf? && s == t.l)
    requires n in CtxNodes(c) + Nodes(s)
    ensures n in CtxNodes(c) ==> CtxCell(c, Top(s, leaf), leaf, n) == Hung(c, Snap(c, t, leaf), Top(s, leaf))[n]
    ensures n in Nodes(s) ==> n in Nodes(t) && CellAt(c, t, leaf, n) == TreeCell(s, t.n, leaf, n)
    ensures n in Nodes(s) && n != Top(s, leaf) ==> TreeCell(s, t.n, leaf, n) == TreeCell(s, Above(c), leaf, n)
    ensures n in Nodes(s) ==>
      TreeCell(s, t.n, leaf, n).(parent := null) == TreeCell(s, Above(c), leaf, n).(parent := null)
  {
    if n in CtxNodes(c) { HungCell(c, t, Top(s, leaf), leaf, n); }
  }

  /** Taking the focused node out and hanging its only subtree in its place. The parent of the
      subtree's top is left open. */
  lemma SplicedSnap(c: Ctx, t: Tree, s: Tree, leaf: Node)
    requires Apart(c, t, leaf) && t.Bin?
    requires (t.l.Leaf? && s == t.r) || (t.r.Leaf? && s == t.l)
    ensures Apart(c, s, leaf)
    ensures var m := OpenSnap(c, s, leaf); var m' := Hung(c, Snap(c, t, leaf), Top(s, leaf));
      && m.Keys <= m'.Keys
      && forall n: Node :: n in m ==> m[n] == m'[n] || m[n] == m'[n].(parent := null)
  {
    assert !c.Hole? ==> c.n in CtxNodes(c);
    forall n | n in CtxNodes(c) + Nodes(s) {
      SplicedCell(c, t, s, leaf, n);
    }
  }

  lemma Weaken(m: map<Node?, Cell>, m': map<Node?, Cell>)
    requires Holds(m') && m.Keys <= m'.Keys
    requires forall n: Node :: n in m ==> m[n] == m'[n] || m[n] == m'[n].(parent := null)
    ensures Holds(m)
  {
  }

  lemma OpenSnapOf(c: Ctx, t: Tree, leaf: Node)
    ensures var m, m' := OpenSnap(c, t, leaf), Snap(c, t, leaf);
      && m.Keys == m'.Keys
      && forall n: Node :: n in m ==> m[n] == m'[n] || m[n] == m'[n].(parent := null)
  {
  }

  // ---------------------------------------------------------------- relinking the successor

  ghost predicate CanGraft(m: map<Node?, Cell>, root: Node?, leaf: Node, node: Node, subst: Node) {
    && node in m && subst !in m && leaf !in m && subst != leaf
    && var l := m[node].left;
       var r := m[node].right;
       var p := m[node].parent;
       && (l != leaf ==> l in m && l != node)
       && (r != leaf ==> r in m && r != node && r != l)
       && (node == root ==> p == null)
       && (node != root ==> p != null && p in m && p != node && p != l && p != r)
  }

  ghost function Grafted(m: map<Node?, Cell>, root: Node?, leaf: Node, node: Node, subst: Node, v: Value)
    : map<Node?, Cell>
    requires CanGraft(m, root, leaf, node, subst)
  {
    var l := m[node].left;
    var r := m[node].right;
    var p := m[node].parent;
    var m1 := m[subst := Cell(v, m[node].red, p, l, r)];
    var m2 := if node == root then m1
              else if m1[p].left == node then m1[p := m1[p].(left := subst)]
              else m1[p := m1[p].(right := subst)];
    var m3 := if l != leaf then m2[l := m2[l].(parent := subst)] else m2;
    var m4 := if r != leaf then m3[r := m3[r].(parent := subst)] else m3;
    m4 - {node}
  }

  /** `subst` takes over the links and the packed parent and colour of `node`. */
  method TakeOver(node: Node, subst: Node, ghost m: map<Node?, Cell>)
    requires Holds(m) && node in m && subst !in m
    modifies subst
    ensures Holds(m[subst := m[node].(value := subst.value)])
    ensures subst.value == old(subst.value) && subst.left == node.left && subst.right == node.right
  {
    subst.left := node.left;
    subst.right := node.right;
    subst.parent, subst.red := node.parent, node.red;
  }

  /** `subst` takes over the links, colour and place of `node`. */
  method GraftCells(root: Node?, leaf: Node, node: Node, subst: Node, ghost m: map<Node?, Cell>) returns (root': Node?)
    requires Holds(m) && CanGraft(m, root, leaf, node, subst)
    modifies m.Keys, subst
    ensures Holds(Grafted(m, root, leaf, node, subst, old(subst.value)))
    ensures root' == if node == root then subst else root
  {
    ghost var v := subst.value;
    TakeOver(node, subst, m);
    ghost var k := m[subst := Cell(v, m[node].red, m[node].parent, m[node].left, m[node].right)];
    root' := root;
    if node == root {
      root' := subst;
    } else if node == node.parent.left {
      SetLeft(node.parent, subst, k);
      k := k[node.parent := k[node.parent].(left := subst)];
    } else {
      SetRight(node.parent, subst, k);
      k := k[node.parent := k[node.parent].(right := subst)];
    }
    if subst.left != leaf {
      SetParent(subst.left, subst, k);
      k := k[subst.left := k[subst.left].(parent := subst)];
    }
    if subst.right != leaf {
      SetParent(subst.right, subst, k);
      k := k[subst.right := k[subst.right].(parent := subst)];
    }
  }

  /** The cell of `n` once `subst` has replaced `node` between `p` above and `l`, `r` below. */
  ghost function GraftCell(was: Cell, node: Node, subst: Node, l: Node?, r: Node?, p: Node?, leaf: Node, n: Node?)
    : Cell
  {
    if n != leaf && (n == l || n == r) then was.(parent := subst)
    else if n == p then (if was.left == node then was.(left := subst) else was.(right := subst))
    else was
  }

  lemma GraftedAt(m: map<Node?, Cell>, root: Node?, leaf: Node, node: Node, subst: Node, v: Value)
    requires CanGraft(m, root, leaf, node, subst)
    ensures var m' := Grafted(m, root, leaf, node, subst, v);
      var l, r, p := m[node].left, m[node].right, m[node].parent;
      && m'.Keys == m.Keys - {node} + {subst}
      && m'[subst] == Cell(v, m[node].red, p, l, r)
      && forall n: Node :: n in m && n != node ==> m'[n] == GraftCell(m[n], node, subst, l, r, p, leaf, n)
  {
  }

  ghost function Renamed(t: Tree, subst: Node, v: Value): Tree
    requires t.Bin?
  {
    Bin(t.l, subst, t.red, v, t.r)
  }

  lemma {:induction false} CanGraftSnap(root: Node, leaf: Node, c: Ctx, t: Tree, subst: Node)
    requires Apart(c, t, leaf) && root == RootOf(c, Top(t, leaf)) && t.Bin?
    requires subst !in CtxNodes(c) + Nodes(t) && subst != leaf
    ensures var m := OpenSnap(RightOf(c, t), t.r, leaf);
      && m.Keys == CtxNodes(c) + Nodes(t)
      && CanGraft(m, root, leaf, t.n, subst)
      && m[t.n] == Cell(t.v, t.red, Above(c), Top(t.l, leaf), Top(t.r, leaf))
  {
    StepR(leaf, c, t);
    if !c.Hole? { RootInContext(c, t.n); }
  }

  lemma {:induction false} GraftedCell(leaf: Node, c: Ctx, t: Tree, subst: Node, v: Value, n: Node)
    requires Apart(c, t, leaf) && t.Bin?
    requires subst !in CtxNodes(c) + Nodes(t) && subst != leaf
    requires n in CtxNodes(c) + Nodes(t) && n != t.n
    ensures var d := RightOf(c, t);
      var was := if n == Top(t.r, leaf) then CellAt(d, t.r, leaf, n).(parent := null) else CellAt(d, t.r, leaf, n);
      CellAt(c, Renamed(t, subst, v), leaf, n) ==
      GraftCell(was, t.n, subst, Top(t.l, leaf), Top(t.r, leaf), Above(c), leaf, n)
  {
    var s := Renamed(t, subst, v);
    assert Above(c) == null || Above(c) in CtxNodes(c);
    if n in CtxNodes(c) {
      CtxCellHole(c, t.n, subst, leaf, n);
    } else if n in Nodes(t.l) {
      assert CellAt(c, s, leaf, n) == TreeCell(t.l, subst, leaf, n);
    } else {
      assert CellAt(c, s, leaf, n) == TreeCell(t.r, subst, leaf, n);
    }
  }

  lemma {:induction false} GraftedApart(leaf: Node, c: Ctx, t: Tree, subst: Node, v: Value)
    requires Apart(c, t, leaf) && t.Bin? && subst !in CtxNodes(c) + Nodes(t) && subst != leaf
    ensures Apart(c, Renamed(t, subst, v), leaf)
    ensures CtxNodes(c) + Nodes(Renamed(t, subst, v)) == CtxNodes(c) + Nodes(t) - {t.n} + {subst}
  {
  }

  lemma {:induction false} GraftedMap(leaf: Node, c: Ctx, t: Tree, subst: Node, v: Value, m: map<Node?, Cell>,
                                      m': map<Node?, Cell>)
    requires Apart(c, t, leaf) && t.Bin?
    requires subst !in CtxNodes(c) + Nodes(t) && subst != leaf
    requires m == OpenSnap(RightOf(c, t), t.r, leaf) && m.Keys == CtxNodes(c) + Nodes(t)
    requires m'.Keys == m.Keys - {t.n} + {subst}
    requires m'[subst] == Cell(v, t.red, Above(c), Top(t.l, leaf), Top(t.r, leaf))
    requires forall n: Node :: n in m && n != t.n ==>
      m'[n] == GraftCell(m[n], t.n, subst, Top(t.l, leaf), Top(t.r, leaf), Above(c), leaf, n)
    ensures Apart(c, Renamed(t, subst, v), leaf)
    ensures Snap(c, Renamed(t, subst, v), leaf) == m'
  {
    var s := Renamed(t, subst, v);
    GraftedApart(leaf, c, t, subst, v);
    hide Distinct, CtxDistinct;
    forall n | n in CtxNodes(c) + Nodes(s)
      ensures n in m' && CellAt(c, s, leaf, n) == m'[n]
    {
      if n != subst { GraftedCell(leaf, c, t, subst, v, n); }
    }
  }

  lemma {:induction false} GraftedSnap(root: Node, leaf: Node, c: Ctx, t: Tree, subst: Node, v: Value)
    requires Apart(c, t, leaf) && root == RootOf(c, Top(t, leaf)) && t.Bin?
    requires subst !in CtxNodes(c) + Nodes(t) && subst != leaf
    ensures var m := OpenSnap(RightOf(c, t), t.r, leaf);
      && CanGraft(m, root, leaf, t.n, subst)
      && Apart(c, Renamed(t, subst, v), leaf)
      && Snap(c, Renamed(t, subst, v), leaf) == Grafted(m, root, leaf, t.n, subst, v)
  {
    CanGraftSnap(root, leaf, c, t, subst);
    var m := OpenSnap(RightOf(c, t), t.r, leaf);
    GraftedAt(m, root, leaf, t.n, subst, v);
    GraftedMap(leaf, c, t, subst, v, m, Grafted(m, root, leaf, t.n, subst, v));
  }

  // ---------------------------------------------------------------- the steps of a deletion

  /** The parent of `subst` points past it, to its only child. */
  method Unlink(root: Node, leaf: Node, subst: Node, temp: Node, ghost c: Ctx, ghost t: Tree, ghost s: Tree)
    requires At(root, leaf, c, t) && !c.Hole? && t.Bin? && subst == t.n && temp == Top(s, leaf)
    requires (t.l.Leaf? && s == t.r) || (t.r.Leaf? && s == t.l)
    modifies {c.n}
    ensures Apart(c, s, leaf) && root == RootOf(c, temp) && Holds(OpenSnap(c, s, leaf))
  {
    ghost var m := Snap(c, t, leaf);
    SnapAt(c, t, leaf);
    Here(root, leaf, c, t);
    RootInContext(c, subst);
    assert Fits(c.n, m[c.n]) && m[c.n] == CtxCell(c, subst, leaf, c.n);
    assert c.InR? ==> Top(c.l, leaf) != subst;
    SplicedSnap(c, t, s, leaf);
    if subst == subst.parent.left {
      SetLeft(subst.parent, temp, m);
    } else {
      SetRight(subst.parent, temp, m);
    }
    Weaken(OpenSnap(c, s, leaf), Hung(c, m, temp));
  }

  /** `rbnode_set_parent(temp, p)` where `temp` may be the sentinel. */
  method AdoptTemp(leaf: Node, temp: Node, p: Node, ghost c: Ctx, ghost s: Tree)
    requires Apart(c, s, leaf) && Holds(OpenSnap(c, s, leaf)) && temp == Top(s, leaf)
    modifies temp`parent
    ensures temp.parent == p && Holds(OpenSnap(c, s, leaf))
    ensures p == Above(c) ==> Holds(Snap(c, s, leaf))
  {
    temp.parent := p;
  }

  /** `subst` takes the place of `node`, the top of the focus. */
  method Graft(root: Node, leaf: Node, node: Node, subst: Node, ghost c: Ctx, ghost t: Tree) returns (root': Node?)
    requires Apart(c, t, leaf) && root == RootOf(c, Top(t, leaf)) && t.Bin? && node == t.n
    requires subst !in CtxNodes(c) + Nodes(t) && subst != leaf
    requires Holds(OpenSnap(RightOf(c, t), t.r, leaf))
    modifies CtxNodes(c) + Nodes(t) + {subst}
    ensures root' != null && At(root', leaf, c, Renamed(t, subst, old(subst.value)))
  {
    hide Holds, OpenSnap, CanGraft, Grafted, Snap, Apart;
    CanGraftSnap(root, leaf, c, t, subst);
    GraftedSnap(root, leaf, c, t, subst, subst.value);
    if !c.Hole? { RootInContext(c, node); }
    root' := GraftCells(root, leaf, node, subst, OpenSnap(RightOf(c, t), t.r, leaf));
  }
}
