/** The two rotations: what they do to the cells of the nodes, and that this is exactly the
    rotation of the ghost tree at the focus. */
module RbRotate {
  import opened RbShape

  ghost function RotateL(t: Tree): (r: Tree)
    requires t.Bin? && t.r.Bin?
    ensures Nodes(r) == Nodes(t)
    ensures Distinct(t) ==> Distinct(r)
  {
    var Bin(a, x, xred, xv, Bin(b, y, yred, yv, z)) := t;
    var l := Bin(a, x, xred, xv, b);
    assert Nodes(l) == Nodes(a) + {x} + Nodes(b);
    assert Nodes(t.r) == Nodes(b) + {y} + Nodes(z);
    assert Distinct(t) ==> Distinct(t.r);
    assert Distinct(t) ==> Distinct(l);
    Bin(l, y, yred, yv, z)
  }

  ghost function RotateR(t: Tree): (r: Tree)
    requires t.Bin? && t.l.Bin?
    ensures Nodes(r) == Nodes(t)
    ensures Distinct(t) ==> Distinct(r)
  {
    var Bin(Bin(z, y, yred, yv, b), x, xred, xv, a) := t;
    var r := Bin(b, x, xred, xv, a);
    assert Nodes(r) == Nodes(a) + {x} + Nodes(b);
    assert Nodes(t.l) == Nodes(b) + {y} + Nodes(z);
    assert Distinct(t) ==> Distinct(t.l);
    assert Distinct(t) ==> Distinct(r);
    Bin(z, y, yred, yv, r)
  }

  ghost predicate CanRotateL(m: map<Node?, Cell>, root: Node?, leaf: Node, x: Node) {
    && x in m && m[x].right in m
    && var y := m[x].right;
       var b := m[y].left;
       var p := m[x].parent;
       && y != x && (x == root ==> p == null)
       && (b != leaf ==> b in m && b != x && b != y)
       && (x != root ==> p != null && p in m && p != x && p != y && p != b)
  }

  ghost function RotatedL(m: map<Node?, Cell>, root: Node?, leaf: Node, x: Node): map<Node?, Cell>
    requires CanRotateL(m, root, leaf, x)
  {
    var y := m[x].right;
    var b := m[y].left;
    var p := m[x].parent;
    var m1 := m[x := m[x].(right := b)];
    var m2 := if b == leaf then m1 else m1[b := m1[b].(parent := x)];
    var m3 := m2[y := m2[y].(parent := p)];
    var m4 := if x == root then m3
              else if m3[p].left == x then m3[p := m3[p].(left := y)]
              else m3[p := m3[p].(right := y)];
    var m5 := m4[y := m4[y].(left := x)];
    m5[x := m5[x].(parent := y)]
  }

  method LeftRotateCells(root: Node?, leaf: Node, node: Node, ghost m: map<Node?, Cell>) returns (root': Node?)
    requires Holds(m) && CanRotateL(m, root, leaf, node)
    modifies m.Keys
    ensures Holds(RotatedL(m, root, leaf, node))
    ensures root' == if node == root then m[node].right else root
  {
    ghost var k := m;
    var right := node.right;
    var parent := node.parent;
    SetRight(node, right.left, k);
    k := k[node := k[node].(right := right.left)];
    if right.left != leaf {
      SetParent(right.left, node, k);
      k := k[right.left := k[right.left].(parent := node)];
    }
    SetParent(right, parent, k);
    k := k[right := k[right].(parent := m[node].parent)];
    root' := root;
    if node == root {
      root' := right;
    } else if node == parent.left {
      SetLeft(parent, right, k);
      k := k[parent := k[parent].(left := right)];
    } else {
      SetRight(parent, right, k);
      k := k[parent := k[parent].(right := right)];
    }
    SetLeft(right, node, k);
    k := k[right := k[right].(left := node)];
    SetParent(node, right, k);
  }

  /** What becomes of the cell of `n` when `x` is rotated below `y`, where `b` is `y`'s
      inner subtree and `p` the parent of `x`. */
  ghost function RotCellL(was: Cell, x: Node, y: Node?, b: Node?, p: Node?, leaf: Node, n: Node?): Cell {
    if n == x then was.(right := b, parent := y)
    else if n == y then was.(left := x, parent := p)
    else if n == b && b != leaf then was.(parent := x)
    else if n == p then (if was.left == x then was.(left := y) else was.(right := y))
    else was
  }

  lemma RotatedAtL(m: map<Node?, Cell>, root: Node?, leaf: Node, x: Node)
    requires CanRotateL(m, root, leaf, x)
    ensures var m' := RotatedL(m, root, leaf, x); var y := m[x].right;
      && m'.Keys == m.Keys
      && forall n: Node :: n in m ==> m'[n] == RotCellL(m[n], x, y, m[y].left, m[x].parent, leaf, n)
  {
  }

  lemma {:induction false} RotatedTreeL(t: Tree, p: Node?, leaf: Node, n: Node)
    requires Distinct(t) && leaf !in Nodes(t) && t.Bin? && t.r.Bin? && n in Nodes(t)
    requires p !in Nodes(t)
    ensures TreeCell(RotateL(t), p, leaf, n) ==
            RotCellL(TreeCell(t, p, leaf, n), t.n, t.r.n, Top(t.r.l, leaf), p, leaf, n)
  {
    var Bin(a, x, xred, xv, Bin(b, y, yred, yv, z)) := t;
    assert Nodes(t.r) == Nodes(b) + {y} + Nodes(z) && Distinct(t.r);
    var s := RotateL(t);
    assert Nodes(s.l) == Nodes(a) + {x} + Nodes(b) && Distinct(s.l);
    if n in Nodes(a) {
      assert TreeCell(s.l, y, leaf, n) == TreeCell(a, x, leaf, n);
    } else if n in Nodes(b) {
      assert TreeCell(s.l, y, leaf, n) == TreeCell(b, x, leaf, n);
      assert TreeCell(t.r, x, leaf, n) == TreeCell(b, y, leaf, n);
    } else if n in Nodes(z) {
      assert TreeCell(t.r, x, leaf, n) == TreeCell(z, y, leaf, n);
    } else if n == y {
      assert TreeCell(t.r, x, leaf, n) == Cell(yv, yred, x, Top(b, leaf), Top(z, leaf));
    }
  }

  lemma {:induction false} RotatedCellL(c: Ctx, t: Tree, leaf: Node, n: Node)
    requires Apart(c, t, leaf) && t.Bin? && t.r.Bin? && n in CtxNodes(c) + Nodes(t)
    ensures CellAt(c, RotateL(t), leaf, n) ==
            RotCellL(CellAt(c, t, leaf, n), t.n, t.r.n, Top(t.r.l, leaf), Above(c), leaf, n)
  {
    assert Above(c) == null || Above(c) in CtxNodes(c);
    assert Nodes(t.r.l) <= Nodes(t.r) <= Nodes(t);
    assert t.r.n in Nodes(t.r) && (t.r.l.Bin? ==> t.r.l.n in Nodes(t.r.l));
    if n in Nodes(t) {
      RotatedTreeL(t, Above(c), leaf, n);
    } else {
      CtxCellHole(c, t.n, t.r.n, leaf, n);
    }
  }

  lemma {:induction false} CanRotateSnapL(root: Node, leaf: Node, c: Ctx, t: Tree)
    requires Apart(c, t, leaf) && root == RootOf(c, Top(t, leaf))
    requires t.Bin? && t.r.Bin?
    ensures var m, x := Snap(c, t, leaf), t.n;
      && CanRotateL(m, root, leaf, x)
      && m[x].right == t.r.n && m[x].parent == Above(c) && m[t.r.n].left == Top(t.r.l, leaf)
  {
    var x, y, m := t.n, t.r.n, Snap(c, t, leaf);
    if !c.Hole? { RootInContext(c, x); }
    assert y in Nodes(t.r) && (t.r.l.Bin? ==> t.r.l.n in Nodes(t.r.l) && Nodes(t.r.l) <= Nodes(t.r));
    assert TreeCell(t.r, x, leaf, y).left == Top(t.r.l, leaf);
    assert Distinct(t.r);
  }

  lemma {:induction false} RotatedMapL(leaf: Node, c: Ctx, t: Tree, m': map<Node?, Cell>)
    requires Apart(c, t, leaf) && t.Bin? && t.r.Bin?
    requires m'.Keys == CtxNodes(c) + Nodes(t)
    requires forall n: Node :: n in m' ==>
      m'[n] == RotCellL(CellAt(c, t, leaf, n), t.n, t.r.n, Top(t.r.l, leaf), Above(c), leaf, n)
    ensures Snap(c, RotateL(t), leaf) == m'
  {
    forall n | n in CtxNodes(c) + Nodes(t)
      ensures CellAt(c, RotateL(t), leaf, n) == m'[n]
    {
      RotatedCellL(c, t, leaf, n);
    }
    assert Nodes(RotateL(t)) == Nodes(t);
  }

  lemma {:induction false} RotatedSnapL(root: Node, leaf: Node, c: Ctx, t: Tree)
    requires Apart(c, t, leaf) && root == RootOf(c, Top(t, leaf))
    requires t.Bin? && t.r.Bin?
    ensures CanRotateL(Snap(c, t, leaf), root, leaf, t.n)
    ensures Snap(c, RotateL(t), leaf) == RotatedL(Snap(c, t, leaf), root, leaf, t.n)
  {
    CanRotateSnapL(root, leaf, c, t);
    var m := Snap(c, t, leaf);
    RotatedAtL(m, root, leaf, t.n);
    RotatedMapL(leaf, c, t, RotatedL(m, root, leaf, t.n));
  }

  ghost predicate CanRotateR(m: map<Node?, Cell>, root: Node?, leaf: Node, x: Node) {
    && x in m && m[x].left in m
    && var y := m[x].left;
       var b := m[y].right;
       var p := m[x].parent;
       && y != x && (x == root ==> p == null)
       && (b != leaf ==> b in m && b != x && b != y)
       && (x != root ==> p != null && p in m && p != x && p != y && p != b)
  }

  ghost function RotatedR(m: map<Node?, Cell>, root: Node?, leaf: Node, x: Node): map<Node?, Cell>
    requires CanRotateR(m, root, leaf, x)
  {
    var y := m[x].left;
    var b := m[y].right;
    var p := m[x].parent;
    var m1 := m[x := m[x].(left := b)];
    var m2 := if b == leaf then m1 else m1[b := m1[b].(parent := x)];
    var m3 := m2[y := m2[y].(parent := p)];
    var m4 := if x == root then m3
              else if m3[p].right == x then m3[p := m3[p].(right := y)]
              else m3[p := m3[p].(left := y)];
    var m5 := m4[y := m4[y].(right := x)];
    m5[x := m5[x].(parent := y)]
  }

  method RightRotateCells(root: Node?, leaf: Node, node: Node, ghost m: map<Node?, Cell>) returns (root': Node?)
    requires Holds(m) && CanRotateR(m, root, leaf, node)
    modifies m.Keys
    ensures Holds(RotatedR(m, root, leaf, node))
    ensures root' == if node == root then m[node].left else root
  {
    ghost var k := m;
    var left := node.left;
    var parent := node.parent;
    SetLeft(node, left.right, k);
    k := k[node := k[node].(left := left.right)];
    if left.right != leaf {
      SetParent(left.right, node, k);
      k := k[left.right := k[left.right].(parent := node)];
    }
    SetParent(left, parent, k);
    k := k[left := k[left].(parent := m[node].parent)];
    root' := root;
    if node == root {
      root' := left;
    } else if node == parent.right {
      SetRight(parent, left, k);
      k := k[parent := k[parent].(right := left)];
    } else {
      SetLeft(parent, left, k);
      k := k[parent := k[parent].(left := left)];
    }
    SetRight(left, node, k);
    k := k[left := k[left].(right := node)];
    SetParent(node, left, k);
  }

  /** What becomes of the cell of `n` when `x` is rotated below `y`, where `b` is `y`'s
      inner subtree and `p` the parent of `x`. */
  ghost function RotCellR(was: Cell, x: Node, y: Node?, b: Node?, p: Node?, leaf: Node, n: Node?): Cell {
    if n == x then was.(left := b, parent := y)
    else if n == y then was.(right := x, parent := p)
    else if n == b && b != leaf then was.(parent := x)
    else if n == p then (if was.right == x then was.(right := y) else was.(left := y))
    else was
  }

  lemma RotatedAtR(m: map<Node?, Cell>, root: Node?, leaf: Node, x: Node)
    requires CanRotateR(m, root, leaf, x)
    ensures var m' := RotatedR(m, root, leaf, x); var y := m[x].left;
      && m'.Keys == m.Keys
      && forall n: Node :: n in m ==> m'[n] == RotCellR(m[n], x, y, m[y].right, m[x].parent, leaf, n)
  {
  }

  lemma {:induction false} RotatedTreeR(t: Tree, p: Node?, leaf: Node, n: Node)
    requires Distinct(t) && leaf !in Nodes(t) && t.Bin? && t.l.Bin? && n in Nodes(t)
    requires p !in Nodes(t)
    ensures TreeCell(RotateR(t), p, leaf, n) ==
            RotCellR(TreeCell(t, p, leaf, n), t.n, t.l.n, Top(t.l.r, leaf), p, leaf, n)
  {
    var Bin(Bin(z, y, yred, yv, b), x, xred, xv, a) := t;
    assert Nodes(t.l) == Nodes(b) + {y} + Nodes(z) && Distinct(t.l);
    var s := RotateR(t);
    assert Nodes(s.r) == Nodes(a) + {x} + Nodes(b) && Distinct(s.r);
    if n in Nodes(a) {
      assert TreeCell(s.r, y, leaf, n) == TreeCell(a, x, leaf, n);
    } else if n in Nodes(b) {
      assert TreeCell(s.r, y, leaf, n) == TreeCell(b, x, leaf, n);
      assert TreeCell(t.l, x, leaf, n) == TreeCell(b, y, leaf, n);
    } else if n in Nodes(z) {
      assert TreeCell(t.l, x, leaf, n) == TreeCell(z, y, leaf, n);
    } else if n == y {
      assert TreeCell(t.l, x, leaf, n) == Cell(yv, yred, x, Top(z, leaf), Top(b, leaf));
    }
  }

  lemma {:induction false} RotatedCellR(c: Ctx, t: Tree, leaf: Node, n: Node)
    requires Apart(c, t, leaf) && t.Bin? && t.l.Bin? && n in CtxNodes(c) + Nodes(t)
    ensures CellAt(c, RotateR(t), leaf, n) ==
            RotCellR(CellAt(c, t, leaf, n), t.n, t.l.n, Top(t.l.r, leaf), Above(c), leaf, n)
  {
    assert Above(c) == null || Above(c) in CtxNodes(c);
    assert Nodes(t.l.r) <= Nodes(t.l) <= Nodes(t);
    assert t.l.n in Nodes(t.l) && (t.l.r.Bin? ==> t.l.r.n in Nodes(t.l.r));
    if n in Nodes(t) {
      RotatedTreeR(t, Above(c), leaf, n);
    } else {
      CtxCellHole(c, t.n, t.l.n, leaf, n);
    }
  }

  lemma {:induction false} CanRotateSnapR(root: Node, leaf: Node, c: Ctx, t: Tree)
    requires Apart(c, t, leaf) && root == RootOf(c, Top(t, leaf))
    requires t.Bin? && t.l.Bin?
    ensures var m, x := Snap(c, t, leaf), t.n;
      && CanRotateR(m, root, leaf, x)
      && m[x].left == t.l.n && m[x].parent == Above(c) && m[t.l.n].right == Top(t.l.r, leaf)
  {
    var x, y, m := t.n, t.l.n, Snap(c, t, leaf);
    if !c.Hole? { RootInContext(c, x); }
    assert y in Nodes(t.l) && (t.l.r.Bin? ==> t.l.r.n in Nodes(t.l.r) && Nodes(t.l.r) <= Nodes(t.l));
    assert TreeCell(t.l, x, leaf, y).right == Top(t.l.r, leaf);
    assert Distinct(t.l);
  }

  lemma {:induction false} RotatedMapR(leaf: Node, c: Ctx, t: Tree, m': map<Node?, Cell>)
    requires Apart(c, t, leaf) && t.Bin? && t.l.Bin?
    requires m'.Keys == CtxNodes(c) + Nodes(t)
    requires forall n: Node :: n in m' ==>
      m'[n] == RotCellR(CellAt(c, t, leaf, n), t.n, t.l.n, Top(t.l.r, leaf), Above(c), leaf, n)
    ensures Snap(c, RotateR(t), leaf) == m'
  {
    forall n | n in CtxNodes(c) + Nodes(t)
      ensures CellAt(c, RotateR(t), leaf, n) == m'[n]
    {
      RotatedCellR(c, t, leaf, n);
    }
    assert Nodes(RotateR(t)) == Nodes(t);
  }

  lemma {:induction false} RotatedSnapR(root: Node, leaf: Node, c: Ctx, t: Tree)
    requires Apart(c, t, leaf) && root == RootOf(c, Top(t, leaf))
    requires t.Bin? && t.l.Bin?
    ensures CanRotateR(Snap(c, t, leaf), root, leaf, t.n)
    ensures Snap(c, RotateR(t), leaf) == RotatedR(Snap(c, t, leaf), root, leaf, t.n)
  {
    CanRotateSnapR(root, leaf, c, t);
    var m := Snap(c, t, leaf);
    RotatedAtR(m, root, leaf, t.n);
    RotatedMapR(leaf, c, t, RotatedR(m, root, leaf, t.n));
  }
}
