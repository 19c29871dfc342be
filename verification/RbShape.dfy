/** The nodes of a red-black tree, the ghost tree they spell out, and the zipper
    (a subtree and the context around it) in which every pointer update is local. */
module RbShape {
  import opened Values

  /** `parent` and `red` are the two halves of the packed word of the original. */
  class Node {
    var value: Value
    var red: bool
    var parent: Node?
    var left: Node?
    var right: Node?

    constructor (value: Value, red: bool, parent: Node?, child: Node?)
      ensures this.value == value && this.red == red && this.parent == parent
      ensures left == child && right == child
    {
      this.value, this.red, this.parent := value, red, parent;
      left, right := child, child;
    }
  }

  datatype Tree = Leaf | Bin(l: Tree, n: Node, red: bool, v: Value, r: Tree)

  /** A tree with one subtree cut out. */
  datatype Ctx = Hole
               | InL(up: Ctx, n: Node, red: bool, v: Value, r: Tree)
               | InR(up: Ctx, l: Tree, n: Node, red: bool, v: Value)

  ghost function Plug(c: Ctx, t: Tree): Tree {
    match c
    case Hole => t
    case InL(up, n, red, v, r) => Plug(up, Bin(t, n, red, v, r))
    case InR(up, l, n, red, v) => Plug(up, Bin(l, n, red, v, t))
  }

  /** The context of the left and of the right subtree of `t`, itself at `c`. */
  ghost function LeftOf(c: Ctx, t: Tree): Ctx
    requires t.Bin?
  {
    InL(c, t.n, t.red, t.v, t.r)
  }

  ghost function RightOf(c: Ctx, t: Tree): Ctx
    requires t.Bin?
  {
    InR(c, t.l, t.n, t.red, t.v)
  }

  ghost function Nodes(t: Tree): set<Node> {
    match t
    case Leaf => {}
    case Bin(l, n, _, _, r) => Nodes(l) + {n} + Nodes(r)
  }

  ghost function CtxNodes(c: Ctx): set<Node> {
    match c
    case Hole => {}
    case InL(up, n, _, _, r) => CtxNodes(up) + {n} + Nodes(r)
    case InR(up, l, n, _, _) => CtxNodes(up) + {n} + Nodes(l)
  }

  ghost predicate Distinct(t: Tree) {
    match t
    case Leaf => true
    case Bin(l, n, _, _, r) =>
      && n !in Nodes(l) && n !in Nodes(r) && Nodes(l) !! Nodes(r)
      && Distinct(l) && Distinct(r)
  }

  ghost predicate CtxDistinct(c: Ctx) {
    match c
    case Hole => true
    case InL(up, n, _, _, r) =>
      CtxDistinct(up) && Distinct(r) && n !in Nodes(r) && CtxNodes(up) !! ({n} + Nodes(r))
    case InR(up, l, n, _, _) =>
      CtxDistinct(up) && Distinct(l) && n !in Nodes(l) && CtxNodes(up) !! ({n} + Nodes(l))
  }

  ghost function Top(t: Tree, leaf: Node): Node {
    if t.Leaf? then leaf else t.n
  }

  ghost function Above(c: Ctx): Node? {
    if c.Hole? then null else c.n
  }

  ghost function RootOf(c: Ctx, hole: Node): Node {
    match c
    case Hole => hole
    case InL(up, n, _, _, _) => RootOf(up, n)
    case InR(up, _, n, _, _) => RootOf(up, n)
  }

  /** What the fields of one node should hold. `parent == null` leaves the parent open: nothing
      is ever promised about the parent of the root. */
  datatype Cell = Cell(value: Value, red: bool, parent: Node?, left: Node?, right: Node?)

  ghost predicate Fits(n: Node, cell: Cell)
    reads n
  {
    && n.value == cell.value && n.red == cell.red
    && (cell.parent != null ==> n.parent == cell.parent)
    && n.left == cell.left && n.right == cell.right
  }

  ghost function TreeCell(t: Tree, p: Node?, leaf: Node, n: Node): Cell
    requires n in Nodes(t)
  {
    if n == t.n then Cell(t.v, t.red, p, Top(t.l, leaf), Top(t.r, leaf))
    else if n in Nodes(t.l) then TreeCell(t.l, t.n, leaf, n)
    else TreeCell(t.r, t.n, leaf, n)
  }

  ghost function CtxCell(c: Ctx, hole: Node, leaf: Node, n: Node): Cell
    requires n in CtxNodes(c)
  {
    match c
    case InL(up, m, red, v, r) =>
      if n == m then Cell(v, red, Above(up), hole, Top(r, leaf))
      else if n in Nodes(r) then TreeCell(r, m, leaf, n)
      else CtxCell(up, m, leaf, n)
    case InR(up, l, m, red, v) =>
      if n == m then Cell(v, red, Above(up), Top(l, leaf), hole)
      else if n in Nodes(l) then TreeCell(l, m, leaf, n)
      else CtxCell(up, m, leaf, n)
  }

  ghost predicate Apart(c: Ctx, t: Tree, leaf: Node) {
    && Distinct(t) && CtxDistinct(c) && CtxNodes(c) !! Nodes(t)
    && leaf !in Nodes(t) && leaf !in CtxNodes(c)
  }

  ghost function CellAt(c: Ctx, t: Tree, leaf: Node, n: Node): Cell
    requires n in CtxNodes(c) + Nodes(t)
  {
    if n in Nodes(t) then TreeCell(t, Above(c), leaf, n) else CtxCell(c, Top(t, leaf), leaf, n)
  }

  /** What the heap should hold for the zipper `(c, t)`. */
  ghost function Snap(c: Ctx, t: Tree, leaf: Node): map<Node?, Cell> {
    map n | n in CtxNodes(c) + Nodes(t) :: CellAt(c, t, leaf, n)
  }

  /** The same, with the parent of the top of `t` left open. */
  ghost function OpenSnap(c: Ctx, t: Tree, leaf: Node): map<Node?, Cell> {
    map n | n in CtxNodes(c) + Nodes(t) ::
      if n == Top(t, leaf) then CellAt(c, t, leaf, n).(parent := null) else CellAt(c, t, leaf, n)
  }

  ghost predicate Holds(m: map<Node?, Cell>)
    reads m.Keys
  {
    null !in m && forall n: Node :: n in m ==> Fits(n, m[n])
  }

  /** The zipper `(c, t)` describes the heap, and `root` is its topmost node. */
  ghost predicate At(root: Node, leaf: Node, c: Ctx, t: Tree)
    reads CtxNodes(c) + Nodes(t)
  {
    && Apart(c, t, leaf)
    && root == RootOf(c, Top(t, leaf))
    && Holds(Snap(c, t, leaf))
  }

  lemma {:induction false} StepL(leaf: Node, up: Ctx, t: Tree)
    requires t.Bin?
    ensures var d := LeftOf(up, t);
      && (Apart(up, t, leaf) <==> Apart(d, t.l, leaf))
      && (Apart(up, t, leaf) ==> Snap(up, t, leaf) == Snap(d, t.l, leaf))
      && RootOf(up, Top(t, leaf)) == RootOf(d, Top(t.l, leaf))
  {
    var d := LeftOf(up, t);
    assert CtxNodes(d) + Nodes(t.l) == CtxNodes(up) + Nodes(t);
  }

  lemma {:induction false} StepR(leaf: Node, up: Ctx, t: Tree)
    requires t.Bin?
    ensures var d := RightOf(up, t);
      && (Apart(up, t, leaf) <==> Apart(d, t.r, leaf))
      && (Apart(up, t, leaf) ==> Snap(up, t, leaf) == Snap(d, t.r, leaf))
      && RootOf(up, Top(t, leaf)) == RootOf(d, Top(t.r, leaf))
  {
    var d := RightOf(up, t);
    assert CtxNodes(d) + Nodes(t.r) == CtxNodes(up) + Nodes(t);
  }

  /** In a proper context the topmost node is one of the context's own. */
  lemma {:induction false} RootInContext(c: Ctx, hole: Node)
    requires !c.Hole?
    ensures RootOf(c, hole) in CtxNodes(c)
    ensures forall h :: RootOf(c, h) == RootOf(c, hole)
  {
    if !c.up.Hole? { RootInContext(c.up, c.n); }
  }

  lemma {:induction false} CtxCellHole(c: Ctx, hole: Node, hole': Node, leaf: Node, n: Node)
    requires n in CtxNodes(c) && CtxDistinct(c)
    ensures CtxCell(c, hole', leaf, n) ==
      (if n != c.n then CtxCell(c, hole, leaf, n)
       else if c.InL? then CtxCell(c, hole, leaf, n).(left := hole')
       else CtxCell(c, hole, leaf, n).(right := hole'))
  {
  }

  method SetLeft(n: Node, child: Node?, ghost m: map<Node?, Cell>)
    requires Holds(m) && n in m
    modifies n`left
    ensures n.left == child && Holds(m[n := m[n].(left := child)])
  {
    n.left := child;
  }

  method SetRight(n: Node, child: Node?, ghost m: map<Node?, Cell>)
    requires Holds(m) && n in m
    modifies n`right
    ensures n.right == child && Holds(m[n := m[n].(right := child)])
  {
    n.right := child;
  }

  /** Writing a parent: the cell either records it or leaves it open. */
  method SetParent(n: Node, p: Node?, ghost m: map<Node?, Cell>)
    requires Holds(m) && n in m
    modifies n`parent
    ensures n.parent == p
    ensures Holds(m[n := m[n].(parent := p)]) && Holds(m[n := m[n].(parent := null)])
  {
    n.parent := p;
  }

  method SetRed(n: Node, red: bool, ghost m: map<Node?, Cell>)
    requires Holds(m) && n in m
    modifies n`red
    ensures n.red == red && Holds(m[n := m[n].(red := red)])
  {
    n.red := red;
  }

  // ---------------------------------------------------------------- moving the focus

  ghost function Comp(inner: Ctx, outer: Ctx): Ctx {
    match inner
    case Hole => outer
    case InL(up, n, red, v, r) => InL(Comp(up, outer), n, red, v, r)
    case InR(up, l, n, red, v) => InR(Comp(up, outer), l, n, red, v)
  }

  /** Moving the focus along a whole path leaves the described heap as it is. */
  lemma {:induction false} Refocus(leaf: Node, outer: Ctx, inner: Ctx, t: Tree)
    ensures Apart(outer, Plug(inner, t), leaf) <==> Apart(Comp(inner, outer), t, leaf)
    ensures Apart(outer, Plug(inner, t), leaf) ==>
      Snap(outer, Plug(inner, t), leaf) == Snap(Comp(inner, outer), t, leaf)
    ensures RootOf(outer, Top(Plug(inner, t), leaf)) == RootOf(Comp(inner, outer), Top(t, leaf))
    decreases inner
  {
    match inner
    case Hole =>
    case InL(up, n, red, v, r) =>
      Refocus(leaf, outer, up, Bin(t, n, red, v, r));
      StepL(leaf, Comp(up, outer), Bin(t, n, red, v, r));
    case InR(up, l, n, red, v) =>
      Refocus(leaf, outer, up, Bin(l, n, red, v, t));
      StepR(leaf, Comp(up, outer), Bin(l, n, red, v, t));
  }

  lemma {:induction false} CompHole(c: Ctx)
    ensures Comp(c, Hole) == c
  {
    if !c.Hole? { CompHole(c.up); }
  }

  /** The whole tree around a focus. */
  lemma {:induction false} Zip(root: Node, leaf: Node, c: Ctx, t: Tree)
    ensures At(root, leaf, c, t) <==> At(root, leaf, Hole, Plug(c, t))
  {
    Refocus(leaf, Hole, c, t);
    CompHole(c);
    SnapAt(c, t, leaf);
    SnapAt(Hole, Plug(c, t), leaf);
  }

  lemma {:induction false} SnapAt(c: Ctx, t: Tree, leaf: Node)
    ensures Snap(c, t, leaf).Keys == CtxNodes(c) + Nodes(t)
  {
  }

  /** What the fields of the focused node hold. */
  lemma Here(root: Node, leaf: Node, c: Ctx, t: Tree)
    requires At(root, leaf, c, t) && t.Bin?
    ensures t.n.left == Top(t.l, leaf) && t.n.right == Top(t.r, leaf)
    ensures t.n.red == t.red && t.n.value == t.v
    ensures !c.Hole? ==> t.n.parent == c.n && root != t.n
    ensures c.Hole? ==> root == t.n
  {
    assert Fits(t.n, Snap(c, t, leaf)[t.n]);
    if !c.Hole? { RootInContext(c, t.n); }
  }

  // ---------------------------------------------------------------- recolouring

  ghost function Recolor(t: Tree, x: Node, red: bool): (r: Tree)
    ensures Nodes(r) == Nodes(t) && r.Bin? == t.Bin? && (t.Bin? ==> r.n == t.n)
    ensures Distinct(t) ==> Distinct(r)
  {
    match t
    case Leaf => Leaf
    case Bin(l, n, c, v, r) =>
      if n == x then Bin(l, n, red, v, r)
      else if x in Nodes(l) then Bin(Recolor(l, x, red), n, c, v, r)
      else Bin(l, n, c, v, Recolor(r, x, red))
  }

  lemma {:induction false} RecolorCell(t: Tree, x: Node, red: bool, p: Node?, leaf: Node, n: Node)
    requires Distinct(t) && n in Nodes(t)
    ensures TreeCell(Recolor(t, x, red), p, leaf, n) ==
      if n == x then TreeCell(t, p, leaf, n).(red := red) else TreeCell(t, p, leaf, n)
  {
    if n in Nodes(t.l) {
      RecolorCell(t.l, x, red, t.n, leaf, n);
    } else if n in Nodes(t.r) {
      RecolorCell(t.r, x, red, t.n, leaf, n);
    }
  }

  lemma {:induction false} RecolorSnap(c: Ctx, t: Tree, x: Node, red: bool, leaf: Node)
    requires Apart(c, t, leaf) && x in Nodes(t)
    ensures Snap(c, Recolor(t, x, red), leaf) == Snap(c, t, leaf)[x := CellAt(c, t, leaf, x).(red := red)]
  {
    var m := Snap(c, t, leaf);
    forall n | n in CtxNodes(c) + Nodes(t)
      ensures CellAt(c, Recolor(t, x, red), leaf, n) == m[x := m[x].(red := red)][n]
    {
      if n in Nodes(t) { RecolorCell(t, x, red, Above(c), leaf, n); }
    }
  }

  method Paint(root: Node, leaf: Node, n: Node, red: bool, ghost c: Ctx, ghost t: Tree)
    requires At(root, leaf, c, t) && n in Nodes(t)
    modifies n`red
    ensures At(root, leaf, c, Recolor(t, n, red))
  {
    SetRed(n, red, Snap(c, t, leaf));
    RecolorSnap(c, t, n, red, leaf);
  }

  lemma RevaluedSnap(c: Ctx, t: Tree, v: Value, leaf: Node)
    requires Apart(c, t, leaf) && t.Bin?
    ensures Apart(c, t.(v := v), leaf)
    ensures Snap(c, t.(v := v), leaf) == Snap(c, t, leaf)[t.n := CellAt(c, t, leaf, t.n).(value := v)]
  {
  }

  /** `node->value = value` at the focus. */
  method SetValue(root: Node, leaf: Node, node: Node, value: Value, ghost c: Ctx, ghost t: Tree)
    requires At(root, leaf, c, t) && t.Bin? && node == t.n
    modifies node`value
    ensures At(root, leaf, c, t.(v := value))
  {
    ghost var m := Snap(c, t, leaf);
    node.value := value;
    assert Holds(m[node := m[node].(value := value)]);
    RevaluedSnap(c, t, value, leaf);
  }
}
