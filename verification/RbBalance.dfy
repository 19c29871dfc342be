/** Order, colour and balance of ghost trees, stated both for whole trees and for the two
    halves of a zipper, so that a rebalancing step is judged where it happens. */
module RbBalance {
  import opened Values
  import opened RbShape
  import opened RbRotate

  /** One stored value and the node it lives in. */
  datatype Item = Item(n: Node, v: Value)

  ghost function Items(t: Tree): seq<Item> {
    match t
    case Leaf => []
    case Bin(l, n, _, v, r) => Items(l) + [Item(n, v)] + Items(r)
  }

  /** The items to the left and to the right of the hole. */
  ghost function Before(c: Ctx): seq<Item> {
    match c
    case Hole => []
    case InL(up, _, _, _, _) => Before(up)
    case InR(up, l, n, _, v) => Before(up) + Items(l) + [Item(n, v)]
  }

  ghost function After(c: Ctx): seq<Item> {
    match c
    case Hole => []
    case InL(up, n, _, v, r) => [Item(n, v)] + Items(r) + After(up)
    case InR(up, _, _, _, _) => After(up)
  }

  ghost function AllItems(c: Ctx, t: Tree): seq<Item> {
    Before(c) + Items(t) + After(c)
  }

  ghost function Grow(c: Ctx, t: Tree): (g: Tree)
    requires !c.Hole?
    ensures g.Bin? && g.n == c.n && g.red == c.red && g.v == c.v
  {
    match c
    case InL(_, n, red, v, r) => Bin(t, n, red, v, r)
    case InR(_, l, n, red, v) => Bin(l, n, red, v, t)
  }

  ghost function Depth(c: Ctx): nat {
    if c.Hole? then 0 else 1 + Depth(c.up)
  }

  /** The regroupings of concatenations that moving a focus amounts to. */
  lemma Regroup<T>(a: seq<T>, l: seq<T>, i: seq<T>, r: seq<T>, z: seq<T>)
    ensures a + (l + i + r) + z == a + l + (i + r + z)
    ensures a + (l + i + r) + z == (a + l + i) + r + z
    ensures (l + i) + (r + z) == l + i + r + z
    ensures (a + l) + i == a + (l + i)
  {
  }

  lemma {:induction false} GrowItems(c: Ctx, t: Tree)
    requires !c.Hole?
    ensures AllItems(c.up, Grow(c, t)) == AllItems(c, t)
    ensures CtxNodes(c.up) + Nodes(Grow(c, t)) == CtxNodes(c) + Nodes(t)
  {
    var i := [Item(c.n, c.v)];
    if c.InL? {
      Regroup(Before(c.up), Items(t), i, Items(c.r), After(c.up));
    } else {
      Regroup(Before(c.up), Items(c.l), i, Items(t), After(c.up));
    }
  }

  lemma {:induction false} PlugItems(c: Ctx, t: Tree)
    ensures Items(Plug(c, t)) == AllItems(c, t)
    ensures Nodes(Plug(c, t)) == CtxNodes(c) + Nodes(t)
  {
    if !c.Hole? {
      PlugItems(c.up, Grow(c, t));
      GrowItems(c, t);
    }
  }

  lemma {:induction false} CompItems(inner: Ctx, outer: Ctx)
    ensures Before(Comp(inner, outer)) == Before(outer) + Before(inner)
    ensures After(Comp(inner, outer)) == After(inner) + After(outer)
    ensures CtxNodes(Comp(inner, outer)) == CtxNodes(inner) + CtxNodes(outer)
  {
    if !inner.Hole? {
      CompItems(inner.up, outer);
      var i := [Item(inner.n, inner.v)];
      if inner.InL? {
        Regroup(After(inner), i, Items(inner.r), After(inner.up), After(outer));
      } else {
        Regroup(Before(outer), Before(inner.up), Items(inner.l), i, i);
        Regroup(Before(outer), Before(inner.up) + Items(inner.l), i, i, i);
      }
    }
  }

  // ---------------------------------------------------------------- colour and balance

  ghost predicate IsRed(t: Tree) {
    t.Bin? && t.red
  }

  /** The number of black nodes on the way down the left spine; on every way down, when `Bal`. */
  ghost function BlackHeight(t: Tree): nat {
    match t
    case Leaf => 0
    case Bin(l, _, red, _, _) => BlackHeight(l) + if red then 0 else 1
  }

  ghost predicate Bal(t: Tree) {
    match t
    case Leaf => true
    case Bin(l, _, _, _, r) => Bal(l) && Bal(r) && BlackHeight(l) == BlackHeight(r)
  }

  ghost predicate NoRedRed(t: Tree) {
    match t
    case Leaf => true
    case Bin(l, _, red, _, r) =>
      NoRedRed(l) && NoRedRed(r) && (red ==> !IsRed(l) && !IsRed(r))
  }

  ghost predicate RedBlack(t: Tree) {
    Bal(t) && NoRedRed(t) && !IsRed(t)
  }

  /** The context is balanced once its hole has black height `h`. */
  ghost predicate CtxBal(c: Ctx, h: nat) {
    match c
    case Hole => true
    case InL(up, _, red, _, r) => Bal(r) && BlackHeight(r) == h && CtxBal(up, h + if red then 0 else 1)
    case InR(up, l, _, red, _) => Bal(l) && BlackHeight(l) == h && CtxBal(up, h + if red then 0 else 1)
  }

  /** The context is coloured properly once the top of its hole is red or black as told. */
  ghost predicate CtxColored(c: Ctx, holeRed: bool) {
    match c
    case Hole => !holeRed
    case InL(up, _, red, _, r) => NoRedRed(r) && (red ==> !holeRed && !IsRed(r)) && CtxColored(up, red)
    case InR(up, l, _, red, _) => NoRedRed(l) && (red ==> !holeRed && !IsRed(l)) && CtxColored(up, red)
  }

  lemma {:induction false} PlugRedBlack(c: Ctx, t: Tree)
    ensures RedBlack(Plug(c, t)) <==>
      Bal(t) && NoRedRed(t) && CtxBal(c, BlackHeight(t)) && CtxColored(c, IsRed(t))
  {
    if !c.Hole? { PlugRedBlack(c.up, Grow(c, t)); }
  }

  lemma {:induction false} CompColored(inner: Ctx, outer: Ctx, h: nat, red: bool, t: Tree)
    requires Bal(Plug(inner, t)) && NoRedRed(Plug(inner, t))
    requires CtxBal(outer, BlackHeight(Plug(inner, t))) && CtxColored(outer, IsRed(Plug(inner, t)))
    requires h == BlackHeight(t) && red == IsRed(t)
    ensures Bal(t) && NoRedRed(t) && CtxBal(Comp(inner, outer), h) && CtxColored(Comp(inner, outer), red)
  {
    if !inner.Hole? {
      var g := Grow(inner, t);
      CompColored(inner.up, outer, BlackHeight(g), IsRed(g), g);
    }
  }

  /** During an insertion everything is in order except that the red focus may hang under
      another red node, or be a red root. */
  ghost predicate RedFocus(c: Ctx, t: Tree) {
    && t.Bin? && t.red && Bal(t) && NoRedRed(t)
    && CtxBal(c, BlackHeight(t)) && CtxColored(c, false)
  }

  ghost function Blackened(t: Tree): Tree {
    if t.Leaf? then t else t.(red := false)
  }

  /** During a deletion the focus is one black node short; painting it black leaves no red
      node with a red child. */
  ghost predicate ShortFocus(c: Ctx, t: Tree) {
    && Bal(t) && NoRedRed(Blackened(t))
    && CtxBal(c, BlackHeight(t) + 1) && CtxColored(c, false)
  }

  /** A fresh red node in an empty slot. */
  lemma {:induction false} FreshFocus(c: Ctx, x: Node, v: Value)
    requires RedBlack(Plug(c, Leaf))
    ensures var t := Bin(Leaf, x, true, v, Leaf);
      && RedFocus(c, t) && Nodes(t) == {x}
      && AllItems(c, t) == Before(c) + [Item(x, v)] + After(c)
      && (c.Hole? ==> RedBlack(t.(red := false)) && Items(t.(red := false)) == AllItems(c, t))
  {
    var t := Bin(Leaf, x, true, v, Leaf);
    PlugRedBlack(c, Leaf);
    assert Items(t) == [Item(x, v)];
    assert Items(t.(red := false)) == [Item(x, v)];
  }

  /** The root is black, so a red parent has a parent. */
  lemma RedFocusFacts(c: Ctx, t: Tree)
    requires RedFocus(c, t)
    ensures t.Bin? && t.red
    ensures !c.Hole? && c.red ==> !c.up.Hole?
  {
    assert !c.Hole? ==> CtxColored(c.up, c.red);
  }

  /** The subtree on the other side of the grandparent of the hole. */
  ghost function Uncle(c: Ctx): Tree
    requires !c.Hole? && !c.up.Hole?
  {
    if c.up.InL? then c.up.r else c.up.l
  }

  /** Parent and uncle black, grandparent red. */
  ghost function PushedUp(c: Ctx, t: Tree): Tree
    requires !c.Hole? && !c.up.Hole? && Uncle(c).Bin?
  {
    var p, u := Grow(c, t), Uncle(c);
    if c.up.InL? then Bin(p.(red := false), c.up.n, true, c.up.v, u.(red := false))
    else Bin(u.(red := false), c.up.n, true, c.up.v, p.(red := false))
  }

  lemma PushUpKeeps(c: Ctx, t: Tree)
    requires RedFocus(c, t) && !c.Hole? && c.red && !c.up.Hole? && IsRed(Uncle(c))
    ensures RedFocus(c.up.up, PushedUp(c, t))
  {
    var p, u := Grow(c, t), Uncle(c);
    assert CtxBal(c.up, BlackHeight(t)) && CtxColored(c.up, true);
    assert Bal(p.(red := false)) && NoRedRed(p.(red := false));
    assert Bal(u.(red := false)) && NoRedRed(u.(red := false));
  }

  /** A red focus straight below the red left child of a black node, after the right rotation. */
  ghost function LiftedR(p: Tree, g: Tree): Tree
    requires p.Bin? && g.Bin?
  {
    Bin(p.l, p.n, false, p.v, Bin(p.r, g.n, true, g.v, g.r))
  }

  lemma LiftKeepsR(up: Ctx, g: Tree)
    requires g.Bin? && g.l.Bin? && g.l.red && !IsRed(g.r)
    requires RedFocus(LeftOf(LeftOf(up, g), g.l), g.l.l)
    ensures !g.red
    ensures var w := LiftedR(g.l, g); RedFocus(LeftOf(up, w), w.l)
  {
    var w, t, d := LiftedR(g.l, g), g.l.l, LeftOf(up, g);
    assert CtxBal(d, BlackHeight(t)) && CtxColored(d, true);
    assert CtxBal(up, BlackHeight(t) + 1) && CtxColored(up, false);
    assert Bal(w.r) && NoRedRed(w.r) && BlackHeight(w.r) == BlackHeight(t);
  }

  /** A red focus straight below the red right child of a black node, after the left rotation. */
  ghost function LiftedL(p: Tree, g: Tree): Tree
    requires p.Bin? && g.Bin?
  {
    Bin(Bin(g.l, g.n, true, g.v, p.l), p.n, false, p.v, p.r)
  }

  lemma LiftKeepsL(up: Ctx, g: Tree)
    requires g.Bin? && g.r.Bin? && g.r.red && !IsRed(g.l)
    requires RedFocus(RightOf(RightOf(up, g), g.r), g.r.r)
    ensures !g.red
    ensures var w := LiftedL(g.r, g); RedFocus(RightOf(up, w), w.r)
  {
    var w, t, d := LiftedL(g.r, g), g.r.r, RightOf(up, g);
    assert CtxBal(d, BlackHeight(t)) && CtxColored(d, true);
    assert CtxBal(up, BlackHeight(t) + 1) && CtxColored(up, false);
    assert Bal(w.l) && NoRedRed(w.l) && BlackHeight(w.l) == BlackHeight(t);
  }

  /** A red focus on the inner side of its red parent: the left rotation at the parent swaps
      their roles, and the old parent is the focus, now on the outer side. */
  lemma StraightKeepsL(c: Ctx, t: Tree)
    requires RedFocus(c, t) && c.InR? && c.red
    ensures var w := RotateL(Grow(c, t)); RedFocus(LeftOf(c.up, w), w.l)
  {
    var w := RotateL(Grow(c, t));
    assert Bal(w.l) && NoRedRed(w.l) && BlackHeight(w.l) == BlackHeight(t);
    assert CtxColored(c.up, true);
  }

  /** A red focus on the inner side of its red parent: the right rotation at the parent swaps
      their roles, and the old parent is the focus, now on the outer side. */
  lemma StraightKeepsR(c: Ctx, t: Tree)
    requires RedFocus(c, t) && c.InL? && c.red
    ensures var w := RotateR(Grow(c, t)); RedFocus(RightOf(c.up, w), w.r)
  {
    var w := RotateR(Grow(c, t));
    assert Bal(w.r) && NoRedRed(w.r) && BlackHeight(w.r) == BlackHeight(t);
    assert CtxColored(c.up, true);
  }

  /** Painting the root black finishes an insertion whose focus no longer hangs under red. */
  lemma {:induction false} InsertionDone(c: Ctx, t: Tree)
    requires RedFocus(c, t) && (!c.Hole? ==> !c.red)
    ensures var w := Plug(c, t); w.Bin? && RedBlack(w.(red := false))
  {
    if c.Hole? {
    } else {
      assert CtxColored(c, true);
      PlugRedBlack(c, t);
      PlugBin(c, t);
    }
  }

  lemma {:induction false} PlugBin(c: Ctx, t: Tree)
    requires !c.Hole? || t.Bin?
    ensures Plug(c, t).Bin?
  {
    match c
    case Hole =>
    case InL(up, n, red, v, r) => PlugBin(up, Bin(t, n, red, v, r));
    case InR(up, l, n, red, v) => PlugBin(up, Bin(l, n, red, v, t));
  }

  /** Painting the focus black finishes a deletion at a red focus or at the root. */
  lemma {:induction false} DeletionDone(c: Ctx, t: Tree)
    requires ShortFocus(c, t) && (c.Hole? || IsRed(t))
    ensures RedBlack(Plug(c, Blackened(t)))
  {
    PlugRedBlack(c, Blackened(t));
  }

  // ---------------------------------------------------------------- deletion steps

  lemma {:induction false} ColoredEitherWay(c: Ctx, red: bool)
    requires CtxColored(c, red)
    ensures CtxColored(c, false)
  {
  }

  /** A short focus is never the child of a node without another child. */
  lemma ShortFocusFacts(c: Ctx, t: Tree)
    requires ShortFocus(c, t) && !c.Hole?
    ensures c.InL? ==> c.r.Bin? && (!c.r.red || (c.r.l.Bin? && c.r.r.Bin?))
    ensures c.InR? ==> c.l.Bin? && (!c.l.red || (c.l.l.Bin? && c.l.r.Bin?))
  {
  }

  lemma {:induction false} OnlyChild(t: Tree, s: Tree)
    requires Bal(t) && NoRedRed(t) && t.Bin?
    requires (t.l.Leaf? && s == t.r) || (t.r.Leaf? && s == t.l)
    ensures BlackHeight(s) == 0 && Bal(s) && NoRedRed(s) && NoRedRed(Blackened(s))
    ensures BlackHeight(t) == (if t.red then 0 else 1) && (t.red ==> s.Leaf?)
    ensures RedBlack(Blackened(s))
  {
    assert s.Bin? && !s.red ==> BlackHeight(s) > 0;
  }

  /** Taking out a node with at most one child. */
  lemma {:induction false} UnlinkKeeps(c: Ctx, t: Tree, s: Tree)
    requires RedBlack(Plug(c, t)) && t.Bin?
    requires (t.l.Leaf? && s == t.r) || (t.r.Leaf? && s == t.l)
    ensures t.red ==> RedBlack(Plug(c, s)) && s.Leaf?
    ensures !t.red ==> ShortFocus(c, s)
    ensures c.Hole? ==> RedBlack(Blackened(s))
  {
    hide Plug;
    PlugRedBlack(c, t);
    OnlyChild(t, s);
    ColoredEitherWay(c, t.red);
    PlugRedBlack(c, s);
  }

  /** Balance and colours do not depend on which node stands where. */
  lemma {:induction false} RenameKeeps(inner: Ctx, c: Ctx, l: Tree, n: Node, n': Node, red: bool, v: Value, v': Value)
    ensures forall h :: CtxBal(Comp(inner, InR(c, l, n, red, v)), h) <==> CtxBal(Comp(inner, InR(c, l, n', red, v')), h)
    ensures forall b ::
      CtxColored(Comp(inner, InR(c, l, n, red, v)), b) <==> CtxColored(Comp(inner, InR(c, l, n', red, v')), b)
  {
    if !inner.Hole? { RenameKeeps(inner.up, c, l, n, n', red, v, v'); }
  }

  lemma {:induction false} PlugComp(inner: Ctx, outer: Ctx, t: Tree)
    ensures Plug(Comp(inner, outer), t) == Plug(outer, Plug(inner, t))
  {
    if !inner.Hole? { PlugComp(inner.up, outer, Grow(inner, t)); }
  }

  /** The place of the in-order successor `s` of a node with two children, before and after the
      node has been replaced by it. */
  ghost function SuccessorCtx(c: Ctx, t: Tree, inner: Ctx): Ctx
    requires t.Bin?
  {
    Comp(inner, RightOf(c, t))
  }

  /** Taking out the successor and putting it in the place of the deleted node. */
  lemma {:induction false} SuccessorKeeps(c: Ctx, t: Tree, inner: Ctx, s: Tree)
    requires RedBlack(Plug(c, t)) && t.Bin? && t.r == Plug(inner, s) && s.Bin? && s.l.Leaf?
    ensures var d := SuccessorCtx(c, Bin(t.l, s.n, t.red, s.v, t.r), inner);
      && (s.red ==> RedBlack(Plug(d, s.r)) && s.r.Leaf?)
      && (!s.red ==> ShortFocus(d, s.r))
  {
    var base := RightOf(c, t);
    var d0, d := Comp(inner, base), Comp(inner, InR(c, t.l, s.n, t.red, s.v));
    PlugComp(inner, base, s);
    UnlinkKeeps(d0, s, s.r);
    RenameKeeps(inner, c, t.l, t.n, s.n, t.red, t.v, s.v);
    if s.red {
      PlugRedBlack(d0, s.r);
      PlugRedBlack(d, s.r);
    }
  }

  lemma {:induction false} SuccessorParts(c: Ctx, t: Tree, inner: Ctx, s: Tree)
    requires t.Bin? && t.r == Plug(inner, s) && s.Bin? && s.l.Leaf? && Before(inner) == []
    ensures var d := SuccessorCtx(c, Bin(t.l, s.n, t.red, s.v, t.r), inner); var x := [Item(s.n, s.v)];
      && Before(d) == Before(c) + Items(t.l) + x + []
      && After(d) == After(inner) + After(c)
      && Items(t.r) == [] + ([] + x + Items(s.r)) + After(inner)
  {
    var o := RightOf(c, Bin(t.l, s.n, t.red, s.v, t.r));
    PlugItems(inner, s);
    CompItems(inner, o);
    assert Before(o) == Before(c) + Items(t.l) + [Item(s.n, s.v)];
    assert After(o) == After(c);
    assert Items(s) == [] + [Item(s.n, s.v)] + Items(s.r);
    hide Before, After, Items, Plug;
  }

  lemma {:induction false} SuccessorCover(c: Ctx, t: Tree, inner: Ctx, s: Tree)
    requires t.Bin? && t.r == Plug(inner, s)
    ensures CtxNodes(SuccessorCtx(c, t, inner)) + Nodes(s) == CtxNodes(c) + Nodes(t)
    ensures Above(SuccessorCtx(c, t, inner)) == if inner.Hole? then t.n else inner.n
    ensures !SuccessorCtx(c, t, inner).Hole?
  {
    PlugItems(inner, s);
    CompItems(inner, RightOf(c, t));
  }

  lemma {:induction false} SuccessorNodes(c: Ctx, t: Tree, inner: Ctx, s: Tree)
    requires t.Bin? && t.r == Plug(inner, s) && s.Bin? && s.l.Leaf?
    ensures var d := SuccessorCtx(c, Bin(t.l, s.n, t.red, s.v, t.r), inner);
      CtxNodes(d) + Nodes(s.r) == CtxNodes(c) + Nodes(t.l) + Nodes(t.r)
  {
    PlugItems(inner, s);
    CompItems(inner, RightOf(c, Bin(t.l, s.n, t.red, s.v, t.r)));
  }

  /** Exactly the deleted item is gone. */
  lemma {:induction false} SuccessorItems(c: Ctx, t: Tree, inner: Ctx, s: Tree)
    requires t.Bin? && t.r == Plug(inner, s) && s.Bin? && s.l.Leaf? && Before(inner) == []
    ensures var d := SuccessorCtx(c, Bin(t.l, s.n, t.red, s.v, t.r), inner);
      && AllItems(d, s.r) == (Before(c) + Items(t.l)) + (Items(t.r) + After(c))
      && CtxNodes(d) + Nodes(s.r) == CtxNodes(c) + Nodes(t.l) + Nodes(t.r)
  {
    hide Before, After, Items, SuccessorCtx, Nodes, CtxNodes, Plug;
    SuccessorParts(c, t, inner, s);
    SuccessorNodes(c, t, inner, s);
    SuccessorSeq(Before(c) + Items(t.l), [Item(s.n, s.v)], Items(s.r), After(inner), After(c));
  }

  lemma SuccessorSeq<T>(p: seq<T>, x: seq<T>, r: seq<T>, i: seq<T>, z: seq<T>)
    ensures (p + x + []) + r + (i + z) == p + (([] + ([] + x + r) + i) + z)
  {
  }

  lemma {:induction false} UnlinkItems(c: Ctx, t: Tree, s: Tree)
    requires t.Bin? && ((t.l.Leaf? && s == t.r) || (t.r.Leaf? && s == t.l))
    ensures AllItems(c, s) == (Before(c) + Items(t.l)) + (Items(t.r) + After(c))
    ensures CtxNodes(c) + Nodes(s) == CtxNodes(c) + Nodes(t.l) + Nodes(t.r)
  {
  }

  /** Red sibling: black sibling above a red parent; the focus is one level deeper. */
  ghost function SunkL(c: Ctx, t: Tree): Tree
    requires c.InL? && c.r.Bin?
  {
    Bin(Bin(t, c.n, true, c.v, c.r.l), c.r.n, false, c.r.v, c.r.r)
  }

  lemma SinkKeepsL(c: Ctx, t: Tree)
    requires ShortFocus(c, t) && c.InL? && IsRed(c.r)
    ensures !c.red
    ensures var w := SunkL(c, t); var d := LeftOf(LeftOf(c.up, w), w.l);
      ShortFocus(d, t) && d.red && d.r.Bin? && !d.r.red
  {
    var w := SunkL(c, t);
    assert BlackHeight(c.r.l) == BlackHeight(c.r.r) == BlackHeight(t) + 1;
    assert CtxBal(LeftOf(c.up, w), BlackHeight(t) + 1) && CtxColored(LeftOf(c.up, w), true);
  }

  /** Black sibling with black children: the sibling turns red, the parent is the focus. */
  ghost function DroppedL(c: Ctx, t: Tree): Tree
    requires c.InL? && c.r.Bin?
  {
    Bin(t, c.n, c.red, c.v, c.r.(red := true))
  }

  lemma DropKeepsL(c: Ctx, t: Tree)
    requires ShortFocus(c, t) && !IsRed(t) && c.InL? && c.r.Bin? && !c.r.red
    requires !IsRed(c.r.l) && !IsRed(c.r.r)
    ensures ShortFocus(c.up, DroppedL(c, t))
  {
    var s := c.r.(red := true);
    assert Bal(s) && NoRedRed(s) && BlackHeight(s) == BlackHeight(t);
    ColoredEitherWay(c.up, c.red);
  }

  /** Black sibling whose red child is on the near side: one rotation brings it to the far side. */
  ghost function TurnedL(w: Tree): Tree
    requires w.Bin? && w.l.Bin?
  {
    Bin(w.l.l, w.l.n, false, w.l.v, Bin(w.l.r, w.n, true, w.v, w.r))
  }

  lemma TurnKeepsL(c: Ctx, t: Tree)
    requires ShortFocus(c, t) && c.InL? && c.r.Bin? && !c.r.red
    requires IsRed(c.r.l) && !IsRed(c.r.r)
    ensures ShortFocus(c.(r := TurnedL(c.r)), t)
  {
    var w := TurnedL(c.r);
    assert Bal(c.r.l) && NoRedRed(c.r.l) && BlackHeight(c.r.l) == BlackHeight(c.r.r);
    assert Bal(w.r) && NoRedRed(w.r) && BlackHeight(w.r) == BlackHeight(w.l);
  }

  /** Black sibling with a red child on the far side: the sibling takes the parent's colour and
      place, and nothing is short any more. */
  ghost function BorrowedL(c: Ctx, t: Tree): Tree
    requires c.InL? && c.r.Bin? && c.r.r.Bin?
  {
    Bin(Bin(t, c.n, false, c.v, c.r.l), c.r.n, c.red, c.r.v, c.r.r.(red := false))
  }

  /** The three recolourings of that step. */
  lemma BorrowColorsL(c: Ctx, t: Tree)
    requires c.InL? && c.r.Bin? && c.r.r.Bin? && Distinct(Grow(c, t))
    ensures Recolor(Recolor(Recolor(Grow(c, t), c.r.n, c.red), c.n, false), c.r.r.n, false) ==
            Bin(t, c.n, false, c.v, Bin(c.r.l, c.r.n, c.red, c.r.v, c.r.r.(red := false)))
  {
    assert Distinct(c.r) && c.r.r.n in Nodes(c.r.r) && Nodes(c.r.r) <= Nodes(c.r);
    var w := Recolor(c.r, c.r.n, c.red);
    assert Recolor(Grow(c, t), c.r.n, c.red) == Bin(t, c.n, c.red, c.v, w);
    assert Recolor(w, c.r.r.n, false) == Bin(c.r.l, c.r.n, c.red, c.r.v, c.r.r.(red := false));
  }

  lemma BorrowKeepsL(c: Ctx, t: Tree)
    requires ShortFocus(c, t) && !IsRed(t) && c.InL? && c.r.Bin? && !c.r.red && IsRed(c.r.r)
    ensures RedBlack(Plug(c.up, BorrowedL(c, t)))
  {
    var w := BorrowedL(c, t);
    assert Bal(c.r.r) && NoRedRed(c.r.r) && BlackHeight(c.r.l) == BlackHeight(c.r.r) == BlackHeight(t);
    assert Bal(w.l) && NoRedRed(w.l) && BlackHeight(w.l) == BlackHeight(t) + 1;
    assert Bal(w.r) && NoRedRed(w.r) && BlackHeight(w.r) == BlackHeight(t) + 1;
    assert CtxColored(c.up, c.red);
    PlugRedBlack(c.up, w);
  }

  /** Red sibling: black sibling above a red parent; the focus is one level deeper. */
  ghost function SunkR(c: Ctx, t: Tree): Tree
    requires c.InR? && c.l.Bin?
  {
    Bin(c.l.l, c.l.n, false, c.l.v, Bin(c.l.r, c.n, true, c.v, t))
  }

  lemma SinkKeepsR(c: Ctx, t: Tree)
    requires ShortFocus(c, t) && c.InR? && IsRed(c.l)
    ensures !c.red
    ensures var w := SunkR(c, t); var d := RightOf(RightOf(c.up, w), w.r);
      ShortFocus(d, t) && d.red && d.l.Bin? && !d.l.red
  {
    var w := SunkR(c, t);
    assert BlackHeight(c.l.r) == BlackHeight(c.l.l) == BlackHeight(t) + 1;
    assert CtxBal(RightOf(c.up, w), BlackHeight(t) + 1) && CtxColored(RightOf(c.up, w), true);
  }

  /** Black sibling with black children: the sibling turns red, the parent is the focus. */
  ghost function DroppedR(c: Ctx, t: Tree): Tree
    requires c.InR? && c.l.Bin?
  {
    Bin(c.l.(red := true), c.n, c.red, c.v, t)
  }

  lemma DropKeepsR(c: Ctx, t: Tree)
    requires ShortFocus(c, t) && !IsRed(t) && c.InR? && c.l.Bin? && !c.l.red
    requires !IsRed(c.l.r) && !IsRed(c.l.l)
    ensures ShortFocus(c.up, DroppedR(c, t))
  {
    var s := c.l.(red := true);
    assert Bal(s) && NoRedRed(s) && BlackHeight(s) == BlackHeight(t);
    ColoredEitherWay(c.up, c.red);
  }

  /** Black sibling whose red child is on the near side: one rotation brings it to the far side. */
  ghost function TurnedR(w: Tree): Tree
    requires w.Bin? && w.r.Bin?
  {
    Bin(Bin(w.l, w.n, true, w.v, w.r.l), w.r.n, false, w.r.v, w.r.r)
  }

  lemma TurnKeepsR(c: Ctx, t: Tree)
    requires ShortFocus(c, t) && c.InR? && c.l.Bin? && !c.l.red
    requires IsRed(c.l.r) && !IsRed(c.l.l)
    ensures ShortFocus(c.(l := TurnedR(c.l)), t)
  {
    var w := TurnedR(c.l);
    assert Bal(c.l.r) && NoRedRed(c.l.r) && BlackHeight(c.l.r) == BlackHeight(c.l.l);
    assert Bal(w.l) && NoRedRed(w.l) && BlackHeight(w.l) == BlackHeight(w.r);
  }

  /** Black sibling with a red child on the far side: the sibling takes the parent's colour and
      place, and nothing is short any more. */
  ghost function BorrowedR(c: Ctx, t: Tree): Tree
    requires c.InR? && c.l.Bin? && c.l.l.Bin?
  {
    Bin(c.l.l.(red := false), c.l.n, c.red, c.l.v, Bin(c.l.r, c.n, false, c.v, t))
  }

  /** The three recolourings of that step. */
  lemma BorrowColorsR(c: Ctx, t: Tree)
    requires c.InR? && c.l.Bin? && c.l.l.Bin? && Distinct(Grow(c, t))
    ensures Recolor(Recolor(Recolor(Grow(c, t), c.l.n, c.red), c.n, false), c.l.l.n, false) ==
            Bin(Bin(c.l.l.(red := false), c.l.n, c.red, c.l.v, c.l.r), c.n, false, c.v, t)
  {
    assert Distinct(c.l) && c.l.l.n in Nodes(c.l.l) && Nodes(c.l.l) <= Nodes(c.l);
    var w := Recolor(c.l, c.l.n, c.red);
    assert Recolor(Grow(c, t), c.l.n, c.red) == Bin(w, c.n, c.red, c.v, t);
    assert Recolor(w, c.l.l.n, false) == Bin(c.l.l.(red := false), c.l.n, c.red, c.l.v, c.l.r);
  }

  lemma BorrowKeepsR(c: Ctx, t: Tree)
    requires ShortFocus(c, t) && !IsRed(t) && c.InR? && c.l.Bin? && !c.l.red && IsRed(c.l.l)
    ensures RedBlack(Plug(c.up, BorrowedR(c, t)))
  {
    var w := BorrowedR(c, t);
    assert Bal(c.l.l) && NoRedRed(c.l.l) && BlackHeight(c.l.r) == BlackHeight(c.l.l) == BlackHeight(t);
    assert Bal(w.r) && NoRedRed(w.r) && BlackHeight(w.r) == BlackHeight(t) + 1;
    assert Bal(w.l) && NoRedRed(w.l) && BlackHeight(w.l) == BlackHeight(t) + 1;
    assert CtxColored(c.up, c.red);
    PlugRedBlack(c.up, w);
  }

  // ---------------------------------------------------------------- height

  ghost function Height(t: Tree): nat {
    match t
    case Leaf => 0
    case Bin(l, _, _, _, r) => 1 + if Height(l) < Height(r) then Height(r) else Height(l)
  }

  ghost function Pow2(n: nat): (p: nat)
    ensures p >= 1
  {
    if n == 0 then 1 else 2 * Pow2(n - 1)
  }

  lemma {:induction false} Pow2Add(a: nat, b: nat)
    ensures Pow2(a + b) == Pow2(a) * Pow2(b)
  {
    if a > 0 {
      Pow2Add(a - 1, b);
      assert 2 * (Pow2(a - 1) * Pow2(b)) == 2 * Pow2(a - 1) * Pow2(b);
    }
  }

  lemma {:induction false} Pow2Monotone(a: nat, b: nat)
    requires a <= b
    ensures Pow2(a) <= Pow2(b)
  {
    if a < b { Pow2Monotone(a, b - 1); }
  }

  lemma {:induction false} SizeBound(t: Tree)
    requires Bal(t)
    ensures Pow2(BlackHeight(t)) <= |Items(t)| + 1
  {
    if t.Bin? {
      SizeBound(t.l);
      SizeBound(t.r);
    }
  }

  lemma {:induction false} HeightVsBlack(t: Tree)
    requires Bal(t) && NoRedRed(t)
    ensures Height(t) <= 2 * BlackHeight(t) + if IsRed(t) then 1 else 0
  {
    if t.Bin? {
      HeightVsBlack(t.l);
      HeightVsBlack(t.r);
    }
  }

  /** The height bound the traversals size their stack from: 2^h <= (n + 1)^2. */
  lemma {:induction false} HeightBound(t: Tree)
    requires RedBlack(t)
    ensures Pow2(Height(t)) <= (|Items(t)| + 1) * (|Items(t)| + 1)
  {
    var b, n := BlackHeight(t), |Items(t)| + 1;
    SizeBound(t);
    HeightVsBlack(t);
    Pow2Monotone(Height(t), b + b);
    Pow2Add(b, b);
    assert Pow2(b) * Pow2(b) <= n * n by {
      Square(Pow2(b), n);
    }
  }

  lemma Square(a: nat, b: nat)
    requires a <= b
    ensures a * a <= b * b
  {
    assert a * a <= a * b <= b * b;
  }

  // ---------------------------------------------------------------- steps keep the items

  lemma Reassociate<T>(a: seq<T>, x: seq<T>, b: seq<T>, y: seq<T>, z: seq<T>)
    ensures a + x + (b + y + z) == (a + x + b) + y + z
  {
  }

  lemma {:induction false} RotateItems(t: Tree)
    ensures t.Bin? && t.r.Bin? ==> Items(RotateL(t)) == Items(t)
    ensures t.Bin? && t.l.Bin? ==> Items(RotateR(t)) == Items(t)
  {
    if t.Bin? && t.r.Bin? {
      Reassociate(Items(t.l), [Item(t.n, t.v)], Items(t.r.l), [Item(t.r.n, t.r.v)], Items(t.r.r));
    }
    if t.Bin? && t.l.Bin? {
      Reassociate(Items(t.l.l), [Item(t.l.n, t.l.v)], Items(t.l.r), [Item(t.n, t.v)], Items(t.r));
    }
  }

  lemma {:induction false} RecolorItems(t: Tree, x: Node, red: bool)
    ensures Items(Recolor(t, x, red)) == Items(t)
  {
    if t.Bin? {
      RecolorItems(t.l, x, red);
      RecolorItems(t.r, x, red);
    }
  }
}
