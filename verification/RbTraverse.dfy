/** The two iterative traversals, `rbtree_ldr` and `rbtree_clear`, and the size of their stack. */
module RbTraverse {
  import opened Values
  import opened RbShape
  import opened RbBalance
  import opened RbTree
  import opened Slices

  /** `log2(m)`, rounded down. */
  function Log2(m: nat): nat
    requires m > 0
  {
    if m < 2 then 0 else 1 + Log2(m / 2)
  }

  lemma {:induction false} Log2Covers(h: nat, m: nat)
    requires m > 0 && Pow2(h) <= m
    ensures h <= Log2(m)
    decreases h
  {
    if h > 0 { Log2Covers(h - 1, m / 2); }
  }

  /** A node on the stack: the subtree it tops, and where that subtree is. */
  datatype Frame = Frame(c: Ctx, t: Tree)

  /** What is still to be visited once the left subtree of the last frame is done. */
  ghost function Pending(fs: seq<Frame>): seq<Item> {
    if fs == [] || fs[|fs| - 1].t.Leaf? then []
    else
      var t := fs[|fs| - 1].t;
      [Item(t.n, t.v)] + Items(t.r) + Pending(fs[..|fs| - 1])
  }

  ghost function Remaining(fs: seq<Frame>): seq<Item> {
    if fs == [] || fs[|fs| - 1].t.Leaf? then [] else Items(fs[|fs| - 1].t.l) + Pending(fs)
  }

  /** The frame is a subtree of the tree that the cells `m` describe, of height at most `room`. */
  ghost predicate FrameOf(f: Frame, m: map<Node?, Cell>, leaf: Node, room: int) {
    f.t.Bin? && Apart(f.c, f.t, leaf) && Snap(f.c, f.t, leaf) == m && Height(f.t) <= room
  }

  /** The deeper in the stack, the lower the subtree. */
  ghost predicate FramesOf(fs: seq<Frame>, m: map<Node?, Cell>, leaf: Node, h: nat) {
    forall i :: 0 <= i < |fs| ==> FrameOf(fs[i], m, leaf, h - i)
  }

  lemma FrameL(f: Frame, m: map<Node?, Cell>, leaf: Node, room: int)
    requires FrameOf(f, m, leaf, room) && f.t.l.Bin?
    ensures FrameOf(Frame(LeftOf(f.c, f.t), f.t.l), m, leaf, room - 1)
  {
    StepL(leaf, f.c, f.t);
  }

  lemma FrameR(f: Frame, m: map<Node?, Cell>, leaf: Node, room: int)
    requires FrameOf(f, m, leaf, room) && f.t.r.Bin?
    ensures FrameOf(Frame(RightOf(f.c, f.t), f.t.r), m, leaf, room - 1)
  {
    StepR(leaf, f.c, f.t);
  }

  ghost function Tops(fs: seq<Frame>): seq<Node?>
    requires forall i :: 0 <= i < |fs| ==> fs[i].t.Bin?
  {
    seq(|fs|, i requires 0 <= i < |fs| => fs[i].t.n)
  }

  lemma {:induction false} PushItems(fs: seq<Frame>, g: Frame)
    requires g.t.Bin?
    ensures Remaining(fs + [g]) == Items(g.t) + Pending(fs)
  {
    var fs' := fs + [g];
    assert fs'[|fs'| - 1] == g && fs'[..|fs'| - 1] == fs;
    Front(Items(g.t.l), [Item(g.t.n, g.t.v)], Items(g.t.r), Pending(fs));
  }

  lemma Front<T>(a: seq<T>, x: seq<T>, b: seq<T>, c: seq<T>)
    ensures a + (x + b + c) == a + x + b + c
  {
  }

  lemma PushFrames(fs: seq<Frame>, g: Frame, m: map<Node?, Cell>, leaf: Node, h: nat)
    requires FramesOf(fs, m, leaf, h) && FrameOf(g, m, leaf, h - |fs|)
    ensures FramesOf(fs + [g], m, leaf, h) && |fs| < h
    ensures g.t.Bin? && Tops(fs + [g]) == Tops(fs) + [g.t.n]
  {
  }

  /** Popping the last frame visits its node; its right subtree comes next. */
  lemma PopFrame(fs: seq<Frame>, m: map<Node?, Cell>, leaf: Node, h: nat)
    requires FramesOf(fs, m, leaf, h) && fs != []
    ensures var f := fs[|fs| - 1]; var fs' := fs[..|fs| - 1];
      && FramesOf(fs', m, leaf, h) && Tops(fs') == Tops(fs)[..|fs| - 1]
      && Pending(fs) == [Item(f.t.n, f.t.v)] + Items(f.t.r) + Pending(fs')
  {
  }

  lemma FrameRoom(f: Frame, m: map<Node?, Cell>, leaf: Node, room: int)
    requires FrameOf(f, m, leaf, room)
    ensures f.t.Bin? && 0 < room && FrameOf(f, m, leaf, room + 1)
  {
  }

  /** The fields of the node of a frame. */
  lemma FrameFields(f: Frame, m: map<Node?, Cell>, leaf: Node)
    requires Holds(m) && exists room: int :: FrameOf(f, m, leaf, room)
    ensures f.t.n in m && f.t.n.left == Top(f.t.l, leaf) && f.t.n.right == Top(f.t.r, leaf) && f.t.n.value == f.t.v
    ensures f.t.n.left == leaf <==> f.t.l.Leaf?
    ensures f.t.n.right == leaf <==> f.t.r.Leaf?
  {
    assert Fits(f.t.n, m[f.t.n]);
  }

  /** A traversal under way: the stack holds the tops of the frames and has not grown. */
  ghost predicate Walking(st: Stack<Node?>, storage: Array<Node?>, fs: seq<Frame>, m: map<Node?, Cell>, leaf: Node,
                          h: nat)
    reads st, st.data, st.data.data, st.data.data.data, m.Keys
  {
    && st.Valid() && st.Storage() == storage && h <= storage.data.Length
    && Holds(m) && FramesOf(fs, m, leaf, h)
    && st.Contents() == Tops(fs) && st.Len() == |fs|
  }

  method PushTop(st: Stack<Node?>, top: Node, ghost storage: Array<Node?>, ghost fs: seq<Frame>, ghost g: Frame,
                 ghost m: map<Node?, Cell>, ghost leaf: Node, ghost h: nat)
    requires Walking(st, storage, fs, m, leaf, h)
    requires FrameOf(g, m, leaf, h - |fs|) && g.t.Bin? && top == g.t.n
    modifies st.Repr()
    ensures Walking(st, storage, fs + [g], m, leaf, h) && st.Repr() == old(st.Repr())
  {
    PushFrames(fs, g, m, leaf, h);
    st.Push(top);
  }

  method PopTop(st: Stack<Node?>, ghost storage: Array<Node?>, ghost fs: seq<Frame>,
                ghost m: map<Node?, Cell>, ghost leaf: Node, ghost h: nat) returns (top: Node)
    requires Walking(st, storage, fs, m, leaf, h) && fs != []
    modifies st.Repr()
    ensures Walking(st, storage, fs[..|fs| - 1], m, leaf, h) && st.Repr() == old(st.Repr())
    ensures fs[|fs| - 1].t.Bin? && top == fs[|fs| - 1].t.n
  {
    PopFrame(fs, m, leaf, h);
    var value, _ := st.Pop(null);
    top := value;
  }

  /** What the code reads of the frame on top. */
  lemma TopFields(st: Stack<Node?>, storage: Array<Node?>, fs: seq<Frame>, m: map<Node?, Cell>, leaf: Node, h: nat)
    requires Walking(st, storage, fs, m, leaf, h)
    ensures st.Len() == |fs| && st.Storage() == storage
    ensures fs != [] ==>
      var f := fs[|fs| - 1];
      && FrameOf(f, m, leaf, h - |fs| + 1) && f.t.Bin?
      && f.t.n.left == Top(f.t.l, leaf) && f.t.n.right == Top(f.t.r, leaf) && f.t.n.value == f.t.v
      && (f.t.n.left == leaf <==> f.t.l.Leaf?) && (f.t.n.right == leaf <==> f.t.r.Leaf?)
  {
    if fs != [] { FrameFields(fs[|fs| - 1], m, leaf); }
  }

  /** A node whose fields may be read: it has not been closed. */
  function InUse(n: Node, ghost open: set<Node>): (r: Node)
    requires n in open
    ensures r == n
  {
    n
  }

  /** The inner loop that goes down to the left, pushing. */
  method Descend(leaf: Node, st: Stack<Node?>, top0: Node, ghost storage: Array<Node?>, ghost fs0: seq<Frame>,
                 ghost m: map<Node?, Cell>, ghost h: nat, ghost open: set<Node>)
    returns (top: Node, ghost fs: seq<Frame>)
    requires Walking(st, storage, fs0, m, leaf, h) && fs0 != []
    requires fs0[|fs0| - 1].t.Bin? && top0 == fs0[|fs0| - 1].t.n && Nodes(fs0[|fs0| - 1].t) <= open
    modifies st.Repr()
    ensures Walking(st, storage, fs, m, leaf, h) && fs != [] && st.Repr() == old(st.Repr())
    ensures fs[|fs| - 1].t.Bin? && fs[|fs| - 1].t.l.Leaf? && top == fs[|fs| - 1].t.n
    ensures Remaining(fs) == Remaining(fs0)
  {
    hide Walking, FrameOf, Remaining;
    top, fs := top0, fs0;
    TopFields(st, storage, fs, m, leaf, h);
    while InUse(top, open).left != leaf
      invariant Walking(st, storage, fs, m, leaf, h) && fs != [] && st.Repr() == old(st.Repr())
      invariant fs[|fs| - 1].t.Bin? && top == fs[|fs| - 1].t.n && Nodes(fs[|fs| - 1].t) <= open
      invariant top in open
      invariant top.left == Top(fs[|fs| - 1].t.l, leaf)
      invariant top.left == leaf <==> fs[|fs| - 1].t.l.Leaf?
      invariant FrameOf(fs[|fs| - 1], m, leaf, h - |fs| + 1)
      invariant Remaining(fs) == Remaining(fs0)
      decreases fs[|fs| - 1].t
    {
      ghost var f := fs[|fs| - 1];
      ghost var g := Frame(LeftOf(f.c, f.t), f.t.l);
      FrameL(f, m, leaf, h - |fs| + 1);
      PushItems(fs, g);
      LeftNext(fs);
      top := InUse(top, open).left;
      PushTop(st, top, storage, fs, g, m, leaf, h);
      fs := fs + [g];
      TopFields(st, storage, fs, m, leaf, h);
    }
  }

  lemma {:induction false} LeftNext(fs: seq<Frame>)
    ensures fs != [] && fs[|fs| - 1].t.Bin? ==> Remaining(fs) == Items(fs[|fs| - 1].t.l) + Pending(fs)
    ensures fs != [] && fs[|fs| - 1].t.Bin? && fs[|fs| - 1].t.l.Leaf? ==> Remaining(fs) == Pending(fs)
    ensures fs == [] ==> Remaining(fs) == [] && Pending(fs) == []
  {
  }

  ghost function ValuesOf(s: seq<Item>): seq<Value> {
    seq(|s|, i requires 0 <= i < |s| => s[i].v)
  }

  /** The stack the traversals open: `floor(2 * log2(length + 1))` slots. */
  function StackCap(length: nat): nat {
    Log2((length + 1) * (length + 1))
  }

  lemma {:induction false} StackSuffices(t: Tree)
    requires RedBlack(t)
    ensures Height(t) <= StackCap(|Items(t)|)
  {
    HeightBound(t);
    Log2Covers(Height(t), (|Items(t)| + 1) * (|Items(t)| + 1));
  }

  /** `open_stack(log2(len + 1) * 2)` and the push of the root. */
  method Start(tr: RbTree) returns (st: Stack<Node?>, ghost storage: Array<Node?>, ghost fs: seq<Frame>,
                                    ghost m: map<Node?, Cell>, ghost h: nat)
    requires tr.Valid() && tr.root != tr.leaf
    ensures Walking(st, storage, fs, m, tr.leaf, h) && fs == [Frame(Hole, tr.tree)]
    ensures fresh(st.Repr()) && tr.tree.Bin? && tr.root == tr.tree.n
    ensures Remaining(fs) == Items(tr.tree) && m.Keys == Nodes(tr.tree)
  {
    ghost var t := tr.tree;
    m, h := Snap(Hole, t, tr.leaf), Height(t);
    SnapAt(Hole, t, tr.leaf);
    StackSuffices(t);
    st := new Stack<Node?>(StackCap(tr.length));
    storage := st.Storage();
    ghost var g := Frame(Hole, t);
    assert FrameOf(g, m, tr.leaf, h);
    PushTop(st, tr.root, storage, [], g, m, tr.leaf, h);
    fs := [g];
    assert [] + [g] == fs;
    PushItems([], g);
    LeftNext([]);
  }

  /** What is left after the node of `f` has been popped from above `fs` and dealt with. */
  ghost predicate AfterPop(items: seq<Item>, seen: seq<Item>, f: Frame, fs: seq<Frame>) {
    f.t.Bin? && items == seen + (Items(f.t.r) + Pending(fs))
  }

  lemma {:induction false} PopStep(items: seq<Item>, seen: seq<Item>, fs: seq<Frame>, m: map<Node?, Cell>, leaf: Node,
                                   h: nat)
    requires FramesOf(fs, m, leaf, h) && fs != [] && items == seen + Pending(fs)
    ensures var f := fs[|fs| - 1];
      && FrameOf(f, m, leaf, h - |fs| + 1) && f.t.Bin?
      && AfterPop(items, seen + [Item(f.t.n, f.t.v)], f, fs[..|fs| - 1])
      && |Pending(fs[..|fs| - 1])| < |Pending(fs)|
  {
    var f := fs[|fs| - 1];
    PopFrame(fs, m, leaf, h);
    Shift(seen, [Item(f.t.n, f.t.v)], Items(f.t.r), Pending(fs[..|fs| - 1]));
  }

  lemma Shift<T>(a: seq<T>, x: seq<T>, b: seq<T>, c: seq<T>)
    ensures a + (x + b + c) == a + x + (b + c)
  {
  }

  lemma {:induction false} AfterPopRest(items: seq<Item>, seen: seq<Item>, f: Frame, fs: seq<Frame>)
    requires AfterPop(items, seen, f, fs)
    ensures f.t.Bin? && items == seen + (Items(f.t.r) + Pending(fs))
  {
  }

  lemma {:induction false} AfterLeafPop(items: seq<Item>, seen: seq<Item>, f: Frame, fs: seq<Frame>)
    requires AfterPop(items, seen, f, fs) && f.t.r.Leaf?
    ensures items == seen + Pending(fs)
    ensures fs == [] ==> items == seen
  {
  }

  /** The right subtree of the popped frame comes next. */
  lemma RightStep(items: seq<Item>, seen: seq<Item>, f: Frame, fs: seq<Frame>, m: map<Node?, Cell>, leaf: Node, h: nat)
    requires AfterPop(items, seen, f, fs) && FrameOf(f, m, leaf, h - |fs|) && f.t.r.Bin?
    ensures var g := Frame(RightOf(f.c, f.t), f.t.r);
      && FrameOf(g, m, leaf, h - |fs|)
      && items == seen + Remaining(fs + [g])
  {
    var g := Frame(RightOf(f.c, f.t), f.t.r);
    FrameR(f, m, leaf, h - |fs|);
    FrameRoom(g, m, leaf, h - |fs| - 1);
    PushItems(fs, g);
  }

  lemma ValuesPrefix(items: seq<Item>, seen: seq<Item>, rest: seq<Item>)
    requires items == seen + rest
    ensures ValuesOf(seen) <= ValuesOf(items) && |ValuesOf(seen)| == |seen| <= |items|
  {
  }

  lemma ValuesSnoc(seen: seq<Item>, x: Item)
    ensures ValuesOf(seen + [x]) == ValuesOf(seen) + [x.v]
  {
  }

  lemma WalkingFrames(st: Stack<Node?>, storage: Array<Node?>, fs: seq<Frame>, m: map<Node?, Cell>, leaf: Node, h: nat)
    requires Walking(st, storage, fs, m, leaf, h)
    ensures FramesOf(fs, m, leaf, h)
  {
  }

  /** The callback asked for none of these visits to be the last. */
  ghost predicate Unstopped(stop: Value -> bool, visited: seq<Value>) {
    forall v :: v in visited ==> !stop(v)
  }

  ghost predicate StoppedAtLast(stop: Value -> bool, visited: seq<Value>) {
    visited != [] && Unstopped(stop, visited[..|visited| - 1]) && stop(visited[|visited| - 1])
  }

  lemma UnstoppedSnoc(stop: Value -> bool, visited: seq<Value>, v: Value)
    requires Unstopped(stop, visited)
    ensures if stop(v) then StoppedAtLast(stop, visited + [v]) else Unstopped(stop, visited + [v])
  {
    assert (visited + [v])[..|visited|] == visited;
    assert v in visited + [v];
    assert forall w :: w in visited + [v] <==> w in visited || w == v;
  }

  /** The `do ... while` loop: pops and visits while there is nothing on the right. */
  method VisitRun(leaf: Node, st: Stack<Node?>, stop: Value -> bool, visited0: seq<Value>,
                  ghost storage: Array<Node?>, ghost fs0: seq<Frame>, ghost m: map<Node?, Cell>, ghost h: nat,
                  ghost items: seq<Item>, ghost seen0: seq<Item>)
    returns (top: Node, visited: seq<Value>, stopped: bool, ghost f: Frame, ghost fs: seq<Frame>, ghost seen: seq<Item>)
    requires Walking(st, storage, fs0, m, leaf, h) && fs0 != []
    requires items == seen0 + Pending(fs0) && visited0 == ValuesOf(seen0)
    requires Unstopped(stop, visited0)
    modifies st.Repr()
    ensures Walking(st, storage, fs, m, leaf, h) && st.Repr() == old(st.Repr())
    ensures FrameOf(f, m, leaf, h - |fs|) && AfterPop(items, seen, f, fs) && top == f.t.n
    ensures visited == ValuesOf(seen) && |seen0| < |seen|
    ensures if stopped then StoppedAtLast(stop, visited) else Unstopped(stop, visited)
    ensures top.right == Top(f.t.r, leaf) && (top.right == leaf <==> f.t.r.Leaf?)
    ensures !stopped && f.t.r.Leaf? ==> fs == [] && items == seen
  {
    visited, fs, seen, stopped := visited0, fs0, seen0, false;
    while true
      invariant Walking(st, storage, fs, m, leaf, h) && fs != [] && st.Repr() == old(st.Repr())
      invariant items == seen + Pending(fs) && visited == ValuesOf(seen) && |seen0| <= |seen|
      invariant Unstopped(stop, visited)
      decreases |Pending(fs)|
    {
      hide Walking, FrameOf, Pending, AfterPop, FramesOf, ValuesOf, Unstopped, StoppedAtLast;
      TopFields(st, storage, fs, m, leaf, h);
      WalkingFrames(st, storage, fs, m, leaf, h);
      PopStep(items, seen, fs, m, leaf, h);
      f := fs[|fs| - 1];
      top := PopTop(st, storage, fs, m, leaf, h);
      fs := fs[..|fs| - 1];
      ValuesSnoc(seen, Item(f.t.n, f.t.v));
      seen := seen + [Item(f.t.n, f.t.v)];
      UnstoppedSnoc(stop, visited, top.value);
      visited := visited + [top.value];
      if stop(top.value) {
        stopped := true;
        return;
      }
      TopFields(st, storage, fs, m, leaf, h);
      if !(top.right == leaf && st.Len() > 0) {
        if f.t.r.Leaf? { AfterLeafPop(items, seen, f, fs); }
        return;
      }
      AfterLeafPop(items, seen, f, fs);
    }
  }

  /** One round: down to the left, visiting on the way back up, then one step to the right. */
  method LdrRound(leaf: Node, st: Stack<Node?>, stop: Value -> bool, top0: Node, visited0: seq<Value>,
                  ghost storage: Array<Node?>, ghost fs0: seq<Frame>, ghost m: map<Node?, Cell>, ghost h: nat,
                  ghost items: seq<Item>, ghost seen0: seq<Item>)
    returns (top: Node, visited: seq<Value>, stopped: bool, ghost fs: seq<Frame>, ghost seen: seq<Item>)
    requires Walking(st, storage, fs0, m, leaf, h) && fs0 != []
    requires fs0[|fs0| - 1].t.Bin? && top0 == fs0[|fs0| - 1].t.n
    requires items == seen0 + Remaining(fs0) && visited0 == ValuesOf(seen0)
    requires Unstopped(stop, visited0)
    modifies st.Repr()
    ensures Walking(st, storage, fs, m, leaf, h) && st.Repr() == old(st.Repr())
    ensures visited == ValuesOf(seen) && |seen0| < |seen| <= |items| && ValuesOf(seen) <= ValuesOf(items)
    ensures if stopped then StoppedAtLast(stop, visited) else Unstopped(stop, visited)
    ensures !stopped ==> items == seen + Remaining(fs)
    ensures !stopped && fs != [] ==> fs[|fs| - 1].t.Bin? && top == fs[|fs| - 1].t.n
  {
    hide Walking, Remaining, Pending, FrameOf, AfterPop, Items, ValuesOf, Unstopped, StoppedAtLast;
    ghost var f;
    top, fs := Descend(leaf, st, top0, storage, fs0, m, h, Nodes(fs0[|fs0| - 1].t));
    LeftNext(fs);
    top, visited, stopped, f, fs, seen := VisitRun(leaf, st, stop, visited0, storage, fs, m, h, items, seen0);
    AfterPopRest(items, seen, f, fs);
    ValuesPrefix(items, seen, Items(f.t.r) + Pending(fs));
    if stopped {
      return;
    }
    if top.right != leaf {
      ghost var g := Frame(RightOf(f.c, f.t), f.t.r);
      RightStep(items, seen, f, fs, m, leaf, h);
      top := top.right;
      PushTop(st, top, storage, fs, g, m, leaf, h);
      fs := fs + [g];
    } else {
      LeftNext(fs);
      assert seen + [] == seen;
    }
  }

  /** The outer loop of `rbtree_ldr`. */
  method LdrLoop(leaf: Node, st: Stack<Node?>, stop: Value -> bool, top0: Node, ghost storage: Array<Node?>,
                 ghost fs0: seq<Frame>, ghost m: map<Node?, Cell>, ghost h: nat, ghost items: seq<Item>)
    returns (visited: seq<Value>)
    requires Walking(st, storage, fs0, m, leaf, h) && Remaining(fs0) == items
    requires fs0 != [] && fs0[|fs0| - 1].t.Bin? && top0 == fs0[|fs0| - 1].t.n
    modifies st.Repr()
    ensures st.Valid() && st.Storage() == storage
    ensures visited <= ValuesOf(items)
    ensures StoppedAtLast(stop, visited) || (Unstopped(stop, visited) && |visited| == |items|)
  {
    visited := [];
    ghost var fs, seen := fs0, [];
    var top := top0;
    assert visited == ValuesOf(seen);
    WalkingStack(st, storage, fs, m, leaf, h);
    hide Walking, Remaining, ValuesOf, Unstopped, StoppedAtLast;
    while st.Len() > 0
      invariant Walking(st, storage, fs, m, leaf, h) && st.Repr() == old(st.Repr())
      invariant st.Valid() && st.Len() == |fs| && st.Storage() == storage
      invariant fs != [] ==> fs[|fs| - 1].t.Bin? && top == fs[|fs| - 1].t.n
      invariant items == seen + Remaining(fs) && visited == ValuesOf(seen)
      invariant Unstopped(stop, visited)
      decreases |items| - |seen|
    {
      var stopped;
      top, visited, stopped, fs, seen := LdrRound(leaf, st, stop, top, visited, storage, fs, m, h, items, seen);
      WalkingStack(st, storage, fs, m, leaf, h);
      if stopped {
        return;
      }
    }
    LeftNext(fs);
    assert seen + [] == seen;
    ValuesPrefix(items, seen, []);
    ValuesLength(seen);
  }

  lemma WalkingStack(st: Stack<Node?>, storage: Array<Node?>, fs: seq<Frame>, m: map<Node?, Cell>, leaf: Node, h: nat)
    requires Walking(st, storage, fs, m, leaf, h)
    ensures st.Valid() && st.Len() == |fs| && st.Storage() == storage
  {
  }

  lemma ValuesLength(s: seq<Item>)
    ensures |ValuesOf(s)| == |s|
  {
  }

  /** Visits the values in ascending order until `stop` says so. */
  method Ldr(tr: RbTree, stop: Value -> bool) returns (visited: seq<Value>, ghost grew: bool)
    requires tr.Valid()
    ensures visited <= ValuesOf(Items(tr.tree))
    ensures StoppedAtLast(stop, visited) || (Unstopped(stop, visited) && |visited| == tr.length)
    ensures forall i, j :: 0 <= i < j < |visited| ==> visited[i].key < visited[j].key
    ensures !grew
  {
    visited, grew := [], false;
    if tr.root == tr.leaf {
      assert tr.tree.Leaf?;
      return;
    }
    var st; ghost var storage, fs, m, h;
    st, storage, fs, m, h := Start(tr);
    hide Walking, Remaining, Items, ValuesOf, Unstopped, StoppedAtLast;
    visited := LdrLoop(tr.leaf, st, stop, tr.root, storage, fs, m, h, Items(tr.tree));
    grew := st.Storage() != storage;
  }

  ghost function ItemNodes(s: seq<Item>): set<Node> {
    set i | 0 <= i < |s| :: s[i].n
  }

  ghost predicate NodesDiffer(s: seq<Item>) {
    forall i, j :: 0 <= i < j < |s| ==> s[i].n != s[j].n
  }

  lemma ItemNodesConcat(a: seq<Item>, b: seq<Item>)
    ensures ItemNodes(a + b) == ItemNodes(a) + ItemNodes(b)
  {
    assert forall i :: 0 <= i < |a| ==> (a + b)[i] == a[i];
    assert forall i :: 0 <= i < |b| ==> (a + b)[|a| + i] == b[i];
  }

  lemma OneItem(x: Item)
    ensures ItemNodes([x]) == {x.n} && NodesDiffer([x])
  {
    assert [x][0] == x;
  }

  lemma DifferConcat(a: seq<Item>, b: seq<Item>)
    requires NodesDiffer(a) && NodesDiffer(b) && ItemNodes(a) !! ItemNodes(b)
    ensures NodesDiffer(a + b)
  {
    var s := a + b;
    forall i, j | 0 <= i < j < |s|
      ensures s[i].n != s[j].n
    {
      if i < |a| <= j {
        assert s[i].n in ItemNodes(a) && b[j - |a|].n in ItemNodes(b);
      }
    }
  }

  lemma {:induction false} NodesOfItems(t: Tree)
    ensures ItemNodes(Items(t)) == Nodes(t)
    ensures Distinct(t) ==> NodesDiffer(Items(t))
  {
    if t.Bin? {
      var x := Item(t.n, t.v);
      NodesOfItems(t.l);
      NodesOfItems(t.r);
      OneItem(x);
      ItemNodesConcat(Items(t.l) + [x], Items(t.r));
      ItemNodesConcat(Items(t.l), [x]);
      hide ItemNodes, NodesDiffer;
      if Distinct(t) {
        DifferConcat(Items(t.l), [x]);
        DifferConcat(Items(t.l) + [x], Items(t.r));
      }
    }
  }

  /** Closing the first of the items still open. */
  lemma CloseFirst(items: seq<Item>, seen: seq<Item>, x: Item, rest: seq<Item>)
    requires NodesDiffer(items) && items == seen + ([x] + rest)
    ensures x.n in ItemNodes(items[|seen|..])
    ensures items[|seen|..] == [x] + rest && items[|seen + [x]|..] == rest
    ensures ItemNodes(rest) == ItemNodes([x] + rest) - {x.n}
  {
    var n := |seen|;
    assert items[n] == x && items[n..][0] == x;
    ItemNodesConcat([x], rest);
    OneItem(x);
    forall i | 0 <= i < |rest|
      ensures rest[i].n != x.n
    {
      assert items[n + 1 + i] == rest[i];
    }
  }

  /** The items from position `k` on are those whose nodes are still open. */
  ghost predicate OpenFrom(tr: RbTree, items: seq<Item>, k: nat)
    reads tr
  {
    NodesDiffer(items) && k <= |items| && tr.nodes == ItemNodes(items[k..])
  }

  /** `rbtree_close_node` in the traversal: the node is open, and is closed once. */
  method CloseTop(tr: RbTree, st: Stack<Node?>, top: Node, ghost storage: Array<Node?>, ghost fs: seq<Frame>,
                  ghost m: map<Node?, Cell>, ghost h: nat, ghost items: seq<Item>, ghost seen: seq<Item>, ghost x: Item,
                  ghost rest: seq<Item>)
    requires Walking(st, storage, fs, m, tr.leaf, h)
    requires OpenFrom(tr, items, |seen|) && items == seen + ([x] + rest) && top == x.n
    modifies tr`nodes
    ensures Walking(st, storage, fs, m, tr.leaf, h)
    ensures OpenFrom(tr, items, |seen + [x]|)
  {
    CloseFirst(items, seen, x, rest);
    tr.CloseNode(top);
  }

  /** What is still to come is still open. */
  lemma StillOpen(tr: RbTree, items: seq<Item>, seen: seq<Item>, rest: seq<Item>)
    requires OpenFrom(tr, items, |seen|) && items == seen + rest
    ensures ItemNodes(rest) == tr.nodes
  {
    assert items[|seen|..] == rest;
  }

  lemma RemainingNodes(fs: seq<Frame>)
    requires fs != [] && fs[|fs| - 1].t.Bin?
    ensures Nodes(fs[|fs| - 1].t) <= ItemNodes(Remaining(fs))
  {
    var f, fs' := fs[|fs| - 1], fs[..|fs| - 1];
    assert fs' + [f] == fs;
    PushItems(fs', f);
    ItemNodesConcat(Items(f.t), Pending(fs'));
    NodesOfItems(f.t);
  }

  lemma {:induction false} PendingFirst(fs: seq<Frame>)
    requires fs != [] && fs[|fs| - 1].t.Bin?
    ensures var t := fs[|fs| - 1].t;
      && Pending(fs) == [Item(t.n, t.v)] + (Items(t.r) + Pending(fs[..|fs| - 1]))
      && t.n in ItemNodes(Pending(fs))
  {
    var t, rest := fs[|fs| - 1].t, Pending(fs[..|fs| - 1]);
    Shift([], [Item(t.n, t.v)], Items(t.r), rest);
    assert Pending(fs) == [Item(t.n, t.v)] + Items(t.r) + rest;
    hide Pending, Items;
    assert Pending(fs)[0] == Item(t.n, t.v);
  }

  /** One node of that loop: popped, its right child read, and closed. */
  method CloseOne(tr: RbTree, st: Stack<Node?>, ghost storage: Array<Node?>, ghost fs: seq<Frame>,
                  ghost m: map<Node?, Cell>, ghost h: nat, ghost items: seq<Item>, ghost seen: seq<Item>)
    returns (right: Node, ghost seen': seq<Item>)
    requires Walking(st, storage, fs, m, tr.leaf, h) && fs != []
    requires items == seen + Pending(fs) && OpenFrom(tr, items, |seen|)
    modifies st.Repr(), tr`nodes
    ensures var f, fs' := fs[|fs| - 1], fs[..|fs| - 1];
      && Walking(st, storage, fs', m, tr.leaf, h) && st.Repr() == old(st.Repr())
      && FrameOf(f, m, tr.leaf, h - |fs| + 1) && AfterPop(items, seen', f, fs')
      && right == Top(f.t.r, tr.leaf) && (right == tr.leaf <==> f.t.r.Leaf?)
      && |Pending(fs')| < |Pending(fs)|
    ensures OpenFrom(tr, items, |seen'|) && |seen| < |seen'|
  {
    hide Walking, FrameOf, Pending, AfterPop, FramesOf, OpenFrom, Items, ItemNodes;
    TopFields(st, storage, fs, m, tr.leaf, h);
    WalkingFrames(st, storage, fs, m, tr.leaf, h);
    PopStep(items, seen, fs, m, tr.leaf, h);
    StillOpen(tr, items, seen, Pending(fs));
    PendingFirst(fs);
    ghost var t := fs[|fs| - 1].t;
    var top := PopTop(st, storage, fs, m, tr.leaf, h);
    right := InUse(top, tr.nodes).right;
    seen' := seen + [Item(t.n, t.v)];
    ghost var rest := Items(t.r) + Pending(fs[..|fs| - 1]);
    CloseTop(tr, st, top, storage, fs[..|fs| - 1], m, h, items, seen, Item(t.n, t.v), rest);
  }

  /** The `do ... while` loop of `rbtree_clear`: pops and closes while there is nothing on the right. */
  method CloseRun(tr: RbTree, st: Stack<Node?>, ghost storage: Array<Node?>, ghost fs0: seq<Frame>,
                  ghost m: map<Node?, Cell>, ghost h: nat, ghost items: seq<Item>, ghost seen0: seq<Item>)
    returns (right: Node, ghost f: Frame, ghost fs: seq<Frame>, ghost seen: seq<Item>)
    requires Walking(st, storage, fs0, m, tr.leaf, h) && fs0 != []
    requires items == seen0 + Pending(fs0) && OpenFrom(tr, items, |seen0|)
    modifies st.Repr(), tr`nodes
    ensures Walking(st, storage, fs, m, tr.leaf, h) && st.Repr() == old(st.Repr())
    ensures FrameOf(f, m, tr.leaf, h - |fs|) && AfterPop(items, seen, f, fs)
    ensures OpenFrom(tr, items, |seen|) && |seen0| < |seen|
    ensures right == Top(f.t.r, tr.leaf) && (right == tr.leaf <==> f.t.r.Leaf?)
    ensures f.t.r.Leaf? ==> fs == [] && items == seen
  {
    fs, seen := fs0, seen0;
    while true
      invariant Walking(st, storage, fs, m, tr.leaf, h) && fs != [] && st.Repr() == old(st.Repr())
      invariant items == seen + Pending(fs) && OpenFrom(tr, items, |seen|) && |seen0| <= |seen|
      decreases |Pending(fs)|
    {
      hide Walking, FrameOf, Pending, AfterPop, FramesOf, OpenFrom, Items, ItemNodes;
      f := fs[|fs| - 1];
      right, seen := CloseOne(tr, st, storage, fs, m, h, items, seen);
      fs := fs[..|fs| - 1];
      WalkingStack(st, storage, fs, m, tr.leaf, h);
      if f.t.r.Leaf? { AfterLeafPop(items, seen, f, fs); }
      if !(right == tr.leaf && st.Len() > 0) {
        return;
      }
    }
  }

  method ClearRound(tr: RbTree, st: Stack<Node?>, top0: Node, ghost storage: Array<Node?>, ghost fs0: seq<Frame>,
                    ghost m: map<Node?, Cell>, ghost h: nat, ghost items: seq<Item>, ghost seen0: seq<Item>)
    returns (top: Node, ghost fs: seq<Frame>, ghost seen: seq<Item>)
    requires Walking(st, storage, fs0, m, tr.leaf, h) && fs0 != []
    requires fs0[|fs0| - 1].t.Bin? && top0 == fs0[|fs0| - 1].t.n
    requires items == seen0 + Remaining(fs0) && OpenFrom(tr, items, |seen0|)
    modifies st.Repr(), tr`nodes
    ensures Walking(st, storage, fs, m, tr.leaf, h) && st.Repr() == old(st.Repr())
    ensures items == seen + Remaining(fs) && OpenFrom(tr, items, |seen|) && |seen0| < |seen| <= |items|
    ensures fs != [] ==> fs[|fs| - 1].t.Bin? && top == fs[|fs| - 1].t.n
  {
    hide Walking, Remaining, Pending, FrameOf, AfterPop, Items, OpenFrom, ItemNodes;
    ghost var f;
    var right;
    StillOpen(tr, items, seen0, Remaining(fs0));
    RemainingNodes(fs0);
    top, fs := Descend(tr.leaf, st, top0, storage, fs0, m, h, tr.nodes);
    LeftNext(fs);
    right, f, fs, seen := CloseRun(tr, st, storage, fs, m, h, items, seen0);
    AfterPopRest(items, seen, f, fs);
    if right != tr.leaf {
      ghost var g := Frame(RightOf(f.c, f.t), f.t.r);
      RightStep(items, seen, f, fs, m, tr.leaf, h);
      top := right;
      PushTop(st, top, storage, fs, g, m, tr.leaf, h);
      fs := fs + [g];
    } else {
      LeftNext(fs);
      assert seen + [] == seen;
    }
  }

  /** The outer loop of `rbtree_clear`. */
  method ClearLoop(tr: RbTree, st: Stack<Node?>, top0: Node, ghost storage: Array<Node?>, ghost fs0: seq<Frame>,
                   ghost m: map<Node?, Cell>, ghost h: nat, ghost items: seq<Item>)
    requires Walking(st, storage, fs0, m, tr.leaf, h) && Remaining(fs0) == items && OpenFrom(tr, items, 0)
    requires fs0 != [] && fs0[|fs0| - 1].t.Bin? && top0 == fs0[|fs0| - 1].t.n
    modifies st.Repr(), tr`nodes
    ensures st.Valid() && st.Storage() == storage && tr.nodes == {}
  {
    hide Walking, Remaining, OpenFrom;
    ghost var fs, seen := fs0, [];
    var top := top0;
    WalkingStack(st, storage, fs, m, tr.leaf, h);
    while st.Len() > 0
      invariant Walking(st, storage, fs, m, tr.leaf, h) && st.Repr() == old(st.Repr())
      invariant st.Valid() && st.Len() == |fs| && st.Storage() == storage
      invariant fs != [] ==> fs[|fs| - 1].t.Bin? && top == fs[|fs| - 1].t.n
      invariant items == seen + Remaining(fs) && OpenFrom(tr, items, |seen|)
      decreases |items| - |seen|
    {
      top, fs, seen := ClearRound(tr, st, top, storage, fs, m, h, items, seen);
      WalkingStack(st, storage, fs, m, tr.leaf, h);
    }
    LeftNext(fs);
    NoneOpen(tr, items, seen);
  }

  lemma NoneOpen(tr: RbTree, items: seq<Item>, seen: seq<Item>)
    requires OpenFrom(tr, items, |seen|) && items == seen + []
    ensures tr.nodes == {}
  {
  }

  lemma AllOpen(tr: RbTree)
    requires tr.Valid()
    ensures OpenFrom(tr, Items(tr.tree), 0)
  {
    NodesOfItems(tr.tree);
    assert Items(tr.tree)[0..] == Items(tr.tree);
  }

  method ClearNodes(tr: RbTree) returns (ghost grew: bool)
    requires tr.Valid() && tr.root != tr.leaf
    modifies tr`nodes
    ensures tr.nodes == {} && !grew
  {
    hide Walking, Remaining, Items, OpenFrom, RbShape.At;
    var st; ghost var storage, fs, m, h;
    st, storage, fs, m, h := Start(tr);
    AllOpen(tr);
    ClearLoop(tr, st, tr.root, storage, fs, m, h, Items(tr.tree));
    grew := st.Storage() != storage;
  }

  /** Closes every node once, reading none after it is closed; the tree is empty again. */
  method Clear(tr: RbTree) returns (ghost grew: bool)
    requires tr.Valid()
    modifies tr
    ensures tr.Valid() && tr.Contents() == map[] && tr.nodes == {} && !grew
  {
    grew := false;
    if tr.root == tr.leaf {
      assert tr.tree.Leaf?;
      return;
    }
    grew := ClearNodes(tr);
    tr.root := tr.leaf;
    tr.length := 0;
    tr.tree := Leaf;
  }
}
