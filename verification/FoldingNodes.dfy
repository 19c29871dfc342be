/** The parser's expression nodes, the evaluator that runs on them with its value stack, and the
    overwriting of nodes. */
module FoldingNodes {
  import opened Folding

  datatype Node =
    | Literal(v: Val)
    | Opaque(id: int, parts: Operands)
    | MinusNode(operand: Expression)
    | NotNode(operand: Expression)
    | BinaryNode(op: Op, left: Expression, right: Expression)

  /** Operands in the order in which they are evaluated. */
  datatype Operands = NoOperand | Operand(e: Expression, rest: Operands)

  class Expression {
    var u: Node

    constructor (u: Node)
      ensures this.u == u
    {
      this.u := u;
    }

    /** `set_expression` */
    method Set(v: Val)
      modifies this
      ensures u == if v.Int? || v.Float? || v.Bool? then Literal(v) else old(u)
    {
      if v.Int? {
        u := Literal(v);
      } else if v.Float? {
        u := Literal(v);
      } else if v.Bool? {
        u := Literal(v);
      }
    }
  }

  /** The nodes of an expression. */
  datatype Tree =
    | Leaf(at: Expression)
    | One(at: Expression, t: Tree)
    | Two(at: Expression, l: Tree, r: Tree)
    | Many(at: Expression, ts: Trees)

  datatype Trees = NoTree | AndTrees(t: Tree, rest: Trees)

  ghost function Nodes(t: Tree): set<Expression> {
    match t
    case Leaf(at) => {at}
    case One(at, x) => {at} + Nodes(x)
    case Two(at, l, r) => {at} + Nodes(l) + Nodes(r)
    case Many(at, ts) => {at} + AllNodes(ts)
  }

  ghost function AllNodes(ts: Trees): set<Expression> {
    match ts
    case NoTree => {}
    case AndTrees(t, rest) => Nodes(t) + AllNodes(rest)
  }

  ghost function Heads(ts: Trees): Operands {
    match ts
    case NoTree => NoOperand
    case AndTrees(t, rest) => Operand(t.at, Heads(rest))
  }

  lemma {:induction false} NodesAllocated(t: Tree)
    ensures forall n <- Nodes(t) :: allocated(n)
  {
    match t
    case Leaf(_) =>
    case One(_, x) => NodesAllocated(x);
    case Two(_, l, r) =>
      NodesAllocated(l);
      NodesAllocated(r);
    case Many(_, ts) => AllAllocated(ts);
  }

  lemma {:induction false} AllAllocated(ts: Trees)
    ensures forall n <- AllNodes(ts) :: allocated(n)
  {
    match ts
    case NoTree =>
    case AndTrees(t, rest) =>
      NodesAllocated(t);
      AllAllocated(rest);
  }

  /** The nodes in the heap are linked like the tree, and no node is used twice. */
  ghost predicate Linked(t: Tree)
    reads Nodes(t)
  {
    match t
    case Leaf(at) => at.u.Literal?
    case One(at, x) => at !in Nodes(x) && Linked(x) && (at.u == MinusNode(x.at) || at.u == NotNode(x.at))
    case Two(at, l, r) =>
      && at !in Nodes(l) + Nodes(r) && Nodes(l) !! Nodes(r) && Linked(l) && Linked(r)
      && at.u.BinaryNode? && at.u.left == l.at && at.u.right == r.at
    case Many(at, ts) => at !in AllNodes(ts) && AllLinked(ts) && at.u.Opaque? && at.u.parts == Heads(ts)
  }

  ghost predicate AllLinked(ts: Trees)
    reads AllNodes(ts)
  {
    match ts
    case NoTree => true
    case AndTrees(t, rest) => Nodes(t) !! AllNodes(rest) && Linked(t) && AllLinked(rest)
  }

  /** What the nodes stand for. */
  ghost function Meaning(t: Tree): Exp
    requires Linked(t)
    reads Nodes(t)
  {
    match t
    case Leaf(at) => Lit(at.u.v)
    case One(at, x) => if at.u.MinusNode? then Minus(Meaning(x)) else Not(Meaning(x))
    case Two(at, l, r) => Binary(at.u.op, Meaning(l), Meaning(r))
    case Many(at, ts) => Other(at.u.id, Meanings(ts))
  }

  ghost function Meanings(ts: Trees): Parts
    requires AllLinked(ts)
    reads AllNodes(ts)
  {
    match ts
    case NoTree => NoMore
    case AndTrees(t, rest) => Part(Meaning(t), Meanings(rest))
  }

  lemma {:induction false} EvalBinaryIs(m: Machine, env: Env, op: Op, x: Exp, y: Exp, st: int)
    ensures var (a, s) := Eval(m, env, x, st); var (b, s2) := Eval(m, env, y, s);
      Eval(m, env, Binary(op, x, y), st)
      == if a.Err? then (a, s)
         else if Decided(op, a.v) then (Decision(op, a.v), s)
         else if b.Err? then (b, s2) else (Combined(m, op, a.v, b.v), s2)
  {
  }

  /** Both operands are evaluated, then the operator is applied. */
  ghost function Operator(m: Machine, env: Env, op: Op, x: Exp, y: Exp, st: int): (Outcome, int) {
    var (a, s) := Eval(m, env, x, st);
    if a.Err? then (a, s)
    else
      var (b, s2) := Eval(m, env, y, s);
      if b.Err? then (b, s2) else (BinaryValue(m, op, a.v, b.v), s2)
  }

  class Evaluator {
    const machine: Machine
    var stack: seq<Val>

    constructor (machine: Machine)
      ensures this.machine == machine && stack == []
    {
      this.machine, stack := machine, [];
    }

    /** What evaluating leaves: one value more on the stack, or an error and all that was there before. */
    ghost predicate Leaves(was: seq<Val>, o: Outcome, err: Option)
      reads this`stack
    {
      match o
      case Ok(v) => err == None && stack == was + [v]
      case Err(x) => err == Some(x) && was <= stack
    }

    /** `eval_expression` */
    method EvalExpression(env: Env, e: Expression, ghost t: Tree, ghost x: Exp, st: int) returns (err: Option, st': int)
      requires Linked(t) && t.at == e && Meaning(t) == x
      modifies this`stack
      ensures Leaves(old(stack), Eval(machine, env, x, st).0, err)
      ensures st' == Eval(machine, env, x, st).1
      decreases x, 1
    {
      err, st' := None, st;
      match e.u
      case Literal(v) =>
        stack := stack + [v];
      case Opaque(id, parts) =>
        err, st' := EvalOpaque(env, id, parts, t.ts, x.parts, [], st);
      case MinusNode(operand) =>
        err, st' := EvalMinus(env, operand, t.t, x.e, st);
      case NotNode(operand) =>
        err, st' := EvalExpression(env, operand, t.t, x.e, st);
        if err.Some? { return; }
        var top := stack[|stack| - 1];
        if !top.Bool? { return Some(NotBooleanType), st'; }
        stack := stack[..|stack| - 1] + [Bool(!top.b)];
      case BinaryNode(op, l, r) =>
        if op == And || op == Or {
          err, st' := EvalAndOr(env, op, l, r, t.l, t.r, x.l, x.r, st);
        } else if op == Concat {
          err, st' := EvalConcat(env, l, r, t.l, t.r, x.l, x.r, st);
        } else {
          err, st' := EvalOperator(env, op, l, r, t.l, t.r, x.l, x.r, st);
        }
    }

    /** A value is left on the stack, or an error is raised. */
    method Give(o: Outcome) returns (err: Option)
      modifies this`stack
      ensures Leaves(old(stack), o, err)
    {
      match o
      case Ok(v) =>
        stack := stack + [v];
        err := None;
      case Err(e) =>
        err := Some(e);
    }

    /** A call, an assignment and so on: each operand is evaluated in turn and taken off the stack. */
    method EvalOpaque(env: Env, id: int, parts: Operands, ghost ts: Trees, ghost xs: Parts, values: seq<Val>, st: int)
      returns (err: Option, st': int)
      requires AllLinked(ts) && parts == Heads(ts) && Meanings(ts) == xs
      modifies this`stack
      ensures Leaves(old(stack), EvalParts(machine, env, id, xs, values, st).0, err)
      ensures st' == EvalParts(machine, env, id, xs, values, st).1
      decreases xs, 0
    {
      if parts.NoOperand? {
        var (o, s) := env.whole(id, values, st);
        err := Give(o);
        return err, s;
      }
      var move := env.before(id, values, st);
      if move.Stop? {
        err := Give(move.o);
        return err, move.st;
      }
      AllAllocated(ts.rest);
      NodesAllocated(ts.t);
      err, st' := EvalExpression(env, parts.e, ts.t, xs.e, move.st);
      if err.Some? { return; }
      var v := stack[|stack| - 1];
      stack := stack[..|stack| - 1];
      assert stack == old(stack);
      err, st' := EvalOpaque(env, id, parts.rest, ts.rest, xs.rest, values + [v], st');
    }

    /** `eval_minus_expression`: the operand is negated where it lies on the stack. */
    method EvalMinus(env: Env, operand: Expression, ghost t: Tree, ghost x: Exp, st: int)
      returns (err: Option, st': int)
      requires Linked(t) && t.at == operand && Meaning(t) == x
      modifies this`stack
      ensures Leaves(old(stack), Eval(machine, env, Minus(x), st).0, err)
      ensures st' == Eval(machine, env, Minus(x), st).1
      decreases x, 2
    {
      err, st' := EvalExpression(env, operand, t, x, st);
      if err.Some? { return; }
      var top := stack[|stack| - 1];
      if top.Int? {
        stack := stack[..|stack| - 1] + [Int(-top.i)];
      } else if top.Float? {
        stack := stack[..|stack| - 1] + [Float(machine.negate(top.f))];
      } else {
        err := Some(MinusOperandType);
      }
    }

    /** `eval_logical_and_or_expression` */
    method EvalAndOr(env: Env, op: Op, l: Expression, r: Expression, ghost tl: Tree, ghost tr: Tree,
        ghost x: Exp, ghost y: Exp, st: int)
      returns (err: Option, st': int)
      requires op == And || op == Or
      requires Linked(tl) && Linked(tr) && tl.at == l && tr.at == r && Meaning(tl) == x && Meaning(tr) == y
      modifies this`stack
      ensures Leaves(old(stack), Eval(machine, env, Binary(op, x, y), st).0, err)
      ensures st' == Eval(machine, env, Binary(op, x, y), st).1
      decreases Binary(op, x, y), 0
    {
      hide Linked, Meaning;
      hide Eval;
      NodesAllocated(tr);
      EvalBinaryIs(machine, env, op, x, y, st);
      err, st' := EvalExpression(env, l, tl, x, st);
      if err.Some? { return; }
      var a := stack[|stack| - 1];
      stack := stack[..|stack| - 1];
      assert stack == old(stack);
      if !a.Bool? { return Some(NotBooleanType), st'; }
      if a.b == (op == Or) {
        stack := stack + [a];
        return;
      }
      err, st' := EvalExpression(env, r, tr, y, st');
      if err.Some? { return; }
      var b := stack[|stack| - 1];
      stack := stack[..|stack| - 1] + [Bool(if b.Bool? then b.b else machine.truth(b))];
    }

    /** `eval_binary_concat_string` */
    method EvalConcat(env: Env, l: Expression, r: Expression, ghost tl: Tree, ghost tr: Tree,
        ghost x: Exp, ghost y: Exp, st: int) returns (err: Option, st': int)
      requires Linked(tl) && Linked(tr) && tl.at == l && tr.at == r && Meaning(tl) == x && Meaning(tr) == y
      modifies this`stack
      ensures Leaves(old(stack), Eval(machine, env, Binary(Concat, x, y), st).0, err)
      ensures st' == Eval(machine, env, Binary(Concat, x, y), st).1
      decreases Binary(Concat, x, y), 0
    {
      hide Linked, Meaning;
      hide Eval;
      NodesAllocated(tr);
      EvalBinaryIs(machine, env, Concat, x, y, st);
      err, st' := EvalExpression(env, l, tl, x, st);
      if err.Some? { return; }
      err, st' := EvalExpression(env, r, tr, y, st');
      if err.Some? { return; }
      var a, b := stack[|stack| - 2], stack[|stack| - 1];
      stack := stack[..|stack| - 2];
      stack := stack + [Str(machine.text(a) + machine.text(b))];
    }

    /** `eval_binary_expression`, whatever the operator. */
    method EvalOperator(env: Env, op: Op, l: Expression, r: Expression, ghost tl: Tree, ghost tr: Tree,
        ghost x: Exp, ghost y: Exp, st: int) returns (err: Option, st': int)
      requires Linked(tl) && Linked(tr) && tl.at == l && tr.at == r && Meaning(tl) == x && Meaning(tr) == y
      modifies this`stack
      ensures Leaves(old(stack), Operator(machine, env, op, x, y, st).0, err)
      ensures st' == Operator(machine, env, op, x, y, st).1
      decreases Binary(op, x, y), 0
    {
      hide Linked, Meaning, BinaryValue, Eval;
      NodesAllocated(tr);
      err, st' := EvalExpression(env, l, tl, x, st);
      if err.Some? { return; }
      err, st' := EvalExpression(env, r, tr, y, st');
      if err.Some? { return; }
      var o := BinaryValue(machine, op, stack[|stack| - 2], stack[|stack| - 1]);
      if o.Err? { return Some(o.e), st'; }
      stack := stack[..|stack| - 2];
      stack := stack + [o.v];
    }
  }

  datatype Option = None | Some(e: Error)

  // ---------------------------------------------------------------- what the parser calls

  predicate NumberNode(u: Node) {
    u.Literal? && Numeric(u.v)
  }

  /** The node of a number is a leaf. */
  lemma {:induction false} NumberLeaf(t: Tree)
    requires Linked(t)
    ensures t.at in Nodes(t)
    ensures NumberNode(t.at.u) <==> Number(Meaning(t))
    ensures NumberNode(t.at.u) ==> t == Leaf(t.at) && Meaning(t) == Lit(t.at.u.v)
  {
  }

  /** `t'` shows what the parser should have made, out of the old nodes and new ones. */
  ghost predicate Made(f: Folded<Exp>, err: Option, t': Tree)
    reads if err == None then Nodes(t') else {}
  {
    match f
    case Done(x) => err == None && Linked(t') && Meaning(t') == x
    case Failed(e) => err == Some(e)
  }

  /** While parsing, nothing but number literals is evaluated. */
  function Nothing(): Env {
    Env((id, values, st) => GoOn(st), (id, values, st) => (Ok(Null), st))
  }

  ghost predicate AllMade(f: Folded<Parts>, err: Option, ts: Trees)
    reads if err == None then AllNodes(ts) else {}
  {
    match f
    case Done(xs) => err == None && AllLinked(ts) && Meanings(ts) == xs
    case Failed(e) => err == Some(e)
  }

  method CreateMinus(ev: Evaluator, operand: Expression, ghost t: Tree)
    returns (err: Option, e: Expression, ghost t': Tree)
    requires Linked(t) && t.at == operand
    modifies ev`stack, operand
    ensures Made(FoldMinus(ev.machine, old(Meaning(t))), err, t') && t'.at == e
    ensures if err == None then ev.stack == old(ev.stack) else old(ev.stack) <= ev.stack
    ensures forall n <- Nodes(t') :: n in Nodes(t) || fresh(n)
  {
    NumberLeaf(t);
    NodesAllocated(t);
    ghost var x := Meaning(t);
    err, e, t' := None, operand, t;
    if NumberNode(operand.u) {
      var failed, _ := ev.EvalMinus(Nothing(), operand, t, x, 0);
      err := failed;
      if err == None {
        var v := ev.stack[|ev.stack| - 1];
        ev.stack := ev.stack[..|ev.stack| - 1];
        operand.Set(v);
      }
    } else {
      e := new Expression(MinusNode(operand));
      t' := One(e, t);
    }
  }

  method CreateBinary(ev: Evaluator, op: Op, left: Expression, right: Expression, ghost l: Tree, ghost r: Tree)
    returns (err: Option, e: Expression, ghost t': Tree)
    requires Linked(l) && Linked(r) && l.at == left && r.at == right && Nodes(l) !! Nodes(r)
    modifies ev`stack, left
    ensures Made(FoldBinary(ev.machine, op, old(Meaning(l)), old(Meaning(r))), err, t') && t'.at == e
    ensures if err == None then ev.stack == old(ev.stack) else old(ev.stack) <= ev.stack
    ensures forall n <- Nodes(t') :: n in Nodes(l) || n in Nodes(r) || fresh(n)
  {
    NumberLeaf(l);
    NumberLeaf(r);
    NodesAllocated(l);
    NodesAllocated(r);
    ghost var x, y := Meaning(l), Meaning(r);
    err, e, t' := None, left, l;
    if NumberNode(left.u) && NumberNode(right.u) {
      hide Linked, Meaning, BinaryNumeric;
      err := FoldNumbers(ev, op, left, right, l, r);
    } else {
      hide BinaryNumeric, Meaning;
      e := new Expression(BinaryNode(op, left, right));
      t' := Two(e, l, r);
      TwoMeans(t', op, x, y);
    }
  }

  lemma {:induction false} TwoMeans(t: Tree, op: Op, x: Exp, y: Exp)
    requires t.Two? && t.at.u == BinaryNode(op, t.l.at, t.r.at) && t.at !in Nodes(t.l) + Nodes(t.r)
    requires Linked(t.l) && Linked(t.r) && Nodes(t.l) !! Nodes(t.r) && Meaning(t.l) == x && Meaning(t.r) == y
    ensures Linked(t) && Meaning(t) == Binary(op, x, y)
  {
  }

  /** The left literal becomes the result. */
  method FoldNumbers(ev: Evaluator, op: Op, left: Expression, right: Expression, ghost l: Tree, ghost r: Tree)
    returns (err: Option)
    requires l == Leaf(left) && r == Leaf(right) && NumberNode(left.u) && NumberNode(right.u)
    modifies ev`stack, left
    ensures Made(Folding.Literal(BinaryNumeric(ev.machine, op, old(left.u.v), old(right.u.v))), err, l)
    ensures if err == None then ev.stack == old(ev.stack) else old(ev.stack) <= ev.stack
  {
    NumericOperands(ev.machine, op, left.u.v, right.u.v);
    var v;
    err, v := EvalNumbers(ev, op, left, right, l, r);
    if err == None {
      left.Set(v);
    }
  }

  /** `crb_eval_binary_expression` on two number literals. */
  method EvalNumbers(ev: Evaluator, op: Op, left: Expression, right: Expression, ghost l: Tree, ghost r: Tree)
    returns (err: Option, v: Val)
    requires l == Leaf(left) && r == Leaf(right) && NumberNode(left.u) && NumberNode(right.u)
    modifies ev`stack
    ensures var o := BinaryNumeric(ev.machine, op, left.u.v, right.u.v);
      if o.Ok? then err == None && v == o.v && ev.stack == old(ev.stack)
      else err == Some(o.e) && old(ev.stack) <= ev.stack
  {
    hide BinaryValue, BinaryNumeric;
    NumericOperands(ev.machine, op, left.u.v, right.u.v);
    v := Null;
    var failed, _ := ev.EvalOperator(Nothing(), op, left, right, l, r, Lit(left.u.v), Lit(right.u.v), 0);
    err := failed;
    if err == None {
      v := ev.stack[|ev.stack| - 1];
      ev.stack := ev.stack[..|ev.stack| - 1];
    }
  }

  /** The parser's reductions for an expression, innermost and leftmost first. */
  method Build(ev: Evaluator, src: Exp) returns (err: Option, e: Expression, ghost t: Tree)
    modifies ev`stack
    ensures Made(Fold(ev.machine, src), err, t)
    ensures err == None ==> t.at == e && fresh(Nodes(t)) && ev.stack == old(ev.stack)
    ensures old(ev.stack) <= ev.stack
    decreases src, 1
  {
    match src
    case Lit(v) =>
      e := new Expression(Literal(v));
      err, t := None, Leaf(e);
    case Other(id, xs) =>
      err, e, t := BuildOpaque(ev, id, xs);
    case Minus(x) =>
      err, e, t := Build(ev, x);
      if err.Some? { return; }
      err, e, t := CreateMinus(ev, e, t);
    case Not(x) =>
      err, e, t := Build(ev, x);
      if err.Some? { return; }
      NodesAllocated(t);
      var operand := e;
      e := new Expression(NotNode(operand));
      t := One(e, t);
    case Binary(op, x, y) =>
      err, e, t := BuildBinary(ev, op, x, y);
  }

  method BuildOpaque(ev: Evaluator, id: int, xs: Parts) returns (err: Option, e: Expression, ghost t: Tree)
    modifies ev`stack
    ensures Made(Fold(ev.machine, Other(id, xs)), err, t)
    ensures err == None ==> t.at == e && fresh(Nodes(t)) && ev.stack == old(ev.stack)
    ensures old(ev.stack) <= ev.stack
    decreases xs, 1
  {
    ghost var ts;
    var parts;
    err, parts, ts := BuildParts(ev, xs);
    AllAllocated(ts);
    e := new Expression(Opaque(id, parts));
    t := Many(e, ts);
  }

  /** The operands, each folded before the next is read. */
  method BuildParts(ev: Evaluator, xs: Parts) returns (err: Option, parts: Operands, ghost ts: Trees)
    modifies ev`stack
    ensures AllMade(FoldParts(ev.machine, xs), err, ts)
    ensures err == None ==> parts == Heads(ts) && fresh(AllNodes(ts)) && ev.stack == old(ev.stack)
    ensures old(ev.stack) <= ev.stack
    decreases xs, 0
  {
    err, parts, ts := None, NoOperand, NoTree;
    if xs.Part? {
      var e;
      ghost var t;
      err, e, t := Build(ev, xs.e);
      if err.Some? { return; }
      NodesAllocated(t);
      err, parts, ts := BuildParts(ev, xs.rest);
      parts, ts := Operand(e, parts), AndTrees(t, ts);
    }
  }

  method BuildBinary(ev: Evaluator, op: Op, x: Exp, y: Exp) returns (err: Option, e: Expression, ghost t: Tree)
    modifies ev`stack
    ensures Made(Fold(ev.machine, Binary(op, x, y)), err, t)
    ensures err == None ==> t.at == e && fresh(Nodes(t)) && ev.stack == old(ev.stack)
    ensures old(ev.stack) <= ev.stack
    decreases Binary(op, x, y), 0
  {
    hide Linked, Meaning, FoldBinary;
    err, e, t := Build(ev, x);
    if err.Some? { return; }
    ghost var l := t;
    var left := e;
    NodesAllocated(l);
    err, e, t := Build(ev, y);
    if err.Some? { return; }
    err, e, t := CreateBinary(ev, op, left, e, l, t);
  }

  /** A program that parses gives what its source says, in every environment. */
  method Run(ev: Evaluator, env: Env, src: Exp, st: int) returns (rejected: Option, err: Option, st': int)
    modifies ev`stack
    ensures rejected.Some? <==> Bad(ev.machine, src)
    ensures rejected == None ==>
      && ev.Leaves(old(ev.stack), Eval(ev.machine, env, src, st).0, err)
      && st' == Eval(ev.machine, env, src, st).1
  {
    FoldFails(ev.machine, src);
    var e;
    ghost var t;
    rejected, e, t := Build(ev, src);
    err, st' := None, st;
    if rejected == None {
      FoldPreserves(ev.machine, env, src, st);
      err, st' := ev.EvalExpression(env, e, t, Fold(ev.machine, src).e, st);
    }
  }
}
