/** Constant folding: the parser evaluates operators on number literals and overwrites the left
    operand's node with the result. */
module Folding {

  type Float = int   // a double by its bit pattern; what the machine computes with it is a parameter

  datatype Op =
    | Add | Sub | Mul | Div | Mod
    | Eq | Ne | Gt | Ge | Lt | Le
    | And | Or | Concat

  datatype Val =
    | Null
    | Bool(b: bool)
    | Int(i: int)
    | Float(f: Float)
    | Str(s: string)
    | Obj(id: int)       // an array, an associative array or a native pointer
    | Callable(id: int)  // a closure, a built-in method or a module: no operand of any operator

  datatype Error =
    | DivisionByZero | MinusOperandType | BadOperandType | NotBooleanType | NotBooleanOperator
    | NotNullOperator | BadOperatorForString | LogicalOpOnNumber | Thrown(code: int)

  datatype Outcome = Ok(v: Val) | Err(e: Error)

  /** An expression as the programmer wrote it. `Other` is anything the parser never folds itself: a name, a
      call, an assignment, an index and so on. Its subexpressions stand in the order in which they are evaluated. */
  datatype Exp =
    | Lit(v: Val)
    | Other(id: int, parts: Parts)
    | Minus(e: Exp)
    | Not(e: Exp)
    | Binary(op: Op, l: Exp, r: Exp)

  datatype Parts = NoMore | Part(e: Exp, rest: Parts)

  predicate MathOp(op: Op) { op.Add? || op.Sub? || op.Mul? || op.Div? || op.Mod? }
  predicate CompareOp(op: Op) { op.Eq? || op.Ne? || op.Gt? || op.Ge? || op.Lt? || op.Le? }
  predicate LogicalOp(op: Op) { op.And? || op.Or? }

  /** Everything about the machine that folding does not look into. */
  datatype Machine = Machine(
    math: (Op, Float, Float) -> Float,
    compare: (Op, Float, Float) -> bool,
    negate: Float -> Float,
    ofInt: int -> Float,
    text: Val -> string,
    truth: Val -> bool)  // the boolean read from the cell of a value that is no boolean

  /** What a call, an assignment and so on does before it turns to its next subexpression. */
  datatype Move = GoOn(st: int) | Stop(o: Outcome, st: int)

  /** What such an expression does to the state of the program, given the values of the subexpressions evaluated so
      far: before each of them, where it may also stop, and at the end, where it gives its value. */
  datatype Env = Env(before: (int, seq<Val>, int) -> Move, whole: (int, seq<Val>, int) -> (Outcome, int))

  // ---------------------------------------------------------------- what the operators compute

  /** C division: the quotient is cut off toward zero. */
  function Quotient(a: int, b: int): int
    requires b != 0
  {
    if (a < 0) == (b < 0) then Abs(a) / Abs(b) else -(Abs(a) / Abs(b))
  }

  function Remainder(a: int, b: int): int
    requires b != 0
  {
    if a < 0 then -(Abs(a) % Abs(b)) else Abs(a) % Abs(b)
  }

  function Abs(a: int): nat {
    if a < 0 then -a else a
  }

  /** The remainder has the sign of the dividend and is the only one of its size that does. */
  lemma TruncatedDivision(a: int, b: int)
    requires b != 0
    ensures a == Quotient(a, b) * b + Remainder(a, b)
    ensures Abs(Remainder(a, b)) < Abs(b)
    ensures Remainder(a, b) == 0 || (Remainder(a, b) < 0 <==> a < 0)
  {
    var x, y := Abs(a), Abs(b);
    assert x == x / y * y + x % y;
    if b < 0 { Signs(x / y, y); }
  }

  lemma Signs(q: int, y: int)
    ensures (-q) * (-y) == q * y && q * (-y) == -(q * y)
  {
  }

  function BinaryInt(op: Op, a: int, b: int): Outcome {
    match op
    case Add => Ok(Int(a + b))
    case Sub => Ok(Int(a - b))
    case Mul => Ok(Int(a * b))
    case Div => if b == 0 then Err(DivisionByZero) else Ok(Int(Quotient(a, b)))
    case Mod => if b == 0 then Err(DivisionByZero) else Ok(Int(Remainder(a, b)))
    case Eq => Ok(Bool(a == b))
    case Ne => Ok(Bool(a != b))
    case Gt => Ok(Bool(a > b))
    case Ge => Ok(Bool(a >= b))
    case Lt => Ok(Bool(a < b))
    case Le => Ok(Bool(a <= b))
    case _ => Err(LogicalOpOnNumber)
  }

  function BinaryDouble(m: Machine, op: Op, a: Float, b: Float): Outcome {
    if MathOp(op) then Ok(Float(m.math(op, a, b)))
    else if CompareOp(op) then Ok(Bool(m.compare(op, a, b)))
    else Err(LogicalOpOnNumber)
  }

  predicate Numeric(v: Val) { v.Int? || v.Float? }
  predicate ObjectValue(v: Val) { v.Str? || v.Obj? }

  function BinaryNumeric(m: Machine, op: Op, a: Val, b: Val): Outcome
    requires Numeric(a) && Numeric(b)
  {
    if a.Int? && b.Int? then BinaryInt(op, a.i, b.i)
    else BinaryDouble(m, op, if a.Int? then m.ofInt(a.i) else a.f, if b.Int? then m.ofInt(b.i) else b.f)
  }

  function CompareString(op: Op, a: string, b: string): Outcome {
    match op
    case Eq => Ok(Bool(a == b))
    case Ne => Ok(Bool(a != b))
    case Gt => Ok(Bool(Before(b, a)))
    case Ge => Ok(Bool(!Before(a, b)))
    case Lt => Ok(Bool(Before(a, b)))
    case Le => Ok(Bool(!Before(b, a)))
    case _ => Err(BadOperatorForString)
  }

  predicate Before(a: string, b: string) {
    b != "" && (a == "" || a[0] < b[0] || (a[0] == b[0] && Before(a[1..], b[1..])))
  }

  /** `eval_binary_expression` on two values. */
  function BinaryValue(m: Machine, op: Op, a: Val, b: Val): Outcome {
    if Numeric(a) && Numeric(b) then BinaryNumeric(m, op, a, b)
    else if a.Bool? && b.Bool? then
      (if op == Eq then Ok(Bool(a.b == b.b)) else if op == Ne then Ok(Bool(a.b != b.b)) else Err(NotBooleanOperator))
    else if a.Str? && op == Add then Ok(Str(a.s + m.text(b)))
    else if a.Str? && b.Str? then CompareString(op, a.s, b.s)
    else if a.Null? || b.Null? then
      (if op == Eq then Ok(Bool(a == b)) else if op == Ne then Ok(Bool(a != b)) else Err(NotNullOperator))
    else if ObjectValue(a) && ObjectValue(b) then Ok(Bool(a == b))
    else Err(BadOperandType)
  }

  function MinusValue(m: Machine, v: Val): Outcome {
    match v
    case Int(i) => Ok(Int(-i))
    case Float(f) => Ok(Float(m.negate(f)))
    case _ => Err(MinusOperandType)
  }

  /** The left operand of `&&` or `||` is enough. */
  predicate Decided(op: Op, a: Val) {
    LogicalOp(op) && (!a.Bool? || a.b == (op == Or))
  }

  function Decision(op: Op, a: Val): Outcome {
    if a.Bool? then Ok(a) else Err(NotBooleanType)
  }

  function Combined(m: Machine, op: Op, a: Val, b: Val): Outcome {
    if LogicalOp(op) then Ok(Bool(if b.Bool? then b.b else m.truth(b)))
    else if op == Concat then Ok(Str(m.text(a) + m.text(b)))
    else BinaryValue(m, op, a, b)
  }

  // ---------------------------------------------------------------- evaluation

  /** The meaning of an expression: its value or error, and the state it leaves. */
  ghost function Eval(m: Machine, env: Env, e: Exp, st: int): (Outcome, int)
    decreases e
  {
    match e
    case Lit(v) => (Ok(v), st)
    case Other(id, parts) => EvalParts(m, env, id, parts, [], st)
    case Minus(x) =>
      var (a, s) := Eval(m, env, x, st);
      if a.Err? then (a, s) else (MinusValue(m, a.v), s)
    case Not(x) =>
      var (a, s) := Eval(m, env, x, st);
      if a.Err? then (a, s) else if a.v.Bool? then (Ok(Bool(!a.v.b)), s) else (Err(NotBooleanType), s)
    case Binary(op, l, r) =>
      var (a, s) := Eval(m, env, l, st);
      if a.Err? then (a, s)
      else if Decided(op, a.v) then (Decision(op, a.v), s)
      else
        var (b, s2) := Eval(m, env, r, s);
        if b.Err? then (b, s2) else (Combined(m, op, a.v, b.v), s2)
  }

  /** The subexpressions that are left, after those with these values. */
  ghost function EvalParts(m: Machine, env: Env, id: int, parts: Parts, values: seq<Val>, st: int): (Outcome, int)
    decreases parts
  {
    match parts
    case NoMore => env.whole(id, values, st)
    case Part(x, rest) =>
      match env.before(id, values, st) {
        case Stop(o, s) => (o, s)
        case GoOn(s) =>
          var (a, s2) := Eval(m, env, x, s);
          if a.Err? then (a, s2) else EvalParts(m, env, id, rest, values + [a.v], s2)
      }
  }

  // ---------------------------------------------------------------- folding

  predicate Number(e: Exp) { e.Lit? && Numeric(e.v) }

  datatype Folded<T> = Done(e: T) | Failed(error: Error)

  /** What the parser makes of an expression, from the leaves up and from left to right. */
  function Fold(m: Machine, e: Exp): Folded<Exp> {
    match e
    case Lit(_) => Done(e)
    case Other(id, parts) =>
      var f := FoldParts(m, parts);
      if f.Failed? then Failed(f.error) else Done(Other(id, f.e))
    case Minus(x) =>
      var f := Fold(m, x);
      if f.Failed? then f else FoldMinus(m, f.e)
    case Not(x) =>
      var f := Fold(m, x);
      if f.Failed? then f else Done(Not(f.e))
    case Binary(op, l, r) =>
      var f := Fold(m, l);
      if f.Failed? then f
      else
        var g := Fold(m, r);
        if g.Failed? then g else FoldBinary(m, op, f.e, g.e)
  }

  function FoldParts(m: Machine, parts: Parts): Folded<Parts> {
    match parts
    case NoMore => Done(NoMore)
    case Part(x, rest) =>
      var f := Fold(m, x);
      if f.Failed? then Failed(f.error)
      else
        var g := FoldParts(m, rest);
        if g.Failed? then g else Done(Part(f.e, g.e))
  }

  function FoldMinus(m: Machine, x: Exp): Folded<Exp> {
    if Number(x) then Literal(MinusValue(m, x.v)) else Done(Minus(x))
  }

  function FoldBinary(m: Machine, op: Op, l: Exp, r: Exp): Folded<Exp> {
    if Number(l) && Number(r) then Literal(BinaryNumeric(m, op, l.v, r.v)) else Done(Binary(op, l, r))
  }

  function Literal(o: Outcome): Folded<Exp> {
    if o.Ok? then Done(Lit(o.v)) else Failed(o.e)
  }

  /** Folding never changes what an expression means, whatever runs inside it and wherever it runs. */
  lemma {:induction false} FoldPreserves(m: Machine, env: Env, e: Exp, st: int)
    requires Fold(m, e).Done?
    ensures Eval(m, env, Fold(m, e).e, st) == Eval(m, env, e, st)
    decreases e
  {
    match e
    case Lit(_) =>
    case Other(id, parts) => PartsPreserved(m, env, id, parts, [], st);
    case Minus(x) => FoldPreserves(m, env, x, st);
    case Not(x) => FoldPreserves(m, env, x, st);
    case Binary(op, l, r) =>
      FoldPreserves(m, env, l, st);
      FoldPreserves(m, env, r, Eval(m, env, l, st).1);
  }

  lemma {:induction false} PartsPreserved(m: Machine, env: Env, id: int, parts: Parts, values: seq<Val>, st: int)
    requires FoldParts(m, parts).Done?
    ensures EvalParts(m, env, id, FoldParts(m, parts).e, values, st) == EvalParts(m, env, id, parts, values, st)
    decreases parts
  {
    if parts.Part? && env.before(id, values, st).GoOn? {
      var s := env.before(id, values, st).st;
      FoldPreserves(m, env, parts.e, s);
      var (a, s2) := Eval(m, env, parts.e, s);
      if a.Ok? { PartsPreserved(m, env, id, parts.rest, values + [a.v], s2); }
    }
  }

  /** Nothing is left that could be folded. */
  predicate Reduced(e: Exp) {
    match e
    case Lit(_) => true
    case Other(_, parts) => AllReduced(parts)
    case Minus(x) => !Number(x) && Reduced(x)
    case Not(x) => Reduced(x)
    case Binary(_, l, r) => !(Number(l) && Number(r)) && Reduced(l) && Reduced(r)
  }

  predicate AllReduced(parts: Parts) {
    parts.Part? ==> Reduced(parts.e) && AllReduced(parts.rest)
  }

  lemma {:induction false} FoldReduces(m: Machine, e: Exp)
    requires Fold(m, e).Done?
    ensures Reduced(Fold(m, e).e)
  {
    match e
    case Lit(_) =>
    case Other(_, parts) => PartsReduced(m, parts);
    case Minus(x) => FoldReduces(m, x);
    case Not(x) => FoldReduces(m, x);
    case Binary(op, l, r) =>
      FoldReduces(m, l);
      FoldReduces(m, r);
  }

  lemma {:induction false} PartsReduced(m: Machine, parts: Parts)
    requires FoldParts(m, parts).Done?
    ensures AllReduced(FoldParts(m, parts).e)
  {
    if parts.Part? {
      FoldReduces(m, parts.e);
      PartsReduced(m, parts.rest);
    }
  }

  lemma {:induction false} FoldOnce(m: Machine, e: Exp)
    requires Reduced(e)
    ensures Fold(m, e) == Done(e)
  {
    match e
    case Lit(_) =>
    case Other(_, parts) => PartsOnce(m, parts);
    case Minus(x) => FoldOnce(m, x);
    case Not(x) => FoldOnce(m, x);
    case Binary(op, l, r) =>
      FoldOnce(m, l);
      FoldOnce(m, r);
  }

  lemma {:induction false} PartsOnce(m: Machine, parts: Parts)
    requires AllReduced(parts)
    ensures FoldParts(m, parts) == Done(parts)
  {
    if parts.Part? {
      FoldOnce(m, parts.e);
      PartsOnce(m, parts.rest);
    }
  }

  // ---------------------------------------------------------------- when folding fails

  /** Operators that refuse these two numbers. */
  predicate Refuses(op: Op, a: Val, b: Val) {
    LogicalOp(op) || op.Concat? || ((op.Div? || op.Mod?) && a.Int? && b == Int(0))
  }

  lemma NumericOperands(m: Machine, op: Op, a: Val, b: Val)
    requires Numeric(a) && Numeric(b)
    ensures BinaryValue(m, op, a, b) == BinaryNumeric(m, op, a, b)
    ensures BinaryNumeric(m, op, a, b).Err? <==> Refuses(op, a, b)
    ensures BinaryNumeric(m, op, a, b).Ok? ==> (Numeric(BinaryNumeric(m, op, a, b).v) <==> MathOp(op))
  {
  }

  /** Written with number literals, arithmetic and unary minus only. */
  predicate Plain(e: Exp) {
    match e
    case Lit(v) => Numeric(v)
    case Other(_, _) => false
    case Not(_) => false
    case Minus(x) => Plain(x)
    case Binary(op, l, r) => MathOp(op) && Plain(l) && Plain(r)
  }

  /** What a plain expression gives. */
  ghost function ValueOf(m: Machine, e: Exp): Outcome
    requires Plain(e)
  {
    match e
    case Lit(v) => Ok(v)
    case Minus(x) =>
      var a := ValueOf(m, x);
      if a.Err? then a else MinusValue(m, a.v)
    case Binary(op, l, r) =>
      var a, b := ValueOf(m, l), ValueOf(m, r);
      if a.Err? then a else if b.Err? then b else BinaryValue(m, op, a.v, b.v)
  }

  /** It gives that wherever it stands, and touches nothing. */
  lemma {:induction false} PlainEval(m: Machine, env: Env, e: Exp, st: int)
    requires Plain(e)
    ensures Eval(m, env, e, st) == (ValueOf(m, e), st)
    ensures ValueOf(m, e).Ok? ==> Numeric(ValueOf(m, e).v)
  {
    hide BinaryValue, BinaryNumeric, Refuses;
    match e
    case Lit(_) =>
    case Minus(x) => PlainEval(m, env, x, st);
    case Binary(op, l, r) =>
      PlainEval(m, env, l, st);
      PlainEval(m, env, r, st);
      if ValueOf(m, l).Ok? && ValueOf(m, r).Ok? { NumericOperands(m, op, ValueOf(m, l).v, ValueOf(m, r).v); }
  }

  lemma {:induction false} PlainFolds(m: Machine, e: Exp)
    requires Plain(e)
    ensures Fold(m, e) == Literal(ValueOf(m, e)) && (ValueOf(m, e).Ok? ==> Numeric(ValueOf(m, e).v))
  {
    hide BinaryValue, BinaryNumeric, Refuses;
    match e
    case Lit(_) =>
    case Minus(x) => PlainFolds(m, x);
    case Binary(op, l, r) =>
      PlainFolds(m, l);
      PlainFolds(m, r);
      if ValueOf(m, l).Ok? && ValueOf(m, r).Ok? { NumericOperands(m, op, ValueOf(m, l).v, ValueOf(m, r).v); }
  }

  /** Only plain expressions become numbers: a comparison becomes a boolean, which is not folded again. */
  lemma {:induction false} NumberWasPlain(m: Machine, e: Exp)
    requires Fold(m, e).Done? && Number(Fold(m, e).e)
    ensures Plain(e)
  {
    hide BinaryValue, BinaryNumeric, Refuses;
    match e
    case Lit(_) =>
    case Minus(x) => NumberWasPlain(m, x);
    case Binary(op, l, r) =>
      assert Number(Fold(m, l).e) && Number(Fold(m, r).e);
      NumericOperands(m, op, Fold(m, l).e.v, Fold(m, r).e.v);
      NumberWasPlain(m, l);
      NumberWasPlain(m, r);
  }

  /** Two plain operands that are no operands for the operator: `..`, `&&` and `||` refuse all numbers, and an
      integer is not divided by the integer zero. */
  ghost predicate BadHere(m: Machine, op: Op, l: Exp, r: Exp) {
    && Plain(l) && Plain(r) && ValueOf(m, l).Ok? && ValueOf(m, r).Ok?
    && Refuses(op, ValueOf(m, l).v, ValueOf(m, r).v)
  }

  /** What a folded operand says of the operand. */
  lemma {:induction false} FoldedOperand(m: Machine, e: Exp)
    requires Fold(m, e).Done?
    ensures Number(Fold(m, e).e) <==> Plain(e)
    ensures Plain(e) ==> ValueOf(m, e).Ok? && Fold(m, e).e.Lit? && Fold(m, e).e.v == ValueOf(m, e).v
  {
    hide BinaryValue, BinaryNumeric, Refuses, Fold, ValueOf, Plain;
    if Plain(e) {
      PlainFolds(m, e);
    } else if Number(Fold(m, e).e) {
      NumberWasPlain(m, e);
    }
  }

  lemma FoldedNumbers(m: Machine, op: Op, l: Exp, r: Exp)
    ensures FoldBinary(m, op, l, r).Failed? <==> Number(l) && Number(r) && Refuses(op, l.v, r.v)
  {
    hide BinaryNumeric, BinaryValue, Refuses;
    if Number(l) && Number(r) {
      NumericOperands(m, op, l.v, r.v);
    }
  }

  /** The same, seen from the folded operands. */
  lemma {:induction false} BadOperands(m: Machine, op: Op, l: Exp, r: Exp)
    requires Fold(m, l).Done? && Fold(m, r).Done?
    ensures FoldBinary(m, op, Fold(m, l).e, Fold(m, r).e).Failed? <==> BadHere(m, op, l, r)
  {
    hide FoldBinary, Refuses, Fold, ValueOf, Plain, Number;
    FoldedOperand(m, l);
    FoldedOperand(m, r);
    FoldedNumbers(m, op, Fold(m, l).e, Fold(m, r).e);
  }

  ghost predicate Bad(m: Machine, e: Exp) {
    match e
    case Lit(_) => false
    case Other(_, parts) => SomeBad(m, parts)
    case Minus(x) => Bad(m, x)
    case Not(x) => Bad(m, x)
    case Binary(op, l, r) => Bad(m, l) || Bad(m, r) || BadHere(m, op, l, r)
  }

  ghost predicate SomeBad(m: Machine, parts: Parts) {
    parts.Part? && (Bad(m, parts.e) || SomeBad(m, parts.rest))
  }

  /** The parser rejects exactly the programs in which some operator is given such operands. */
  lemma {:induction false} FoldFails(m: Machine, e: Exp)
    ensures Fold(m, e).Failed? <==> Bad(m, e)
  {
    match e
    case Lit(_) =>
    case Other(_, parts) => PartsFail(m, parts);
    case Minus(x) => FoldFails(m, x);
    case Not(x) => FoldFails(m, x);
    case Binary(op, l, r) =>
      FoldFails(m, l);
      FoldFails(m, r);
      hide FoldBinary, BadHere;
      if Fold(m, l).Done? && Fold(m, r).Done? { BadOperands(m, op, l, r); }
  }

  lemma {:induction false} PartsFail(m: Machine, parts: Parts)
    ensures FoldParts(m, parts).Failed? <==> SomeBad(m, parts)
  {
    if parts.Part? {
      FoldFails(m, parts.e);
      PartsFail(m, parts.rest);
    }
  }

  /** Such a program may be rejected although it would run: joining two numbers gives a string. */
  lemma {:induction false} ConcatRefused(m: Machine, env: Env, a: Val, b: Val, st: int)
    requires Numeric(a) && Numeric(b)
    ensures var e := Binary(Concat, Lit(a), Lit(b));
      Fold(m, e).Failed? && Eval(m, env, e, st) == (Ok(Str(m.text(a) + m.text(b))), st)
  {
  }
}
