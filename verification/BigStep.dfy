/** What a run of a program does, told without a stack and without jumps: a tree of the pieces it consists of, and the
    rules that each node of the tree has to obey. */
module BigStep {
  import opened Syntax
  import Folding

  /** `CRB_LocalEnvironment`, as far as the chain goes. */
  class Env {
    const next: Env?

    constructor (next: Env?)
      ensures this.next == next
    {
      this.next := next;
    }
  }

  /** What a piece of a run is the run of. */
  datatype What =
    | Expression(e: Expr)
    | Applied(func: Val, args: seq<Expr>)   // a call, once the function is known
    | CalledBack(func: Val, count: nat)     // a call from C
    | MemberCalled                          // a method called from C
    | InC                                   // a function written in C
    | Fault                                 // an error of the program
    | List(list: seq<Stmt>)
    | Statement(s: Stmt)

  datatype End = Value(v: Val) | Done(res: Completion) | Raised

  /** A piece of a run in an environment: the current exception before it, the pieces it consists of, how it ended, and
      the current exception after it. */
  datatype Run = Run(what: What, env: Env?, was: Val, parts: seq<Run>, end: End, now: Val)

  ghost function ValueOf(r: Run): Val {
    if r.end.Value? then r.end.v else Null
  }

  ghost predicate In(r: Run, what: What, env: Env?) {
    r.what == what && r.env == env
  }

  /** The pieces follow each other. */
  ghost predicate Follow(p: seq<Run>, was: Val, now: Val) {
    && (p == [] ==> now == was)
    && (p != [] ==> p[0].was == was && p[|p| - 1].now == now)
    && forall i :: 0 < i < |p| ==> p[i].was == p[i - 1].now
  }

  /** None of them raised an exception. */
  ghost predicate Fine(p: seq<Run>) {
    forall i :: 0 <= i < |p| ==> !p[i].end.Raised?
  }

  /** The last of them did. */
  ghost predicate Cut(p: seq<Run>) {
    p != [] && p[|p| - 1].end.Raised? && Fine(p[..|p| - 1])
  }

  /** A piece that raises an exception ends the whole; otherwise the whole ends as it says. */
  ghost predicate Ends(p: seq<Run>, end: End, full: bool) {
    if Cut(p) then end.Raised? else Fine(p) && !end.Raised? && full
  }

  /** The expressions are evaluated one after the other. */
  ghost predicate Args(p: seq<Run>, es: seq<Expr>, env: Env?) {
    forall i :: 0 <= i < |p| && i < |es| ==> In(p[i], Expression(es[i]), env)
  }

  /** So they are, and an error may come after any of them. */
  ghost predicate Tried(p: seq<Run>, es: seq<Expr>, env: Env?) {
    forall i :: 0 <= i < |p| ==> (i < |es| && In(p[i], Expression(es[i]), env)) || (i == |p| - 1 && p[i].what == Fault)
  }

  ghost predicate InOrder(p: seq<Run>, es: seq<Expr>, env: Env?, fallible: bool) {
    if fallible then Tried(p, es, env) else |p| <= |es| && Args(p, es, env)
  }

  // ---------------------------------------------------------------- operators

  predicate Numeric(v: Val) {
    v.Int? || v.Float?
  }

  predicate ObjectValue(v: Val) {
    v.Str? || v.Arr? || v.Assoc? || v.NativePtr?
  }

  predicate MathOp(op: Op) {
    op.Add? || op.Sub? || op.Mul? || op.Div? || op.Mod?
  }

  /** The same operator in `Folding`, which says what it computes. */
  function Folded(op: Op): Folding.Op {
    match op
    case Add => Folding.Add
    case Sub => Folding.Sub
    case Mul => Folding.Mul
    case Div => Folding.Div
    case Mod => Folding.Mod
    case Eq => Folding.Eq
    case Ne => Folding.Ne
    case Gt => Folding.Gt
    case Ge => Folding.Ge
    case Lt => Folding.Lt
    case Le => Folding.Le
  }

  function OfInts(op: Op, a: int, b: int): Folding.Outcome {
    Folding.BinaryInt(Folded(op), a, b)
  }

  /** The operator takes these operands. */
  predicate Takes(op: Op, a: Val, b: Val) {
    if a.Int? && b.Int? then OfInts(op, a.i, b.i).Ok?
    else if Numeric(a) && Numeric(b) then true
    else if a.Bool? && b.Bool? then op == Eq || op == Ne
    else if a == Str && op == Add then true
    else if a == Str && b == Str then !MathOp(op)
    else if a == Null || b == Null then op == Eq || op == Ne
    else ObjectValue(a) && ObjectValue(b)
  }

  /** And gives this value; floating-point numbers and the contents of objects are not looked into. */
  predicate Gives(op: Op, a: Val, b: Val, v: Val) {
    if a.Int? && b.Int? then
      OfInts(op, a.i, b.i) == Folding.Ok(if v.Int? then Folding.Int(v.i) else Folding.Bool(v.Bool? && v.b))
      && (v.Int? || v.Bool?)
    else if Numeric(a) && Numeric(b) then if MathOp(op) then v.Float? else v.Bool?
    else if a.Bool? && b.Bool? then v == Bool((a.b == b.b) == (op == Eq))
    else if a == Str && op == Add then v == Str
    else if a == Str && b == Str then v.Bool?
    else if a == Null || b == Null then v == Bool((a == b) == (op == Eq))
    else v.Bool?
  }

  // ---------------------------------------------------------------- expressions

  predicate Callable(v: Val) {
    v.Closure? || v.Method?
  }

  predicate Signed(minus: bool, v: Val) {
    if minus then v.Int? || v.Float? else v.Bool?
  }

  function Turned(v: Val): Val {
    match v
    case Int(i) => Int(-i)
    case Bool(b) => Bool(!b)
    case _ => v
  }

  /** What is evaluated to find the place that an assignment writes to. */
  function PlaceOf(target: Expr): seq<Expr> {
    match target
    case Index(arr, index) => [arr, index]
    case Member(of, _) => [of]
    case _ => []
  }

  predicate HasPlace(target: Expr) {
    target.Identifier? || target.Index? || target.Member?
  }

  function Bound(b: Option<Expr>): seq<Expr> {
    if b.Some? then [b.value] else []
  }

  ghost predicate BinaryRule(r: Run, op: Op, x: Expr, y: Expr) {
    var p := r.parts;
    && Follow(p, r.was, r.now) && |p| <= 3 && Args(p, [x, y], r.env)
    && (|p| == 3 ==> p[2].what == Fault && !Takes(op, ValueOf(p[0]), ValueOf(p[1])))
    && Ends(p, r.end, |p| == 2 && Takes(op, ValueOf(p[0]), ValueOf(p[1])) && r.end.Value?
                      && Gives(op, ValueOf(p[0]), ValueOf(p[1]), r.end.v))
  }

  /** The right operand is evaluated only if the left one does not decide. */
  ghost predicate AndOrRule(r: Run, isOr: bool, x: Expr, y: Expr) {
    var p := r.parts;
    && Follow(p, r.was, r.now) && 1 <= |p| <= 2 && In(p[0], Expression(x), r.env)
    && (|p| == 2 ==>
          if ValueOf(p[0]).Bool? then ValueOf(p[0]) != Bool(isOr) && In(p[1], Expression(y), r.env)
          else p[1].what == Fault)
    && Ends(p, r.end, r.end.Value? && r.end.v.Bool?
                      && if |p| == 1 then ValueOf(p[0]) == r.end.v == Bool(isOr)
                         else ValueOf(p[0]).Bool? && (ValueOf(p[1]).Bool? ==> r.end.v == ValueOf(p[1])))
  }

  ghost predicate UnaryRule(r: Run, minus: bool, x: Expr) {
    var p := r.parts;
    && Follow(p, r.was, r.now) && 1 <= |p| <= 2 && In(p[0], Expression(x), r.env)
    && (|p| == 2 ==> p[1].what == Fault && !Signed(minus, ValueOf(p[0])))
    && Ends(p, r.end, |p| == 1 && Signed(minus, ValueOf(p[0])) && r.end == Value(Turned(ValueOf(p[0]))))
  }

  /** The function is found first; then it is applied to the arguments, and what that gives is the value. */
  ghost predicate CallRule(r: Run, callee: Expr, args: seq<Expr>) {
    var p := r.parts;
    && Follow(p, r.was, r.now) && 1 <= |p| <= 2 && In(p[0], Expression(callee), r.env)
    && (|p| == 2 ==>
          if Callable(ValueOf(p[0])) then In(p[1], Applied(ValueOf(p[0]), args), r.env) else p[1].what == Fault)
    && Ends(p, r.end, |p| == 2 && Callable(ValueOf(p[0])) && r.end == p[1].end)
  }

  ghost predicate MemberRule(r: Run, of: Expr) {
    var p := r.parts;
    && Follow(p, r.was, r.now) && 1 <= |p| <= 2 && In(p[0], Expression(of), r.env)
    && (|p| == 2 ==> p[1].what == Fault && ValueOf(p[0]) != Str && ValueOf(p[0]) != Arr)
    && Ends(p, r.end, |p| == 1 && r.end.Value?
                      && if ValueOf(p[0]) == Str || ValueOf(p[0]) == Arr then r.end.v == Method
                         else ValueOf(p[0]) == Assoc || ValueOf(p[0]) == Module)
  }

  /** Expressions whose operands are just evaluated in turn. */
  predicate InTurn(e: Expr) {
    || e.Identifier? || e.Comma? || e.Assign? || e.Concat? || e.ArrayLit? || e.AssocLit? || e.Index? || e.Slice?
    || e.IncDec?
  }

  /** Some of them may also go wrong themselves, after any of the operands. */
  predicate Fallible(e: Expr) {
    e.Identifier? || e.Assign? || e.Index? || e.Slice? || e.IncDec?
  }

  function Operands(e: Expr): seq<Expr> {
    match e
    case Comma(x, y) => [x, y]
    case Assign(_, target, operand) => [operand] + PlaceOf(target)
    case Concat(x, y) => [x, y]
    case ArrayLit(es) => es
    case AssocLit(es) => es
    case Index(arr, index) => [arr, index]
    case Slice(arr, start, end) => [arr] + Bound(start) + Bound(end)
    case IncDec(x) => PlaceOf(x)
    case _ => []
  }

  /** What such an expression gives when its operands have given these values. */
  ghost predicate Fits(e: Expr, values: seq<Val>, v: Val)
    requires |values| == |Operands(e)|
  {
    match e
    case Comma(_, _) => v == values[1]
    case Assign(_, target, _) => HasPlace(target) && v == values[0]
    case Concat(_, _) => v == Str
    case ArrayLit(_) => v == Arr
    case AssocLit(_) => v == Assoc
    case Index(_, _) => values[1].Int? && (values[0] == Arr || (values[0] == Str && v == Str))
    case Slice(_, _, _) => v == values[0] && (v == Arr || v == Str) && forall i :: 0 < i < |values| ==> values[i].Int?
    case IncDec(x) => HasPlace(x) && v.Int?
    case _ => true
  }

  ghost function Values(p: seq<Run>): seq<Val> {
    seq(|p|, i requires 0 <= i < |p| => ValueOf(p[i]))
  }

  ghost predicate InTurnRule(r: Run, e: Expr) {
    var p, es := r.parts, Operands(e);
    && Follow(p, r.was, r.now) && InOrder(p, es, r.env, Fallible(e))
    && Ends(p, r.end, |p| == |es| && Args(p, es, r.env) && r.end.Value? && Fits(e, Values(p), r.end.v))
  }

  ghost predicate ExpressionRule(r: Run, e: Expr) {
    match e
    case Literal(v) => r.parts == [] && r.end == Value(v) && r.now == r.was
    case Binary(op, x, y) => BinaryRule(r, op, x, y)
    case AndOr(isOr, x, y) => AndOrRule(r, isOr, x, y)
    case Minus(x) => UnaryRule(r, true, x)
    case Not(x) => UnaryRule(r, false, x)
    case Call(callee, args) => CallRule(r, callee, args)
    case Member(of, _) => MemberRule(r, of)
    case _ => InTurnRule(r, e)
  }

  // ---------------------------------------------------------------- calls

  /** The value of a call whose body ends like this. */
  function Result(end: End): Val {
    if end.Done? && end.res.Returned? then end.res.value else Null
  }

  function Fitting(args: seq<Expr>, params: nat): seq<Expr> {
    if |args| <= params then args else args[..params]
  }

  /** The arguments, then the body in an environment of its own, unless the numbers differ. */
  ghost predicate CrowbarRule(r: Run, params: nat, body: seq<Stmt>, args: seq<Expr>) {
    var p, es := r.parts, Fitting(args, params);
    && Follow(p, r.was, r.now) && |p| <= |es| + 1 && Args(p, es, r.env)
    && (|p| == |es| + 1 ==>
          if |args| == params then p[|es|].what == List(body) && p[|es|].env != null && p[|es|].env != r.env
          else p[|es|].what == Fault)
    && Ends(p, r.end, |p| == |es| + 1 && |args| == params && r.end == Value(Result(p[|es|].end)))
  }

  ghost predicate NativeRule(r: Run, expected: int, args: seq<Expr>) {
    var p, n := r.parts, |args|;
    && Follow(p, r.was, r.now) && |p| <= n + 1 && Args(p, args, r.env)
    && (|p| == n + 1 ==> p[n].what == if expected >= 0 && n != expected then Fault else InC)
    && Ends(p, r.end, |p| == n + 1 && (expected < 0 || n == expected) && r.end == p[n].end)
  }

  ghost predicate AppliedRule(r: Run, func: Val, args: seq<Expr>) {
    match func
    case Closure(Crowbar(params, body)) => CrowbarRule(r, params, body, args)
    case Closure(NativeFun(expected)) => NativeRule(r, expected, args)
    case Method =>
      || NativeRule(r, -1, args)
      || (|r.parts| == 1 && r.parts[0].what == Fault && Follow(r.parts, r.was, r.now) && Cut(r.parts) && r.end.Raised?)
    case _ => false
  }

  /** Called from C the arguments are already values. */
  ghost predicate CalledBackRule(r: Run, func: Val, count: nat) {
    var p := r.parts;
    && Follow(p, r.was, r.now) && |p| == 1
    && match func {
         case Closure(Crowbar(params, body)) =>
           && (if count == params then p[0].what == List(body) && p[0].env != null else p[0].what == Fault)
           && Ends(p, r.end, count == params && r.end == Value(Result(p[0].end)))
         case Closure(NativeFun(expected)) =>
           && (p[0].what == if expected >= 0 && count != expected then Fault else InC)
           && Ends(p, r.end, (expected < 0 || count == expected) && r.end == p[0].end)
         case Method => (p[0].what == Fault || p[0].what == InC) && Ends(p, r.end, r.end == p[0].end)
         case _ => false
       }
  }

  ghost predicate MemberCalledRule(r: Run) {
    var p := r.parts;
    && Follow(p, r.was, r.now) && |p| == 1
    && (p[0].what == Fault || (p[0].what.CalledBack? && p[0].what.count == 0))
    && Ends(p, r.end, r.end == p[0].end)
  }

  /** It calls functions and raises errors as it likes, and gives any value. */
  ghost predicate InCRule(r: Run) {
    var p := r.parts;
    && Follow(p, r.was, r.now) && (forall i :: 0 <= i < |p| ==> p[i].what.CalledBack? || p[i].what == Fault)
    && Ends(p, r.end, r.end.Value?)
  }

  /** An error becomes the current exception: a new object, or what the program's own function for that makes, unless
      making it goes wrong. */
  ghost predicate FaultRule(r: Run) {
    var p := r.parts;
    && r.end.Raised? && |p| <= 1
    && if p == [] then r.now == Assoc
       else
         && p[0].was == r.was && (p[0].what == Fault || (p[0].what.CalledBack? && p[0].what.count == 1))
         && r.now == if p[0].end.Raised? then p[0].now else ValueOf(p[0])
  }

  // ---------------------------------------------------------------- statements

  /** In order, up to the first that does not end normally. */
  ghost predicate ListRule(r: Run, list: seq<Stmt>) {
    var p, n := r.parts, |r.parts|;
    && Follow(p, r.was, r.now) && n <= |list|
    && (forall i :: 0 <= i < n ==> In(p[i], Statement(list[i]), r.env))
    && (forall i :: 0 <= i < n - 1 ==> p[i].end == Done(Normal))
    && if n == 0 then list == [] && r.end == Done(Normal)
       else r.end == p[n - 1].end && (n == |list| || r.end != Done(Normal))
  }

  /** A condition that holds, and the block after it, which ended normally. */
  ghost predicate ArmRan(p: seq<Run>, arm: (Expr, seq<Stmt>), env: Env?) {
    && |p| == 2 && In(p[0], Expression(arm.0), env) && p[0].end == Value(Bool(true))
    && In(p[1], List(arm.1), env) && p[1].end == Done(Normal)
  }

  ghost predicate ArmPassed(p: seq<Run>, arm: (Expr, seq<Stmt>), env: Env?) {
    |p| == 1 && In(p[0], Expression(arm.0), env) && p[0].end == Value(Bool(false))
  }

  /** The first `i` arms are done with. */
  ghost predicate ArmsDone(p: seq<Run>, arms: seq<(Expr, seq<Stmt>)>, i: nat, env: Env?)
    requires i <= |arms|
    decreases i
  {
    if i == 0 then p == []
    else
      || (|p| >= 2 && ArmRan(p[|p| - 2..], arms[i - 1], env) && ArmsDone(p[..|p| - 2], arms, i - 1, env))
      || (|p| >= 1 && ArmPassed(p[|p| - 1..], arms[i - 1], env) && ArmsDone(p[..|p| - 1], arms, i - 1, env))
  }

  /** A block has run. */
  ghost predicate BlockRan(p: seq<Run>) {
    exists i :: 0 <= i < |p| && p[i].what.List?
  }

  /** What comes last: the block after `else`, if no other has run; nothing; or the arm at which the statement ends. */
  ghost predicate LastArm(p: seq<Run>, arms: seq<(Expr, seq<Stmt>)>, i: nat, ran: bool, otherwise: Option<seq<Stmt>>,
                          env: Env?, end: End)
    requires i <= |arms|
  {
    if i == |arms| then
      if !ran && otherwise.Some? then |p| == 1 && In(p[0], List(otherwise.value), env) && end == p[0].end
      else p == [] && end == Done(Normal)
    else Guarded(p, arms[i].0, arms[i].1, env, end) && end != Done(Normal)
  }

  /** A condition that fails or is no boolean, or one that holds and its block. */
  ghost predicate Guarded(p: seq<Run>, cond: Expr, block: seq<Stmt>, env: Env?, end: End) {
    && 1 <= |p| <= 2 && In(p[0], Expression(cond), env)
    && if |p| == 1 then p[0].end.Raised? && end.Raised?
       else
         && p[0].end.Value? && end == p[1].end
         && (if ValueOf(p[0]).Bool? then ValueOf(p[0]) == Bool(true) && In(p[1], List(block), env)
             else p[1].what == Fault && end.Raised?)
  }

  ghost predicate IfRule(r: Run, cond: Expr, thenBlock: seq<Stmt>, elifs: seq<(Expr, seq<Stmt>)>,
                         otherwise: Option<seq<Stmt>>) {
    var p := r.parts;
    && Follow(p, r.was, r.now)
    && (|| Guarded(p, cond, thenBlock, r.env, r.end)
        || (p != [] && ArmPassed(p[..1], (cond, thenBlock), r.env)
            && exists k, i :: 1 <= k <= |p| && 0 <= i <= |elifs| && ArmsDone(p[1..k], elifs, i, r.env)
                              && LastArm(p[k..], elifs, i, BlockRan(p[1..k]), otherwise, r.env, r.end)))
  }

  /** What a loop repeats: a test, the body and a step, or the methods of an iterator around the body. */
  datatype Cycle =
    | Tested(cond: Option<Expr>, post: Option<Expr>)
    | Iterated

  /** The pieces of one round before the body and after it. */
  function TestCount(c: Cycle): nat {
    if c.Iterated? then 2 else if c.cond.Some? then 1 else 0
  }

  function StepCount(c: Cycle): nat {
    if c.Iterated? || c.post.Some? then 1 else 0
  }

  ghost predicate Tests(p: seq<Run>, c: Cycle, env: Env?)
    requires |p| == TestCount(c)
  {
    match c
    case Tested(cond, _) => cond.Some? ==> In(p[0], Expression(cond.value), env) && p[0].end == Value(Bool(true))
    case Iterated =>
      p[0].what == MemberCalled && p[0].end == Value(Bool(false)) && p[1].what == MemberCalled && p[1].end.Value?
  }

  ghost predicate Steps(p: seq<Run>, c: Cycle, env: Env?)
    requires |p| == StepCount(c)
  {
    match c
    case Tested(_, post) => post.Some? ==> In(p[0], Expression(post.value), env) && p[0].end.Value?
    case Iterated => p[0].what == MemberCalled && p[0].end.Value?
  }

  /** The body lets the loop go on: it ended normally or with any `continue`. */
  ghost predicate GoesOn(end: End) {
    end.Done? && (end.res.Normal? || end.res.Continued?)
  }

  /** What is left of a `break` or `continue` behind the loop with this label. */
  function LeftOver(res: Completion, to: Option<string>): Completion {
    if res.Broke? || res.Continued? then CompareLabels(res.to, to, res) else res
  }

  ghost predicate Round(p: seq<Run>, c: Cycle, body: seq<Stmt>, env: Env?) {
    && |p| == TestCount(c) + 1 + StepCount(c) && Tests(p[..TestCount(c)], c, env)
    && In(p[TestCount(c)], List(body), env) && GoesOn(p[TestCount(c)].end) && Steps(p[TestCount(c) + 1..], c, env)
  }

  /** So many full rounds. */
  ghost predicate Rounds(p: seq<Run>, n: nat, c: Cycle, body: seq<Stmt>, env: Env?)
    decreases n
  {
    var m := TestCount(c) + 1 + StepCount(c);
    if n == 0 then p == []
    else |p| >= m && Round(p[|p| - m..], c, body, env) && Rounds(p[..|p| - m], n - 1, c, body, env)
  }

  /** What the last of them has left. */
  ghost function LeftBehind(p: seq<Run>, c: Cycle, to: Option<string>): Completion {
    if |p| < StepCount(c) + 1 || !p[|p| - StepCount(c) - 1].end.Done? then Normal
    else LeftOver(p[|p| - StepCount(c) - 1].end.res, to)
  }

  /** The round in which the loop ends: the test fails, the body ends the loop, or something goes wrong. */
  ghost predicate LastRound(p: seq<Run>, c: Cycle, to: Option<string>, body: seq<Stmt>, env: Env?, res: Completion,
                            end: End) {
    || Stopped(p, c, env, res, end)
    || (|p| == TestCount(c) + 1 && Tests(p[..TestCount(c)], c, env) && In(p[TestCount(c)], List(body), env)
        && !GoesOn(p[TestCount(c)].end)
        && end == (if !p[TestCount(c)].end.Done? then p[TestCount(c)].end
                   else Done(LeftOver(p[TestCount(c)].end.res, to))))
    || (|p| == TestCount(c) + 2 && Tests(p[..TestCount(c)], c, env) && In(p[TestCount(c)], List(body), env)
        && GoesOn(p[TestCount(c)].end) && end.Raised? && p[TestCount(c) + 1].end.Raised?
        && (if c.Iterated? then p[TestCount(c) + 1].what == MemberCalled
            else c.post.Some? && In(p[TestCount(c) + 1], Expression(c.post.value), env)))
  }

  /** The loop ends before its body: because it is done, or because of an error. */
  ghost predicate Stopped(p: seq<Run>, c: Cycle, env: Env?, res: Completion, end: End) {
    match c
    case Tested(cond, _) =>
      && cond.Some? && 1 <= |p| <= 2 && In(p[0], Expression(cond.value), env)
      && (|p| == 1 ==> if p[0].end.Raised? then end.Raised? else p[0].end == Value(Bool(false)) && end == Done(res))
      && (|p| == 2 ==> p[0].end.Value? && !ValueOf(p[0]).Bool? && p[1].what == Fault && p[1].end.Raised? && end.Raised?)
    case Iterated =>
      && 1 <= |p| <= 2 && p[0].what == MemberCalled
      && (|p| == 1 ==> if p[0].end.Raised? then end.Raised? else p[0].end == Value(Bool(true)) && end == Done(res))
      && (|p| == 2 ==> p[0].end.Value? && p[1].end.Raised? && end.Raised?
                       && if ValueOf(p[0]).Bool? then p[0].end == Value(Bool(false)) && p[1].what == MemberCalled
                          else p[1].what == Fault)
  }

  ghost predicate Looped(p: seq<Run>, c: Cycle, to: Option<string>, body: seq<Stmt>, env: Env?, end: End) {
    exists k, n: nat :: 0 <= k <= |p| && Rounds(p[..k], n, c, body, env)
                        && LastRound(p[k..], c, to, body, env, LeftBehind(p[..k], c, to), end)
  }

  ghost predicate ForRule(r: Run, to: Option<string>, init: Option<Expr>, c: Cycle, body: seq<Stmt>) {
    var p := r.parts;
    && Follow(p, r.was, r.now)
    && if init.None? then Looped(p, c, to, body, r.env, r.end)
       else
         && p != [] && In(p[0], Expression(init.value), r.env)
         && if p[0].end.Raised? then |p| == 1 && r.end.Raised?
            else p[0].end.Value? && Looped(p[1..], c, to, body, r.env, r.end)
  }

  /** The collection, its iterator, the variable, and the rounds. */
  ghost predicate ForeachRule(r: Run, to: Option<string>, collection: Expr, body: seq<Stmt>) {
    var p := r.parts;
    && Follow(p, r.was, r.now) && p != [] && In(p[0], Expression(collection), r.env)
    && if p[0].end.Raised? then |p| == 1 && r.end.Raised?
       else
         && |p| >= 2 && p[1].what == MemberCalled
         && if p[1].end.Raised? then |p| == 2 && r.end.Raised?
            else
              || (|p| == 3 && p[2].what == Fault && p[2].end.Raised? && r.end.Raised?)
              || Looped(p[2..], Iterated, to, body, r.env, r.end)
  }

  /** The block; if it throws and there is a catch block, that one, with no exception current any more; then, unless the
      catch block or making its variable has thrown, the block after `finally`; and at the end, if there is no catch
      block, the exception that is current then is thrown on. */
  ghost predicate TryRule(r: Run, tryBlock: seq<Stmt>, catchBlock: Option<seq<Stmt>>, finallyBlock: Option<seq<Stmt>>) {
    var p := r.parts;
    && 1 <= |p| <= 3 && In(p[0], List(tryBlock), r.env) && p[0].was == r.was
    && if p[0].end.Raised? && catchBlock.Some? then
         && |p| >= 2 && p[1].was == Null
         && (p[1].what == Fault || In(p[1], List(catchBlock.value), r.env))
         && if p[1].end.Raised? then |p| == 2 && r.end.Raised? && r.now == p[1].now
            else p[1].what != Fault && Finish(r, 2, p[1].end, catchBlock, finallyBlock)
       else Finish(r, 1, p[0].end, catchBlock, finallyBlock)
  }

  /** The rest of it after `k` pieces. */
  ghost predicate Finish(r: Run, k: nat, end: End, catchBlock: Option<seq<Stmt>>, finallyBlock: Option<seq<Stmt>>)
    requires 0 < k <= |r.parts|
  {
    var p := r.parts;
    if finallyBlock.Some? then
      && |p| == k + 1 && In(p[k], List(finallyBlock.value), r.env) && p[k].was == p[k - 1].now && r.now == p[k].now
      && if p[k].end.Raised? then r.end.Raised? else ThrownOn(r, end, catchBlock)
    else |p| == k && r.now == p[k - 1].now && ThrownOn(r, end, catchBlock)
  }

  ghost predicate ThrownOn(r: Run, end: End, catchBlock: Option<seq<Stmt>>) {
    if catchBlock.None? && r.now != Null then r.end.Raised?
    else r.end.Done? && (end.Done? ==> r.end == end)
  }

  ghost predicate ThrowRule(r: Run, e: Expr) {
    var p := r.parts;
    && r.end.Raised? && |p| == 1 && In(p[0], Expression(e), r.env) && p[0].was == r.was
    && r.now == if p[0].end.Raised? then p[0].now else ValueOf(p[0])
  }

  ghost predicate PlainRule(r: Run, es: seq<Expr>, res: Completion, fallible: bool) {
    var p := r.parts;
    && Follow(p, r.was, r.now) && InOrder(p, es, r.env, fallible)
    && Ends(p, r.end, |p| == |es| && Args(p, es, r.env) && r.end == Done(res))
  }

  ghost predicate StatementRule(r: Run, s: Stmt) {
    match s
    case ExprStmt(e) => PlainRule(r, [e], Normal, false)
    case Global(_) => PlainRule(r, [], Normal, true)
    case Return(e) => PlainRule(r, Bound(e), Returned(if r.parts == [] then Null else ValueOf(r.parts[0])), false)
    case If(cond, thenBlock, elifs, otherwise) => IfRule(r, cond, thenBlock, elifs, otherwise)
    case While(to, cond, body) => ForRule(r, to, None, Tested(Some(cond), None), body)
    case For(to, init, cond, post, body) => ForRule(r, to, init, Tested(cond, post), body)
    case Foreach(to, collection, body) => ForeachRule(r, to, collection, body)
    case Break(to) => r.parts == [] && r.end == Done(Broke(to)) && r.now == r.was
    case Continue(to) => r.parts == [] && r.end == Done(Continued(to)) && r.now == r.was
    case Try(tryBlock, catchBlock, finallyBlock) => TryRule(r, tryBlock, catchBlock, finallyBlock)
    case Throw(e) => ThrowRule(r, e)
  }

  // ---------------------------------------------------------------- whole runs

  /** What this node of the tree has to obey. */
  ghost predicate Rule(r: Run) {
    match r.what
    case Expression(e) => ExpressionRule(r, e)
    case Applied(func, args) => AppliedRule(r, func, args)
    case CalledBack(func, count) => CalledBackRule(r, func, count)
    case MemberCalled => MemberCalledRule(r)
    case InC => InCRule(r)
    case Fault => FaultRule(r)
    case List(list) => ListRule(r, list)
    case Statement(s) => StatementRule(r, s)
  }

  /** Every node obeys its rule. */
  ghost predicate Derives(r: Run) {
    Rule(r) && forall i :: 0 <= i < |r.parts| ==> Derives(r.parts[i])
  }

  ghost predicate AllDerive(p: seq<Run>) {
    forall i :: 0 <= i < |p| ==> Derives(p[i])
  }

  // ---------------------------------------------------------------- putting runs together

  /** A stretch of pieces, which follow each other and of which only the last may have raised an exception. */
  ghost predicate Chain(p: seq<Run>, was: Val, now: Val, raised: bool) {
    AllDerive(p) && Follow(p, was, now) && if raised then Cut(p) else Fine(p)
  }

  /** The run of a piece. */
  ghost predicate Tells(d: Run, what: What, env: Env?, was: Val, now: Val, raised: bool) {
    Derives(d) && In(d, what, env) && d.was == was && d.now == now && (d.end.Raised? <==> raised)
  }

  lemma NoPieces(was: Val)
    ensures Chain([], was, was, false)
  {
  }

  lemma {:induction false} MorePieces(p: seq<Run>, was: Val, d: Run)
    requires Chain(p, was, d.was, false) && Derives(d)
    ensures Chain(p + [d], was, d.now, d.end.Raised?)
    ensures |p + [d]| == |p| + 1 && (p + [d])[|p|] == d && (p + [d])[..|p|] == p
  {
    hide Derives;
    var q := p + [d];
    assert q[..|p|] == p;
    assert forall i :: 0 <= i < |p| ==> q[i] == p[i];
  }

  lemma {:induction false} OnePiece(d: Run)
    requires Derives(d)
    ensures Chain([d], d.was, d.now, d.end.Raised?)
  {
    hide Derives;
  }

  lemma {:induction false} Rooted(d: Run)
    requires Rule(d) && AllDerive(d.parts)
    ensures Derives(d)
  {
    hide Rule;
  }

  ghost function Ended(raised: bool, end: End): End {
    if raised then Raised else end
  }

  lemma {:induction false} Piece(d: Run, what: What, env: Env?, was: Val, now: Val, raised: bool)
    requires Tells(d, what, env, was, now, raised)
    ensures Chain([d], was, now, raised) && Derives(d) && In(d, what, env) && d.was == was && d.now == now
    ensures d.end.Raised? <==> raised
  {
    hide Derives, Chain;
    OnePiece(d);
  }

  lemma {:induction false} More(p: seq<Run>, was: Val, d: Run, what: What, env: Env?, mid: Val, now: Val, raised: bool)
    requires Chain(p, was, mid, false) && Tells(d, what, env, mid, now, raised)
    ensures Chain(p + [d], was, now, raised) && Derives(d) && In(d, what, env) && d.was == mid && d.now == now
    ensures |p + [d]| == |p| + 1 && (p + [d])[|p|] == d && (p + [d])[..|p|] == p
    ensures d.end.Raised? <==> raised
  {
    hide Derives, Chain;
    MorePieces(p, was, d);
  }

  lemma ArgsMore(p: seq<Run>, d: Run, es: seq<Expr>, env: Env?)
    requires |p| < |es| && Args(p, es, env) && In(d, Expression(es[|p|]), env)
    ensures Args(p + [d], es, env) && Values(p + [d]) == Values(p) + [ValueOf(d)]
  {
    var q := p + [d];
    assert forall i :: 0 <= i < |p| ==> q[i] == p[i];
  }

  lemma ArgsTried(p: seq<Run>, es: seq<Expr>, env: Env?)
    requires |p| <= |es| && Args(p, es, env)
    ensures Tried(p, es, env)
  {
  }

  lemma FaultTried(p: seq<Run>, f: Run, es: seq<Expr>, env: Env?)
    requires |p| <= |es| && Args(p, es, env) && f.what == Fault
    ensures Tried(p + [f], es, env)
  {
    assert forall i :: 0 <= i < |p| ==> (p + [f])[i] == p[i];
  }

  lemma TriedJoined(p: seq<Run>, es: seq<Expr>, q: seq<Run>, fs: seq<Expr>, env: Env?)
    requires |p| == |es| && Args(p, es, env) && Tried(q, fs, env)
    ensures Tried(p + q, es + fs, env)
    ensures |q| == |fs| && Args(q, fs, env) ==> Args(p + q, es + fs, env) && |p + q| == |es + fs|
    ensures Values(p + q) == Values(p) + Values(q)
  {
    hide Args, Values;
    ArgsKnown(p, es, env);
    var r, gs := p + q, es + fs;
    forall i | 0 <= i < |r|
      ensures (i < |gs| && In(r[i], Expression(gs[i]), env)) || (i == |r| - 1 && r[i].what == Fault)
    {
      if i < |p| {
        assert r[i] == p[i] && gs[i] == es[i];
      } else {
        assert r[i] == q[i - |p|] && (i < |gs| ==> gs[i] == fs[i - |p|]);
      }
    }
    assert Tried(r, gs, env);
    if |q| == |fs| && Args(q, fs, env) { ArgsJoined(p, es, q, fs, env); }
    ValuesJoined(p, q);
  }

  lemma ArgsKnown(p: seq<Run>, es: seq<Expr>, env: Env?)
    requires Args(p, es, env)
    ensures forall i :: 0 <= i < |p| && i < |es| ==> In(p[i], Expression(es[i]), env)
  {
  }

  lemma ArgsJoined(p: seq<Run>, es: seq<Expr>, q: seq<Run>, fs: seq<Expr>, env: Env?)
    requires |p| == |es| && Args(p, es, env) && |q| == |fs| && Args(q, fs, env)
    ensures Args(p + q, es + fs, env)
  {
    forall i | 0 <= i < |p + q|
      ensures In((p + q)[i], Expression((es + fs)[i]), env)
    {
      if i < |p| { assert (p + q)[i] == p[i]; } else { assert (p + q)[i] == q[i - |p|]; }
    }
  }

  lemma ValuesJoined(p: seq<Run>, q: seq<Run>)
    ensures Values(p + q) == Values(p) + Values(q)
  {
  }

  lemma OneArg(d: Run, e: Expr, env: Env?)
    requires In(d, Expression(e), env)
    ensures Args([d], [e], env) && Values([d]) == [ValueOf(d)] && Tried([d], [e], env)
  {
  }

  lemma NoArgs(es: seq<Expr>, env: Env?)
    ensures Args([], es, env) && Tried([], es, env) && Values([]) == []
  {
  }
}
