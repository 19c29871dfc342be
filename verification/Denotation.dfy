/** What a program means, without a stack, an environment or a jump: a function from the program and the exception that
    is current before it. It covers programs that name no variable and look into no object; where it says nothing, more
    depth may say more, or nothing does. */
module Denotation {
  import opened Syntax
  import opened BigStep

  datatype Meaning =
    | Unknown
    | Yields(v: Val, current: Val)             // of an expression; `current` is the exception that is current then
    | YieldsAll(vs: seq<Val>, current: Val)       // of expressions one after the other
    | Completes(res: Completion, current: Val)     // of a statement
    | Throws(current: Val)

  function Operated(op: Op, a: Val, b: Val, current: Val): Meaning {
    if a.Int? && b.Int? then
      match OfInts(op, a.i, b.i)
      case Ok(Int(i)) => Yields(Int(i), current)
      case Ok(Bool(c)) => Yields(Bool(c), current)
      case _ => Unknown
    else if (op == Eq || op == Ne) && ((a.Bool? && b.Bool?) || a == Null || b == Null) then
      Yields(Bool((a == b) == (op == Eq)), current)
    else Unknown
  }

  function Negated(minus: bool, m: Meaning): Meaning {
    if m.Yields? then
      match m.v
      case Int(i) => if minus then Yields(Int(-i), m.current) else Unknown
      case Bool(b) => if minus then Unknown else Yields(Bool(!b), m.current)
      case _ => Unknown
    else m
  }

  function OfExpr(n: nat, e: Expr, current: Val): (m: Meaning)
    ensures !m.Completes? && !m.YieldsAll?
    decreases n, 0, 0
  {
    if n == 0 then Unknown
    else
      match e
      case Literal(v) => Yields(v, current)
      case Comma(x, y) =>
        var a := OfArgs(n - 1, [x, y], [], current);
        if a.YieldsAll? then Yields(a.vs[1], a.current) else a
      case Concat(x, y) =>
        var a := OfArgs(n - 1, [x, y], [], current);
        if a.YieldsAll? then Yields(Str, a.current) else a
      case Binary(op, x, y) =>
        var a := OfArgs(n - 1, [x, y], [], current);
        if a.YieldsAll? then Operated(op, a.vs[0], a.vs[1], a.current) else a
      case AndOr(isOr, x, y) => OfAndOr(n - 1, isOr, x, y, current)
      case Minus(x) => Negated(true, OfExpr(n - 1, x, current))
      case Not(x) => Negated(false, OfExpr(n - 1, x, current))
      case Call(callee, args) =>
        var f := OfExpr(n - 1, callee, current);
        if !f.Yields? then f else if f.v.Closure? then OfCall(n - 1, f.v.fun, args, f.current) else Unknown
      case Member(of, _) =>
        var a := OfExpr(n - 1, of, current);
        if !a.Yields? then a else if a.v == Str || a.v == Arr then Yields(Method, a.current) else Unknown
      case ArrayLit(es) => var a := OfArgs(n - 1, es, [], current); if a.YieldsAll? then Yields(Arr, a.current) else a
      case AssocLit(es) => var a := OfArgs(n - 1, es, [], current); if a.YieldsAll? then Yields(Assoc, a.current) else a
      case _ => Unknown
  }

  function OfAndOr(n: nat, isOr: bool, x: Expr, y: Expr, current: Val): (m: Meaning)
    ensures !m.Completes? && !m.YieldsAll?
    decreases n, 2, 0
  {
    var a := OfExpr(n, x, current);
    Joined(isOr, a, if a.Yields? then OfExpr(n, y, a.current) else Unknown)
  }

  function Joined(isOr: bool, a: Meaning, b: Meaning): Meaning {
    if Holds(a, isOr) then a else if Holds(a, !isOr) then OnlyBoolean(b) else NoBoolean(a)
  }

  function OnlyBoolean(b: Meaning): Meaning {
    if b.Yields? && !b.v.Bool? then Unknown else b
  }

  /** The values of the first expressions are known. */
  function OfArgs(n: nat, es: seq<Expr>, vs: seq<Val>, current: Val): (m: Meaning)
    requires |vs| <= |es|
    ensures m.YieldsAll? ==> |m.vs| == |es|
    ensures !m.Yields? && !m.Completes?
    decreases n, 1, |es| - |vs|
  {
    if |vs| == |es| then YieldsAll(vs, current)
    else
      var a := OfExpr(n, es[|vs|], current);
      if a.Yields? then OfArgs(n, es, vs + [a.v], a.current) else a
  }

  function OfCall(n: nat, fun: Function, args: seq<Expr>, current: Val): (m: Meaning)
    ensures !m.Completes? && !m.YieldsAll?
    decreases n, 2, 0
  {
    if !fun.Crowbar? || |args| != fun.params then Unknown
    else
      var a := OfArgs(n, args, [], current);
      if a.YieldsAll? then
        var b := OfList(n, fun.body, 0, a.current);
        if b.Completes? then Yields(if b.res.Returned? then b.res.value else Null, b.current) else b
      else a
  }

  /** From statement `i` on. */
  function OfList(n: nat, list: seq<Stmt>, i: nat, current: Val): (m: Meaning)
    requires i <= |list|
    ensures !m.Yields? && !m.YieldsAll?
    decreases n, 1, |list| - i
  {
    if i == |list| then Completes(Normal, current)
    else
      var a := OfStmt(n, list[i], current);
      if a.Completes? && a.res == Normal then OfList(n, list, i + 1, a.current) else a
  }

  function OfStmt(n: nat, s: Stmt, current: Val): (m: Meaning)
    ensures !m.Yields? && !m.YieldsAll?
    decreases n, 0, 0
  {
    if n == 0 then Unknown
    else
      match s
      case ExprStmt(e) => Then(OfExpr(n - 1, e, current), false)
      case Return(None) => Completes(Returned(Null), current)
      case Return(Some(e)) => Then(OfExpr(n - 1, e, current), true)
      case If(cond, thenBlock, elifs, otherwise) =>
        var c := OfExpr(n - 1, cond, current);
        if Holds(c, true) then OfList(n - 1, thenBlock, 0, c.current)
        else if Holds(c, false) then OfArms(n - 1, elifs, 0, false, otherwise, c.current)
        else NoBoolean(c)
      case While(to, cond, body) => OfLoop(n - 1, Some(cond), None, to, body, Normal, current)
      case For(to, init, cond, post, body) =>
        var a := OfOption(n - 1, init, current);
        if a.Yields? then OfLoop(n - 1, cond, post, to, body, Normal, a.current) else a
      case Break(to) => Completes(Broke(to), current)
      case Continue(to) => Completes(Continued(to), current)
      case Try(tryBlock, catchBlock, finallyBlock) => OfTry(n - 1, tryBlock, catchBlock, finallyBlock, current)
      case Throw(e) => var a := OfExpr(n - 1, e, current);
        if a.Yields? then Throws(a.v) else a
      case _ => Unknown
  }

  function Then(a: Meaning, asResult: bool): (m: Meaning)
    requires !a.YieldsAll?
    ensures !m.Yields? && !m.YieldsAll?
  {
    if a.Yields? then Completes(if asResult then Returned(a.v) else Normal, a.current) else a
  }

  /** A condition that is no boolean. */
  function NoBoolean(c: Meaning): Meaning {
    if c.Yields? then Unknown else c
  }

  predicate Holds(c: Meaning, b: bool) {
    c.Yields? && c.v == Bool(b)
  }

  function OfOption(n: nat, e: Option<Expr>, current: Val): (m: Meaning)
    ensures !m.Completes? && !m.YieldsAll?
    decreases n, 1, 0
  {
    if e.None? then Yields(Null, current) else OfExpr(n, e.value, current)
  }

  /** From arm `i` on; `ran` tells whether one before it has run. */
  function OfArms(n: nat, arms: seq<(Expr, seq<Stmt>)>, i: nat, ran: bool, otherwise: Option<seq<Stmt>>, current: Val)
    : (m: Meaning)
    requires i <= |arms|
    ensures !m.Yields? && !m.YieldsAll?
    decreases n, 2, |arms| - i
  {
    if i == |arms| then
      if ran || otherwise.None? then Completes(Normal, current) else OfList(n, otherwise.value, 0, current)
    else
      var c := OfExpr(n, arms[i].0, current);
      if Holds(c, true) then
        var b := OfList(n, arms[i].1, 0, c.current);
        if b.Completes? && b.res == Normal then OfArms(n, arms, i + 1, true, otherwise, b.current) else b
      else if Holds(c, false) then OfArms(n, arms, i + 1, ran, otherwise, c.current)
      else NoBoolean(c)
  }

  /** `left` is what the round before has left over for the loops around. */
  function OfLoop(n: nat, cond: Option<Expr>, post: Option<Expr>, to: Option<string>, body: seq<Stmt>, left: Completion,
                  current: Val)
    : (m: Meaning)
    ensures !m.Yields? && !m.YieldsAll?
    decreases n, 2, 0
  {
    if n == 0 then Unknown
    else
      var c := if cond.None? then Yields(Bool(true), current) else OfExpr(n - 1, cond.value, current);
      if Holds(c, false) then Completes(left, c.current)
      else if Holds(c, true) then AfterBody(n - 1, OfList(n - 1, body, 0, c.current), cond, post, to, body)
      else NoBoolean(c)
  }

  function AfterBody(n: nat, b: Meaning, cond: Option<Expr>, post: Option<Expr>, to: Option<string>, body: seq<Stmt>)
    : (m: Meaning)
    requires !b.Yields? && !b.YieldsAll?
    ensures !m.Yields? && !m.YieldsAll?
    decreases n, 3, 0
  {
    if !b.Completes? then b
    else if b.res.Normal? || b.res.Continued? then
      var p := OfOption(n, post, b.current);
      if p.Yields? then OfLoop(n, cond, post, to, body, Outside(b.res, to), p.current) else p
    else Completes(Outside(b.res, to), b.current)
  }

  /** A break or continue without a label, or with that of this loop, is meant for this loop. */
  function Outside(res: Completion, to: Option<string>): Completion {
    if (res.Broke? || res.Continued?) && (res.to.None? || res.to == to) then Normal else res
  }

  function OfTry(n: nat, tryBlock: seq<Stmt>, catchBlock: Option<seq<Stmt>>, finallyBlock: Option<seq<Stmt>>,
                 current: Val)
    : (m: Meaning)
    ensures !m.Yields? && !m.YieldsAll?
    decreases n, 3, 0
  {
    var a := OfList(n, tryBlock, 0, current);
    if a.Throws? && catchBlock.Some? then
      var b := OfList(n, catchBlock.value, 0, Null);
      if b.Completes? then OfFinally(n, Some(b.res), true, finallyBlock, b.current) else b
    else if a.Throws? then OfFinally(n, None, false, finallyBlock, a.current)
    else if a.Completes? then OfFinally(n, Some(a.res), catchBlock.Some?, finallyBlock, a.current)
    else a
  }

  function OfFinally(n: nat, res: Option<Completion>, caught: bool, finallyBlock: Option<seq<Stmt>>, current: Val)
    : (m: Meaning)
    ensures !m.Yields? && !m.YieldsAll?
    decreases n, 2, 0
  {
    var b := if finallyBlock.None? then Completes(Normal, current) else OfList(n, finallyBlock.value, 0, current);
    if !b.Completes? then b
    else if !caught && b.current != Null then Throws(b.current)
    else if res.Some? then Completes(res.value, b.current)
    else Unknown
  }

  // ---------------------------------------------------------------- one construct at a time

  lemma {:induction false} AndOrMeans(n: nat, isOr: bool, x: Expr, y: Expr, current: Val)
    requires n > 0
    ensures OfExpr(n, AndOr(isOr, x, y), current) == OfAndOr(n - 1, isOr, x, y, current)
  {
  }

  lemma UnaryMeans(n: nat, minus: bool, x: Expr, current: Val)
    requires n > 0
    ensures OfExpr(n, if minus then Minus(x) else Not(x), current) == Negated(minus, OfExpr(n - 1, x, current))
  {
  }

  lemma {:induction false} CallMeans(n: nat, callee: Expr, args: seq<Expr>, current: Val)
    requires n > 0
    ensures var f := OfExpr(n - 1, callee, current);
      OfExpr(n, Call(callee, args), current) ==
      if !f.Yields? then f else if f.v.Closure? then OfCall(n - 1, f.v.fun, args, f.current) else Unknown
  {
  }

  lemma {:induction false} MemberMeans(n: nat, of: Expr, name: string, current: Val)
    requires n > 0
    ensures var a := OfExpr(n - 1, of, current);
      OfExpr(n, Member(of, name), current) ==
      if !a.Yields? then a else if a.v == Str || a.v == Arr then Yields(Method, a.current) else Unknown
  {
  }

  lemma {:induction false} TryMeans(n: nat, tryBlock: seq<Stmt>, catchBlock: Option<seq<Stmt>>,
                                    finallyBlock: Option<seq<Stmt>>, current: Val)
    requires n > 0
    ensures OfStmt(n, Try(tryBlock, catchBlock, finallyBlock), current) ==
            OfTry(n - 1, tryBlock, catchBlock, finallyBlock, current)
  {
  }

  /** What an expression means of which the operands are evaluated in turn. */
  function TurnMeaning(e: Expr, a: Meaning): Meaning
    requires a.YieldsAll? ==> |a.vs| == |Operands(e)|
  {
    if !a.YieldsAll? then a
    else
      match e
      case Comma(_, _) => Yields(a.vs[1], a.current)
      case Concat(_, _) => Yields(Str, a.current)
      case ArrayLit(_) => Yields(Arr, a.current)
      case AssocLit(_) => Yields(Assoc, a.current)
      case _ => Unknown
  }

  lemma {:induction false} TurnMeans(n: nat, e: Expr, current: Val)
    requires n > 0 && (e.Comma? || e.Concat? || e.ArrayLit? || e.AssocLit?)
    ensures OfExpr(n, e, current) == TurnMeaning(e, OfArgs(n - 1, Operands(e), [], current))
  {
  }

  lemma {:induction false} BinaryMeans(n: nat, op: Op, x: Expr, y: Expr, current: Val)
    requires n > 0
    ensures var a := OfArgs(n - 1, [x, y], [], current);
      OfExpr(n, Binary(op, x, y), current) == if a.YieldsAll? then Operated(op, a.vs[0], a.vs[1], a.current) else a
  {
  }
}
