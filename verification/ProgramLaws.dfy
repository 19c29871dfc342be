/** Programs that mean the same, and programs that do not mean what they seem to. */
module ProgramLaws {
  import opened Syntax
  import opened BigStep
  import opened Denotation

  /** What the first says, the second says too. */
  predicate Under(a: Meaning, b: Meaning) {
    a == Unknown || a == b
  }

  // ---------------------------------------------------------------- depth

  /** Looking deeper never changes what has been found. */
  lemma {:induction false} ExprGrows(n: nat, e: Expr, q: Val)
    ensures Under(OfExpr(n, e, q), OfExpr(n + 1, e, q))
    decreases n, 0, 0
  {
    hide OfArgs, OfAndOr, OfCall, OfExpr, Operated, Operands;
    if n == 0 {
      NoDepth(e, q);
      return;
    }
    if e.Comma? || e.Concat? || e.ArrayLit? || e.AssocLit? {
      TurnGrows(n, e, q);
      return;
    }
    match e
    case Literal(v) => LiteralMeans(n, v, q);
    case Binary(op, x, y) =>
      ArgsGrow(n - 1, [x, y], [], q);
      BinaryMeans(n, op, x, y, q);
      BinaryMeans(n + 1, op, x, y, q);
    case AndOr(isOr, x, y) =>
      AndOrGrows(n - 1, isOr, x, y, q);
      AndOrMeans(n, isOr, x, y, q);
      AndOrMeans(n + 1, isOr, x, y, q);
    case Minus(x) => UnaryGrows(n, true, x, q);
    case Not(x) => UnaryGrows(n, false, x, q);
    case Call(callee, args) =>
      ExprGrows(n - 1, callee, q);
      var f := OfExpr(n - 1, callee, q);
      if f.Yields? && f.v.Closure? { CallGrows(n - 1, f.v.fun, args, f.current); }
      CallMeans(n, callee, args, q);
      CallMeans(n + 1, callee, args, q);
    case Member(of, name) =>
      ExprGrows(n - 1, of, q);
      MemberMeans(n, of, name, q);
      MemberMeans(n + 1, of, name, q);
    case _ => OpenMeans(n, e, q);
  }

  lemma {:induction false} NoDepth(e: Expr, q: Val)
    ensures OfExpr(0, e, q) == Unknown
  {
  }

  lemma LiteralMeans(n: nat, v: Val, q: Val)
    requires n > 0
    ensures OfExpr(n, Literal(v), q) == OfExpr(n + 1, Literal(v), q) == Yields(v, q)
  {
  }

  /** Variables and the contents of objects are left open. */
  lemma {:induction false} OpenMeans(n: nat, e: Expr, q: Val)
    requires Fallible(e)
    ensures OfExpr(n, e, q) == Unknown
  {
  }

  lemma {:induction false} TurnGrows(n: nat, e: Expr, q: Val)
    requires n > 0 && (e.Comma? || e.Concat? || e.ArrayLit? || e.AssocLit?)
    ensures Under(OfExpr(n, e, q), OfExpr(n + 1, e, q))
    decreases n - 1, 2, 0
  {
    hide OfArgs, OfExpr, Operands;
    ArgsGrow(n - 1, Operands(e), [], q);
    TurnMeans(n, e, q);
    TurnMeans(n + 1, e, q);
  }

  lemma {:induction false} UnaryGrows(n: nat, minus: bool, x: Expr, q: Val)
    requires n > 0
    ensures var e := if minus then Minus(x) else Not(x); Under(OfExpr(n, e, q), OfExpr(n + 1, e, q))
    decreases n - 1, 2, 0
  {
    hide OfExpr;
    ExprGrows(n - 1, x, q);
    UnaryMeans(n, minus, x, q);
    UnaryMeans(n + 1, minus, x, q);
  }

  lemma {:induction false} AndOrGrows(n: nat, isOr: bool, x: Expr, y: Expr, q: Val)
    ensures Under(OfAndOr(n, isOr, x, y, q), OfAndOr(n + 1, isOr, x, y, q))
    decreases n, 2, 0
  {
    hide OfExpr, Joined, Under;
    var a, c := OfExpr(n, x, q), OfExpr(n + 1, x, q);
    var b := if a.Yields? then OfExpr(n, y, a.current) else Unknown;
    var d := if c.Yields? then OfExpr(n + 1, y, c.current) else Unknown;
    ExprGrows(n, x, q);
    if a.Yields? { ExprGrows(n, y, a.current); }
    JoinedGrows(isOr, a, b, c, d);
  }

  lemma JoinedGrows(isOr: bool, a: Meaning, b: Meaning, c: Meaning, d: Meaning)
    requires Under(a, c) && (a.Yields? && c.Yields? && a.current == c.current ==> Under(b, d))
    ensures Under(Joined(isOr, a, b), Joined(isOr, c, d))
  {
  }

  lemma {:induction false} ArgsGrow(n: nat, es: seq<Expr>, vs: seq<Val>, q: Val)
    requires |vs| <= |es|
    ensures Under(OfArgs(n, es, vs, q), OfArgs(n + 1, es, vs, q))
    decreases n, 1, |es| - |vs|
  {
    hide OfExpr;
    if |vs| < |es| {
      ExprGrows(n, es[|vs|], q);
      var a := OfExpr(n, es[|vs|], q);
      if a.Yields? { ArgsGrow(n, es, vs + [a.v], a.current); }
    }
  }

  lemma {:induction false} CallGrows(n: nat, fun: Function, args: seq<Expr>, q: Val)
    ensures Under(OfCall(n, fun, args, q), OfCall(n + 1, fun, args, q))
    decreases n, 2, 0
  {
    hide OfArgs, OfList;
    if fun.Crowbar? {
      ArgsGrow(n, args, [], q);
      var a := OfArgs(n, args, [], q);
      if a.YieldsAll? { ListGrows(n, fun.body, 0, a.current); }
    }
  }

  lemma {:induction false} ListGrows(n: nat, list: seq<Stmt>, i: nat, q: Val)
    requires i <= |list|
    ensures Under(OfList(n, list, i, q), OfList(n + 1, list, i, q))
    decreases n, 1, |list| - i
  {
    hide OfStmt;
    if i < |list| {
      StmtGrows(n, list[i], q);
      var a := OfStmt(n, list[i], q);
      if a.Completes? { ListGrows(n, list, i + 1, a.current); }
    }
  }

  lemma {:induction false} StmtGrows(n: nat, s: Stmt, q: Val)
    ensures Under(OfStmt(n, s, q), OfStmt(n + 1, s, q))
    decreases n, 0, 0
  {
    hide OfExpr, OfList, OfArms, OfLoop, OfTry;
    if n > 0 {
      match s
      case ExprStmt(e) => ExprGrows(n - 1, e, q);
      case Return(Some(e)) => ExprGrows(n - 1, e, q);
      case If(cond, thenBlock, elifs, otherwise) =>
        ExprGrows(n - 1, cond, q);
        var c := OfExpr(n - 1, cond, q);
        if Holds(c, true) { ListGrows(n - 1, thenBlock, 0, c.current); }
        if Holds(c, false) { ArmsGrow(n - 1, elifs, 0, false, otherwise, c.current); }
      case While(to, cond, body) => LoopGrows(n - 1, Some(cond), None, to, body, Normal, q);
      case For(to, init, cond, post, body) =>
        OptionGrows(n - 1, init, q);
        var a := OfOption(n - 1, init, q);
        if a.Yields? { LoopGrows(n - 1, cond, post, to, body, Normal, a.current); }
      case Try(tryBlock, catchBlock, finallyBlock) => TryGrows(n - 1, tryBlock, catchBlock, finallyBlock, q);
      case Throw(e) => ExprGrows(n - 1, e, q);
      case _ =>
    }
  }

  lemma {:induction false} OptionGrows(n: nat, e: Option<Expr>, q: Val)
    ensures Under(OfOption(n, e, q), OfOption(n + 1, e, q))
    decreases n, 1, 0
  {
    hide OfExpr;
    if e.Some? { ExprGrows(n, e.value, q); }
  }

  lemma {:induction false} ArmsGrow(n: nat, arms: seq<(Expr, seq<Stmt>)>, i: nat, ran: bool,
                                    otherwise: Option<seq<Stmt>>, q: Val)
    requires i <= |arms|
    ensures Under(OfArms(n, arms, i, ran, otherwise, q), OfArms(n + 1, arms, i, ran, otherwise, q))
    decreases n, 2, |arms| - i
  {
    hide OfExpr, OfList;
    if i < |arms| {
      ExprGrows(n, arms[i].0, q);
      var c := OfExpr(n, arms[i].0, q);
      if Holds(c, true) {
        ListGrows(n, arms[i].1, 0, c.current);
        var b := OfList(n, arms[i].1, 0, c.current);
        if b.Completes? { ArmsGrow(n, arms, i + 1, true, otherwise, b.current); }
      }
      if Holds(c, false) { ArmsGrow(n, arms, i + 1, ran, otherwise, c.current); }
    } else if otherwise.Some? {
      ListGrows(n, otherwise.value, 0, q);
    }
  }

  lemma {:induction false} LoopGrows(n: nat, cond: Option<Expr>, post: Option<Expr>, to: Option<string>,
                                     body: seq<Stmt>, left: Completion, q: Val)
    ensures Under(OfLoop(n, cond, post, to, body, left, q), OfLoop(n + 1, cond, post, to, body, left, q))
    decreases n, 2, 0
  {
    hide OfExpr, OfList, AfterBody;
    if n > 0 {
      if cond.Some? { ExprGrows(n - 1, cond.value, q); }
      var c := if cond.None? then Yields(Bool(true), q) else OfExpr(n - 1, cond.value, q);
      if Holds(c, true) {
        ListGrows(n - 1, body, 0, c.current);
        var b := OfList(n - 1, body, 0, c.current);
        BodyGrows(n - 1, b, cond, post, to, body);
        UnknownBody(n - 1, cond, post, to, body);
      }
    }
  }

  lemma {:induction false} UnknownBody(n: nat, cond: Option<Expr>, post: Option<Expr>, to: Option<string>,
                                       body: seq<Stmt>)
    ensures AfterBody(n, Unknown, cond, post, to, body) == Unknown
  {
  }

  lemma {:induction false} BodyGrows(n: nat, b: Meaning, cond: Option<Expr>, post: Option<Expr>, to: Option<string>,
                                     body: seq<Stmt>)
    requires !b.Yields? && !b.YieldsAll?
    ensures Under(AfterBody(n, b, cond, post, to, body), AfterBody(n + 1, b, cond, post, to, body))
    decreases n, 3, 0
  {
    hide OfOption, OfLoop;
    if b.Completes? {
      OptionGrows(n, post, b.current);
      var p := OfOption(n, post, b.current);
      if p.Yields? { LoopGrows(n, cond, post, to, body, Outside(b.res, to), p.current); }
    }
  }

  lemma {:induction false} TryGrows(n: nat, tryBlock: seq<Stmt>, catchBlock: Option<seq<Stmt>>,
                                    finallyBlock: Option<seq<Stmt>>, q: Val)
    ensures Under(OfTry(n, tryBlock, catchBlock, finallyBlock, q), OfTry(n + 1, tryBlock, catchBlock, finallyBlock, q))
    decreases n, 3, 0
  {
    hide OfList, OfFinally;
    ListGrows(n, tryBlock, 0, q);
    var a := OfList(n, tryBlock, 0, q);
    if a.Throws? && catchBlock.Some? {
      ListGrows(n, catchBlock.value, 0, Null);
      var b := OfList(n, catchBlock.value, 0, Null);
      if b.Completes? { FinallyGrows(n, Some(b.res), true, finallyBlock, b.current); }
    } else if a.Throws? {
      FinallyGrows(n, None, false, finallyBlock, a.current);
    } else if a.Completes? {
      FinallyGrows(n, Some(a.res), catchBlock.Some?, finallyBlock, a.current);
    }
  }

  lemma {:induction false} FinallyGrows(n: nat, res: Option<Completion>, caught: bool, finallyBlock: Option<seq<Stmt>>,
                                        q: Val)
    ensures Under(OfFinally(n, res, caught, finallyBlock, q), OfFinally(n + 1, res, caught, finallyBlock, q))
    decreases n, 2, 0
  {
    hide OfList;
    if finallyBlock.Some? { ListGrows(n, finallyBlock.value, 0, q); }
  }

  // ---------------------------------------------------------------- calls and operators

  /** A call of a function whose body returns an expression is that expression. */
  lemma CallReturns(n: nat, e: Expr, q: Val)
    ensures OfExpr(n + 3, Call(Literal(Closure(Crowbar(0, [Return(Some(e))]))), []), q) == OfExpr(n + 1, e, q)
  {
    hide OfExpr;
    var f := Crowbar(0, [Return(Some(e))]);
    LiteralMeans(n + 2, Closure(f), q);
    CallMeans(n + 3, Literal(Closure(f)), [], q);
    assert OfArgs(n + 2, [], [], q) == YieldsAll([], q);
    assert OfStmt(n + 2, f.body[0], q) == Denotation.Then(OfExpr(n + 1, e, q), true);
    assert OfList(n + 2, f.body, 0, q) == Denotation.Then(OfExpr(n + 1, e, q), true);
  }

  /** A call of a function with a body that does not return is null. */
  lemma CallFallsOff(n: nat, body: seq<Stmt>, q: Val)
    requires OfList(n + 1, body, 0, q).Completes? && OfList(n + 1, body, 0, q).res == Normal
    ensures OfExpr(n + 2, Call(Literal(Closure(Crowbar(0, body))), []), q) ==
            Yields(Null, OfList(n + 1, body, 0, q).current)
  {
    hide OfList, OfExpr;
    LiteralMeans(n + 1, Closure(Crowbar(0, body)), q);
    CallMeans(n + 2, Literal(Closure(Crowbar(0, body))), [], q);
    assert OfArgs(n + 1, [], [], q) == YieldsAll([], q);
  }

  /** `!(x || y)` is `!x && !y`, and the other way round. */
  lemma DeMorgan(n: nat, isOr: bool, x: Expr, y: Expr, q: Val)
    ensures OfExpr(n + 2, Not(AndOr(isOr, x, y)), q) == OfExpr(n + 2, AndOr(!isOr, Not(x), Not(y)), q)
  {
    hide OfExpr;
    UnaryMeans(n + 2, false, AndOr(isOr, x, y), q);
    AndOrMeans(n + 1, isOr, x, y, q);
    AndOrMeans(n + 2, !isOr, Not(x), Not(y), q);
    UnaryMeans(n + 1, false, x, q);
    var a := OfExpr(n, x, q);
    if a.Yields? { UnaryMeans(n + 1, false, y, a.current); }
  }

  /** The left operand is evaluated first, and if it throws, nothing else is evaluated. */
  lemma LeftFirst(n: nat, op: Op, x: Expr, y: Expr, rest: seq<Expr>, fun: Function, q: Val)
    requires n > 0 && OfExpr(n, x, q).Throws? && fun.Crowbar? && fun.params == 1 + |rest|
    ensures OfExpr(n, x, q) == OfExpr(n + 1, Comma(x, y), q) == OfExpr(n + 1, Binary(op, x, y), q)
    ensures OfExpr(n, x, q) == OfExpr(n + 1, AndOr(false, x, y), q) == OfExpr(n + 1, AndOr(true, x, y), q)
    ensures OfExpr(n, x, q) == OfExpr(n + 1, Call(Literal(Closure(fun)), [x] + rest), q)
  {
    hide OfExpr;
    TurnMeans(n + 1, Comma(x, y), q);
    BinaryMeans(n + 1, op, x, y, q);
    AndOrMeans(n + 1, false, x, y, q);
    AndOrMeans(n + 1, true, x, y, q);
    LiteralMeans(n, Closure(fun), q);
    CallMeans(n + 1, Literal(Closure(fun)), [x] + rest, q);
    assert OfArgs(n, [x, y], [], q) == OfExpr(n, x, q);
    assert OfArgs(n, [x] + rest, [], q) == OfExpr(n, x, q);
  }

  /** The right operand of `||` counts if the left one does not hold, that of `&&` if it does. */
  lemma RightCounts(n: nat, isOr: bool, y: Expr, q: Val)
    ensures OfExpr(n + 2, AndOr(isOr, Literal(Bool(isOr)), y), q) == Yields(Bool(isOr), q)
    ensures OfExpr(n + 2, AndOr(isOr, Literal(Bool(!isOr)), y), q) == OnlyBoolean(OfExpr(n + 1, y, q))
  {
    hide OfExpr;
    LiteralMeans(n + 1, Bool(isOr), q);
    LiteralMeans(n + 1, Bool(!isOr), q);
    AndOrMeans(n + 2, isOr, Literal(Bool(isOr)), y, q);
    AndOrMeans(n + 2, isOr, Literal(Bool(!isOr)), y, q);
  }

  lemma OnValues(n: nat, op: Op, x: Expr, y: Expr, a: Val, b: Val, q: Val)
    requires OfExpr(n, x, q) == Yields(a, q) && OfExpr(n, y, q) == Yields(b, q)
    ensures OfExpr(n + 1, Binary(op, x, y), q) == Operated(op, a, b, q)
  {
    hide OfExpr, Operated;
    BinaryMeans(n + 1, op, x, y, q);
    assert [] + [a] == [a] && [a] + [b] == [a, b];
    assert OfArgs(n, [x, y], [a, b], q) == YieldsAll([a, b], q);
    assert OfArgs(n, [x, y], [a], q) == YieldsAll([a, b], q);
  }

  /** The operators of programs compute: addition adds, and subtraction undoes it. */
  lemma Arithmetic(n: nat, a: int, b: int, q: Val)
    ensures var x, y := Literal(Int(a)), Literal(Int(b));
      && OfExpr(n + 2, Binary(Add, x, y), q) == Yields(Int(a + b), q)
      && OfExpr(n + 3, Binary(Sub, Binary(Add, x, y), y), q) == Yields(Int(a), q)
      && OfExpr(n + 2, Binary(Mul, x, y), q) == Yields(Int(a * b), q)
      && OfExpr(n + 3, Binary(Add, Minus(x), x), q) == Yields(Int(0), q)
  {
    hide OfExpr, OfArgs;
    var x, y := Literal(Int(a)), Literal(Int(b));
    LiteralMeans(n + 1, Int(a), q);
    LiteralMeans(n + 1, Int(b), q);
    OnValues(n + 1, Add, x, y, Int(a), Int(b), q);
    OnValues(n + 2, Sub, Binary(Add, x, y), y, Int(a + b), Int(b), q);
    OnValues(n + 1, Mul, x, y, Int(a), Int(b), q);
    UnaryMeans(n + 2, true, x, q);
    OnValues(n + 2, Add, Minus(x), x, Int(-a), Int(a), q);
  }

  /** They compare, and some are the contraries of others. */
  lemma Comparisons(n: nat, a: int, b: int, q: Val)
    ensures var x, y := Literal(Int(a)), Literal(Int(b));
      && OfExpr(n + 2, Binary(Lt, x, y), q) == Yields(Bool(a < b), q) == OfExpr(n + 2, Binary(Gt, y, x), q)
      && OfExpr(n + 2, Binary(Eq, x, y), q) == Yields(Bool(a == b), q)
  {
    hide OfExpr, OfArgs;
    Contraries(n, Lt, Eq, a, b, q);
    Contraries(n, Gt, Eq, b, a, q);
  }

  lemma Complements(n: nat, a: int, b: int, q: Val)
    ensures var x, y := Literal(Int(a)), Literal(Int(b));
      && OfExpr(n + 3, Not(Binary(Lt, x, y)), q) == OfExpr(n + 2, Binary(Ge, x, y), q)
      && OfExpr(n + 3, Not(Binary(Gt, x, y)), q) == OfExpr(n + 2, Binary(Le, x, y), q)
      && OfExpr(n + 3, Not(Binary(Ne, x, y)), q) == OfExpr(n + 2, Binary(Eq, x, y), q)
  {
    hide OfExpr, OfArgs;
    Contraries(n, Lt, Ge, a, b, q);
    Contraries(n, Gt, Le, a, b, q);
    Contraries(n, Ne, Eq, a, b, q);
  }

  lemma Contraries(n: nat, op: Op, other: Op, a: int, b: int, q: Val)
    ensures var x, y := Literal(Int(a)), Literal(Int(b));
      && OfExpr(n + 2, Binary(op, x, y), q) == Operated(op, Int(a), Int(b), q)
      && OfExpr(n + 2, Binary(other, x, y), q) == Operated(other, Int(a), Int(b), q)
      && OfExpr(n + 3, Not(Binary(op, x, y)), q) == Negated(false, Operated(op, Int(a), Int(b), q))
  {
    hide OfExpr, Operated;
    var x, y := Literal(Int(a)), Literal(Int(b));
    LiteralMeans(n + 1, Int(a), q);
    LiteralMeans(n + 1, Int(b), q);
    OnValues(n + 1, op, x, y, Int(a), Int(b), q);
    OnValues(n + 1, other, x, y, Int(a), Int(b), q);
    UnaryMeans(n + 3, false, Binary(op, x, y), q);
  }

  // ---------------------------------------------------------------- one statement after another

  lemma {:induction false} Shifted(n: nat, a: seq<Stmt>, b: seq<Stmt>, i: nat, q: Val)
    requires i <= |b|
    ensures OfList(n, a + b, |a| + i, q) == OfList(n, b, i, q)
    decreases |b| - i
  {
    hide OfStmt;
    if i < |b| {
      var m := OfStmt(n, b[i], q);
      assert (a + b)[|a| + i] == b[i];
      if m.Completes? { Shifted(n, a, b, i + 1, m.current); }
    }
  }

  /** A list after another is begun exactly if the other has ended normally. */
  lemma {:induction false} Appended(n: nat, a: seq<Stmt>, b: seq<Stmt>, i: nat, q: Val)
    requires i <= |a|
    ensures OfList(n, a + b, i, q) ==
      var m := OfList(n, a, i, q);
      if m.Completes? && m.res == Normal then OfList(n, b, 0, m.current) else m
    decreases |a| - i
  {
    hide OfStmt;
    if i == |a| {
      Shifted(n, a, b, 0, q);
    } else {
      assert (a + b)[i] == a[i];
      var m := OfStmt(n, a[i], q);
      if m.Completes? { Appended(n, a, b, i + 1, m.current); }
    }
  }

  // ---------------------------------------------------------------- branches

  /** The condition chooses the block. */
  lemma IfChooses(n: nat, a: seq<Stmt>, elifs: seq<(Expr, seq<Stmt>)>, b: Option<seq<Stmt>>, c: seq<Stmt>, q: Val)
    ensures OfStmt(n + 2, If(Literal(Bool(true)), a, elifs, b), q) == OfList(n + 1, a, 0, q)
    ensures OfStmt(n + 2, If(Literal(Bool(false)), a, [], Some(c)), q) == OfList(n + 1, c, 0, q)
  {
    hide OfExpr, OfList;
    LiteralMeans(n + 1, Bool(true), q);
    LiteralMeans(n + 1, Bool(false), q);
  }

  /** With the condition turned round the blocks change places. */
  lemma IfNot(n: nat, c: Expr, a: seq<Stmt>, b: seq<Stmt>, q: Val)
    ensures Under(OfStmt(n + 2, If(Not(c), a, [], Some(b)), q), OfStmt(n + 2, If(c, b, [], Some(a)), q))
    ensures Under(OfStmt(n + 2, If(c, b, [], Some(a)), q), OfStmt(n + 3, If(Not(c), a, [], Some(b)), q))
  {
    hide OfExpr, OfList;
    var m := OfExpr(n + 1, c, q);
    ExprGrows(n, c, q);
    UnaryMeans(n + 1, false, c, q);
    UnaryMeans(n + 2, false, c, q);
    if m.Yields? {
      ListGrows(n + 1, a, 0, m.current);
      ListGrows(n + 1, b, 0, m.current);
    }
  }

  /** The arms as statements of their own. */
  function Apart(arms: seq<(Expr, seq<Stmt>)>): seq<Stmt> {
    seq(|arms|, i requires 0 <= i < |arms| => If(arms[i].0, arms[i].1, [], None))
  }

  lemma {:induction false} AloneMeans(n: nat, c: Expr, a: seq<Stmt>, q: Val)
    ensures var m := OfExpr(n, c, q);
      OfStmt(n + 1, If(c, a, [], None), q) ==
      if Holds(m, true) then OfList(n, a, 0, m.current)
      else if Holds(m, false) then Completes(Normal, m.current)
      else NoBoolean(m)
  {
    hide OfExpr, OfList;
  }

  /** The arms after `elif` are no alternatives: without `else` they are just one `if` after another. */
  lemma {:induction false} ElifsApart(n: nat, arms: seq<(Expr, seq<Stmt>)>, i: nat, ran: bool, q: Val)
    requires i <= |arms|
    ensures OfArms(n, arms, i, ran, None, q) == OfList(n + 1, Apart(arms), i, q)
    decreases |arms| - i
  {
    hide OfExpr, OfStmt;
    if i < |arms| {
      var m := OfExpr(n, arms[i].0, q);
      AloneMeans(n, arms[i].0, arms[i].1, q);
      if Holds(m, true) {
        var b := OfList(n, arms[i].1, 0, m.current);
        if b.Completes? { ElifsApart(n, arms, i + 1, true, b.current); }
      } else if Holds(m, false) {
        ElifsApart(n, arms, i + 1, ran, m.current);
      }
    }
  }

  // ---------------------------------------------------------------- loops

  predicate StaysIn(m: Meaning) {
    m.Completes? ==> m.res.Normal? || m.res.Returned?
  }

  /** No `break` and no `continue` leaves the block. */
  ghost predicate Settles(body: seq<Stmt>) {
    forall n: nat, q :: StaysIn(OfList(n, body, 0, q))
  }

  lemma {:induction false} WhileMeans(n: nat, to: Option<string>, c: Expr, body: seq<Stmt>, q: Val)
    requires Settles(body)
    ensures var m := OfExpr(n, c, q);
      OfStmt(n + 2, While(to, c, body), q) ==
      if Holds(m, true) then
        var b := OfList(n, body, 0, m.current);
        if b.Completes? && b.res == Normal then OfStmt(n + 1, While(to, c, body), b.current) else b
      else if Holds(m, false) then Completes(Normal, m.current)
      else NoBoolean(m)
  {
    hide OfExpr, OfList, AfterBody, StaysIn;
    var m := OfExpr(n, c, q);
    if m.Yields? {
      assert StaysIn(OfList(n, body, 0, m.current));
      AfterSettled(n, OfList(n, body, 0, m.current), to, c, body);
    }
  }

  lemma {:induction false} AfterSettled(n: nat, b: Meaning, to: Option<string>, c: Expr, body: seq<Stmt>)
    requires !b.Yields? && !b.YieldsAll? && StaysIn(b)
    ensures AfterBody(n, b, Some(c), None, to, body) ==
            if b.Completes? && b.res == Normal then OfStmt(n + 1, While(to, c, body), b.current) else b
  {
    hide OfLoop;
  }

  /** A loop is its first round, if there is one, and then the loop. */
  lemma WhileUnrolls(n: nat, to: Option<string>, c: Expr, body: seq<Stmt>, q: Val)
    requires Settles(body)
    ensures var w := While(to, c, body);
      && Under(OfStmt(n + 2, w, q), OfStmt(n + 2, If(c, body + [w], [], None), q))
      && Under(OfStmt(n + 2, If(c, body + [w], [], None), q), OfStmt(n + 3, w, q))
  {
    hide OfExpr, OfList, OfStmt, Settles;
    var w := While(to, c, body);
    WhileMeans(n, to, c, body, q);
    WhileMeans(n + 1, to, c, body, q);
    AloneMeans(n + 1, c, body + [w], q);
    ExprGrows(n, c, q);
    var m := OfExpr(n + 1, c, q);
    if m.Yields? {
      Appended(n + 1, body, [w], 0, m.current);
      ListGrows(n, body, 0, m.current);
      var b := OfList(n + 1, body, 0, m.current);
      if b.Completes? {
        AloneInList(n + 1, w, b.current);
        StmtGrows(n + 1, w, b.current);
      }
    }
  }

  lemma {:induction false} AloneInList(n: nat, s: Stmt, q: Val)
    ensures OfList(n, [s], 0, q) == OfStmt(n, s, q)
  {
    hide OfStmt;
  }

  /** `break` leaves the loop that it is meant for, and no other. */
  lemma BreakLeaves(n: nat, to: Option<string>, l: Option<string>, q: Val)
    ensures OfStmt(n + 4, While(to, Literal(Bool(true)), [Break(l)]), q) ==
            Completes(if l.None? || l == to then Normal else Broke(l), q)
  {
    hide OfExpr, OfList;
    LiteralMeans(n + 2, Bool(true), q);
    AloneInList(n + 2, Break(l), q);
    assert OfStmt(n + 2, Break(l), q) == Completes(Broke(l), q);
    assert AfterBody(n + 2, Completes(Broke(l), q), Some(Literal(Bool(true))), None, to, [Break(l)]) ==
           Completes(Outside(Broke(l), to), q);
  }

  /** What a `for` loop begins with is an expression before it. */
  lemma ForBegins(n: nat, to: Option<string>, init: Expr, c: Option<Expr>, step: Option<Expr>, body: seq<Stmt>, q: Val)
    ensures OfStmt(n + 1, For(to, Some(init), c, step, body), q) ==
            OfList(n + 1, [ExprStmt(init), For(to, None, c, step, body)], 0, q)
  {
    hide OfExpr, OfLoop;
    var s := [ExprStmt(init), For(to, None, c, step, body)];
    var a := OfExpr(n, init, q);
    assert OfStmt(n + 1, s[0], q) == Denotation.Then(a, false);
    if a.Yields? {
      assert OfStmt(n + 1, s[1], a.current) == OfLoop(n, c, step, to, body, Normal, a.current);
      assert OfList(n + 1, s, 1, a.current) == OfStmt(n + 1, s[1], a.current);
    }
  }

  /** A `for` loop is a `while` loop that ends with the step. */
  lemma {:induction false} ForIsWhile(n: nat, to: Option<string>, c: Expr, step: Expr, body: seq<Stmt>, q: Val)
    requires Settles(body)
    ensures var w := body + [ExprStmt(step)];
      && Under(OfLoop(n, Some(c), None, to, w, Normal, q), OfLoop(n, Some(c), Some(step), to, body, Normal, q))
      && Under(OfLoop(n, Some(c), Some(step), to, body, Normal, q), OfLoop(n + 1, Some(c), None, to, w, Normal, q))
    decreases n, 0
  {
    hide OfExpr, OfList, AfterBody, Settles;
    var w := body + [ExprStmt(step)];
    if n > 0 {
      ExprGrows(n - 1, c, q);
      var m := OfExpr(n - 1, c, q);
      if m.Yields? {
        StepApart(n - 1, to, c, step, body, m.current);
      }
    }
  }

  lemma {:induction false} StepApart(n: nat, to: Option<string>, c: Expr, step: Expr, body: seq<Stmt>, q: Val)
    requires Settles(body)
    ensures var w := body + [ExprStmt(step)];
      && Under(AfterBody(n, OfList(n, w, 0, q), Some(c), None, to, w),
               AfterBody(n, OfList(n, body, 0, q), Some(c), Some(step), to, body))
      && Under(AfterBody(n, OfList(n, body, 0, q), Some(c), Some(step), to, body),
               AfterBody(n + 1, OfList(n + 1, w, 0, q), Some(c), None, to, w))
    decreases n, 1
  {
    hide OfExpr, OfList, OfStmt, OfLoop;
    var w := body + [ExprStmt(step)];
    var b := OfList(n, body, 0, q);
    assert StaysIn(b);
    Appended(n, body, [ExprStmt(step)], 0, q);
    Appended(n + 1, body, [ExprStmt(step)], 0, q);
    ListGrows(n, body, 0, q);
    if b.Completes? {
      StepMeans(n, step, b.current);
      StepMeans(n + 1, step, b.current);
      if n > 0 { ExprGrows(n - 1, step, b.current); }
      var p := OfExpr(n, step, b.current);
      if p.Yields? { ForIsWhile(n, to, c, step, body, p.current); }
    }
  }

  lemma {:induction false} StepMeans(n: nat, step: Expr, q: Val)
    ensures OfList(n, [ExprStmt(step)], 0, q) ==
            if n == 0 then Unknown else Denotation.Then(OfExpr(n - 1, step, q), false)
  {
    hide OfExpr;
  }

  /** `continue` to the label of a loop further out does not leave a loop: with it or without, there are the same
      rounds. */
  lemma {:induction false} ContinueStays(n: nat, to: Option<string>, c: Expr, l: Option<string>, q: Val,
                                         left: Completion, other: Completion)
    ensures
      var m := OfLoop(n, Some(c), None, to, [Continue(l)], left, q);
      var k := OfLoop(n, Some(c), None, to, [], other, q);
      (m.Completes? <==> k.Completes?) && (m.Completes? ==> m.current == k.current) && (!m.Completes? ==> m == k)
    decreases n
  {
    hide OfExpr, OfList, AfterBody;
    if n > 0 {
      var a := OfExpr(n - 1, c, q);
      if Holds(a, true) {
        OneContinue(n - 1, l, a.current);
        ContinueStays(n - 1, to, c, l, a.current, Outside(Continued(l), to), Normal);
        GoingOn(n - 1, Continued(l), to, c, [Continue(l)], a.current);
        GoingOn(n - 1, Normal, to, c, [], a.current);
      }
    }
  }

  lemma {:induction false} GoingOn(n: nat, res: Completion, to: Option<string>, c: Expr, body: seq<Stmt>, q: Val)
    requires res.Normal? || res.Continued?
    ensures AfterBody(n, Completes(res, q), Some(c), None, to, body) ==
            OfLoop(n, Some(c), None, to, body, Outside(res, to), q)
    ensures AfterBody(n, Unknown, Some(c), None, to, body) == Unknown
    ensures OfLoop(0, Some(c), None, to, body, res, q) == Unknown
  {
    hide OfExpr;
  }

  lemma {:induction false} OneContinue(n: nat, l: Option<string>, q: Val)
    ensures OfList(n, [Continue(l)], 0, q) == if n == 0 then Unknown else Completes(Continued(l), q)
    ensures OfList(n, [], 0, q) == Completes(Normal, q)
  {
  }

  // ---------------------------------------------------------------- exceptions

  /** The catch block is run exactly if the block has thrown, and then nothing is thrown any more. */
  lemma {:induction false} CatchMeans(n: nat, t: seq<Stmt>, k: seq<Stmt>, q: Val)
    ensures OfStmt(n + 1, Try(t, Some(k), None), q) ==
            if OfList(n, t, 0, q).Throws? then OfList(n, k, 0, Null) else OfList(n, t, 0, q)
  {
    hide OfList, OfStmt;
    TryMeans(n + 1, t, Some(k), None, q);
  }

  /** Without any other block a `try` changes nothing, unless null is thrown or an exception is left over. */
  lemma {:induction false} TryAlone(n: nat, t: seq<Stmt>, q: Val)
    requires var m := OfList(n, t, 0, q); if m.Throws? then m.current != Null else m.Completes? ==> m.current == Null
    ensures OfStmt(n + 1, Try(t, None, None), q) == OfList(n, t, 0, q)
  {
    hide OfList, OfStmt;
    TryMeans(n + 1, t, None, None, q);
  }

  /** Unless the catch block throws, the last block is run, and it has the last word: what it throws is thrown, and
      otherwise the whole ends as the blocks before it did, or with the exception that is still current. */
  lemma FinallyRuns(n: nat, t: seq<Stmt>, k: Option<seq<Stmt>>, f: seq<Stmt>, q: Val) returns (at: Val)
    requires OfTry(n, t, k, Some(f), q) != Unknown
    requires OfList(n, t, 0, q).Throws? && k.Some? ==> !OfList(n, k.value, 0, Null).Throws?
    ensures var m, last := OfTry(n, t, k, Some(f), q), OfList(n, f, 0, at);
      && (if last.Throws? then m == last else last.Completes? && m.current == last.current)
      && (m.Completes? && OfList(n, t, 0, q).Completes? ==> m.res == OfList(n, t, 0, q).res)
      && (m.Throws? && !last.Throws? ==> k.None? && last.current != Null)
  {
    hide OfList;
    var a := OfList(n, t, 0, q);
    at := if a.Throws? && k.Some? then OfList(n, k.value, 0, Null).current else a.current;
  }

  /** A catch block that throws: the block after `finally` is not even begun, whatever it is. */
  lemma {:induction false} FinallySkipped(n: nat, t: seq<Stmt>, k: seq<Stmt>, f: Option<seq<Stmt>>, q: Val)
    requires OfList(n, t, 0, q).Throws? && OfList(n, k, 0, Null).Throws?
    ensures OfStmt(n + 1, Try(t, Some(k), f), q) == OfList(n, k, 0, Null)
  {
    hide OfList, OfStmt;
    TryMeans(n + 1, t, Some(k), f, q);
  }

  /** Inside a block after `finally` even an empty `try` throws the exception that is still current, and the rest of the
      block is not run. */
  lemma ThrownInside(n: nat, rest: seq<Stmt>, v: Val)
    requires v != Null
    ensures OfList(n + 1, [Try([], None, None)] + rest, 0, v) == Throws(v)
  {
    hide OfStmt;
    Appended(n + 1, [Try([], None, None)], rest, 0, v);
    TryMeans(n + 1, [], None, None, v);
  }
}
