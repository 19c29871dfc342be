/** Every run of a program ends as the program means. */
module Adequacy {
  import opened Syntax
  import opened BigStep
  import opened Denotation
  import RunNodes

  /** The run ends as the meaning says, if it says anything. */
  ghost predicate Says(m: Meaning, r: Run) {
    Meets(m, r.end, r.now)
  }

  ghost predicate Meets(m: Meaning, end: End, now: Val) {
    match m
    case Unknown => true
    case Yields(v, current) => end == Value(v) && now == current
    case Completes(res, current) => end == Done(res) && now == current
    case Throws(current) => end.Raised? && now == current
    case YieldsAll(_, _) => false
  }

  /** The meaning of what the run is a run of. */
  ghost function MeaningOf(n: nat, r: Run): Meaning {
    match r.what
    case Expression(e) => OfExpr(n, e, r.was)
    case Applied(func, args) => if func.Closure? then OfCall(n, func.fun, args, r.was) else Unknown
    case List(list) => OfList(n, list, 0, r.was)
    case Statement(s) => OfStmt(n, s, r.was)
    case _ => Unknown
  }

  ghost predicate Agrees(r: Run) {
    forall n: nat :: Says(MeaningOf(n, r), r)
  }

  ghost predicate AllAgree(p: seq<Run>) {
    forall i :: 0 <= i < |p| ==> Agrees(p[i])
  }

  /** Nowhere does a `catch` fail to put the exception into its variable, which nothing here looks into. */
  ghost predicate Caught(r: Run) {
    && !(r.what.Statement? && r.what.s.Try? && |r.parts| >= 2 && r.parts[1].what == Fault)
    && forall i :: 0 <= i < |r.parts| ==> Caught(r.parts[i])
  }

  /** However deep the meaning is looked for, the run ends as it says. */
  lemma {:induction false} Adequate(r: Run)
    requires Derives(r) && Caught(r)
    ensures Agrees(r)
    decreases r
  {
    forall i | 0 <= i < |r.parts|
      ensures Agrees(r.parts[i])
    {
      Adequate(r.parts[i]);
    }
    Node(r);
  }

  lemma {:induction false} Node(r: Run)
    requires Rule(r) && AllAgree(r.parts)
    requires !(r.what.Statement? && r.what.s.Try? && |r.parts| >= 2 && r.parts[1].what == Fault)
    ensures Agrees(r)
  {
    hide AllAgree, Says, ExpressionRule, AppliedRule, ListRule, StatementRule, MeaningOf;
    forall n: nat
      ensures Says(MeaningOf(n, r), r)
    {
      match r.what
      case Expression(e) => ExpressionNode(n, r, e);
      case Applied(func, args) => AppliedNode(n, r, func, args);
      case List(list) => ListNode(n, r, list);
      case Statement(s) => StatementNode(n, r, s);
      case _ => UnknownNode(n, r);
    }
  }

  lemma UnknownNode(n: nat, r: Run)
    requires r.what.CalledBack? || r.what.MemberCalled? || r.what.InC? || r.what.Fault?
    ensures Says(MeaningOf(n, r), r)
  {
  }

  /** What the meaning of a piece says of it. */
  lemma PieceSays(n: nat, x: Run)
    requires Agrees(x)
    ensures Says(MeaningOf(n, x), x)
  {
    hide Says, MeaningOf;
  }

  // ---------------------------------------------------------------- expressions

  lemma {:induction false} ExprSays(n: nat, x: Run, e: Expr, env: Env?)
    requires Agrees(x) && In(x, Expression(e), env)
    ensures Says(OfExpr(n, e, x.was), x)
  {
    hide OfExpr, Says;
    PieceSays(n, x);
  }

  /** The exception that is current before piece `i`. */
  ghost function Before(p: seq<Run>, was: Val, i: nat): Val
    requires i <= |p|
  {
    if i == 0 then was else p[i - 1].now
  }

  /** The pieces before piece `i` have these values. */
  ghost predicate Valued(p: seq<Run>, vs: seq<Val>) {
    |vs| <= |p| && forall i :: 0 <= i < |vs| ==> p[i].end == Value(vs[i])
  }

  /** Nothing is missing, unless a piece has raised an exception. */
  ghost predicate Whole(p: seq<Run>, count: nat) {
    Cut(p) || (Fine(p) && |p| >= count)
  }

  ghost predicate ArgsSay(m: Meaning, p: seq<Run>, count: nat, was: Val) {
    && (m.YieldsAll? ==> |m.vs| == count && Valued(p, m.vs) && m.current == Before(p, was, count))
    && (m.Throws? ==> Cut(p) && |p| <= count && m.current == p[|p| - 1].now)
  }

  lemma {:induction false} ArgsAgree(n: nat, p: seq<Run>, es: seq<Expr>, vs: seq<Val>, was: Val, now: Val, env: Env?)
    requires AllAgree(p) && Args(p, es, env) && Follow(p, was, now) && Whole(p, |es|) && Valued(p, vs) && |vs| <= |es|
    ensures ArgsSay(OfArgs(n, es, vs, Before(p, was, |vs|)), p, |es|, was)
    decreases |es| - |vs|
  {
    hide OfExpr, Agrees;
    var i := |vs|;
    if i < |es| {
      Another(p, i, |es|);
      var x := p[i];
      ExprSays(n, x, es[i], env);
      var m := OfExpr(n, es[i], x.was);
      if m.Yields? {
        ArgsAgree(n, p, es, vs + [m.v], was, now, env);
      } else if m.Throws? {
        if i < |p| - 1 { FineBefore(p, i); }
      }
    }
  }

  lemma Another(p: seq<Run>, i: nat, count: nat)
    requires Whole(p, count) && i < count && i <= |p| && forall k :: 0 <= k < i ==> !p[k].end.Raised?
    ensures i < |p|
  {
  }

  lemma FineBefore(p: seq<Run>, i: nat)
    requires (Cut(p) || Fine(p)) && i < |p| - 1
    ensures !p[i].end.Raised?
  {
    if Cut(p) { assert p[..|p| - 1][i] == p[i]; }
  }

  /** The whole run after operands that are evaluated in turn. */
  lemma {:induction false} TurnAgrees(n: nat, r: Run, es: seq<Expr>, full: bool)
    requires AllAgree(r.parts) && Follow(r.parts, r.was, r.now) && Args(r.parts, es, r.env) && |r.parts| <= |es|
    requires Ends(r.parts, r.end, full) && (full ==> |r.parts| == |es|)
    ensures var m := OfArgs(n, es, [], r.was);
      && (m.YieldsAll? ==> full && !r.end.Raised? && Values(r.parts) == m.vs && r.now == m.current)
      && (m.Throws? ==> r.end.Raised? && r.now == m.current)
  {
    hide OfArgs, AllAgree, Args;
    var p, m := r.parts, OfArgs(n, es, [], r.was);
    ArgsAgree(n, p, es, [], r.was, r.now, r.env);
    if m.YieldsAll? {
      assert forall i :: 0 <= i < |p| ==> Values(p)[i] == m.vs[i];
      assert Values(p) == m.vs;
    }
  }

  lemma ExpressionNode(n: nat, r: Run, e: Expr)
    requires r.what == Expression(e) && ExpressionRule(r, e) && AllAgree(r.parts)
    ensures Says(MeaningOf(n, r), r)
  {
    hide AllAgree, Says, BinaryRule, AndOrRule, UnaryRule, CallRule, MemberRule, InTurnRule;
    if n > 0 {
      match e
      case Literal(v) => assert Says(Yields(v, r.was), r) by { LiteralSays(r, v); }
      case Binary(op, x, y) => BinaryAgrees(n, r, op, x, y);
      case AndOr(isOr, x, y) => AndOrAgrees(n, r, isOr, x, y);
      case Minus(x) => UnaryAgrees(n, r, true, x);
      case Not(x) => UnaryAgrees(n, r, false, x);
      case Call(callee, args) => CallAgrees(n, r, callee, args);
      case Member(of, name) => MemberAgrees(n, r, of, name);
      case _ => InTurnAgrees(n, r, e);
    } else {
      UnknownSays(r);
    }
  }

  lemma UnknownSays(r: Run)
    ensures Says(Unknown, r)
  {
  }

  lemma LiteralSays(r: Run, v: Val)
    requires r.end == Value(v) && r.now == r.was
    ensures Says(Yields(v, r.was), r)
  {
  }

  lemma {:induction false} InTurnAgrees(n: nat, r: Run, e: Expr)
    requires n > 0 && InTurn(e) && InTurnRule(r, e) && AllAgree(r.parts)
    ensures Says(OfExpr(n, e, r.was), r)
  {
    hide AllAgree, Follow, Args, OfArgs, Values, Cut, Fine;
    if e.Comma? || e.Concat? || e.ArrayLit? || e.AssocLit? {
      var p, es := r.parts, Operands(e);
      RunNodes.ValuesSize(p);
      TurnAgrees(n - 1, r, es, |p| == |es| && Args(p, es, r.env) && r.end.Value? && Fits(e, Values(p), r.end.v));
    }
  }

  lemma {:induction false} BinaryAgrees(n: nat, r: Run, op: Op, x: Expr, y: Expr)
    requires n > 0 && BinaryRule(r, op, x, y) && AllAgree(r.parts)
    ensures Says(OfExpr(n, Binary(op, x, y), r.was), r)
  {
    hide AllAgree, Follow, Args, OfArgs, Takes, Gives, Operated;
    var p, m := r.parts, OfArgs(n - 1, [x, y], [], r.was);
    ArgsAgree(n - 1, p, [x, y], [], r.was, r.now, r.env);
    if m.YieldsAll? {
      Operators(op, m.vs[0], m.vs[1], m.current);
      BinaryEnd(r, op, m.vs, m.current);
    } else if m.Throws? {
      Following(p, r.was, r.now);
    }
  }

  lemma Following(p: seq<Run>, was: Val, now: Val)
    requires Follow(p, was, now) && p != []
    ensures p[|p| - 1].now == now
  {
  }

  /** What the operator means is what the rules of a run say that it takes and gives. */
  lemma Operators(op: Op, a: Val, b: Val, current: Val)
    ensures var m := Operated(op, a, b, current);
      && (m == Unknown || m.Yields?)
      && (m.Yields? ==> Takes(op, a, b) && m.current == current && forall v :: Gives(op, a, b, v) ==> v == m.v)
  {
  }

  lemma BinaryEnd(r: Run, op: Op, vs: seq<Val>, current: Val)
    requires |r.parts| <= 3 && Follow(r.parts, r.was, r.now) && |vs| == 2 && Valued(r.parts, vs)
    requires current == Before(r.parts, r.was, 2)
    requires |r.parts| == 3 ==> !Takes(op, vs[0], vs[1])
    requires Ends(r.parts, r.end, |r.parts| == 2 && r.end.Value? && Gives(op, vs[0], vs[1], r.end.v))
    ensures Takes(op, vs[0], vs[1]) ==>
      |r.parts| == 2 && r.end.Value? && Gives(op, vs[0], vs[1], r.end.v) && r.now == current
  {
    hide Takes, Gives;
  }

  /** The end of a run of one or two pieces. */
  lemma OneOrTwo(r: Run, full: bool)
    requires Follow(r.parts, r.was, r.now) && 1 <= |r.parts| <= 2 && Ends(r.parts, r.end, full)
    ensures r.parts[0].was == r.was
    ensures |r.parts| == 1 ==> r.now == r.parts[0].now && (r.parts[0].end.Raised? ==> r.end.Raised?)
    ensures |r.parts| == 1 && !r.parts[0].end.Raised? ==> full && !r.end.Raised?
    ensures |r.parts| == 2 ==> r.parts[1].was == r.parts[0].now && r.now == r.parts[1].now && !r.parts[0].end.Raised?
    ensures |r.parts| == 2 ==> if r.parts[1].end.Raised? then r.end.Raised? else full && !r.end.Raised?
  {
    var p := r.parts;
    if |p| == 2 { assert p[..1][0] == p[0]; }
  }

  lemma {:induction false} AndOrAgrees(n: nat, r: Run, isOr: bool, x: Expr, y: Expr)
    requires n > 0 && AndOrRule(r, isOr, x, y) && AllAgree(r.parts)
    ensures Says(OfExpr(n, AndOr(isOr, x, y), r.was), r)
  {
    hide Agrees, Follow, Ends, OfExpr;
    var p := r.parts;
    OneOrTwo(r, r.end.Value? && r.end.v.Bool?
                && if |p| == 1 then ValueOf(p[0]) == r.end.v == Bool(isOr)
                   else ValueOf(p[0]).Bool? && (ValueOf(p[1]).Bool? ==> r.end.v == ValueOf(p[1])));
    ExprSays(n - 1, p[0], x, r.env);
    if |p| == 2 && p[1].what == Expression(y) { ExprSays(n - 1, p[1], y, r.env); }
    AndOrMeans(n, isOr, x, y, r.was);
  }

  lemma UnaryAgrees(n: nat, r: Run, minus: bool, x: Expr)
    requires n > 0 && UnaryRule(r, minus, x) && AllAgree(r.parts)
    ensures Says(OfExpr(n, if minus then Minus(x) else Not(x), r.was), r)
  {
    hide Agrees, Follow, Ends, OfExpr;
    var p := r.parts;
    OneOrTwo(r, |p| == 1 && Signed(minus, ValueOf(p[0])) && r.end == Value(Turned(ValueOf(p[0]))));
    ExprSays(n - 1, p[0], x, r.env);
    UnaryMeans(n, minus, x, r.was);
  }

  lemma {:induction false} CallAgrees(n: nat, r: Run, callee: Expr, args: seq<Expr>)
    requires n > 0 && CallRule(r, callee, args) && AllAgree(r.parts)
    ensures Says(OfExpr(n, Call(callee, args), r.was), r)
  {
    hide Agrees, Follow, Ends, OfExpr, OfCall;
    var p := r.parts;
    OneOrTwo(r, |p| == 2 && Callable(ValueOf(p[0])) && r.end == p[1].end);
    ExprSays(n - 1, p[0], callee, r.env);
    if |p| == 2 { PieceSays(n - 1, p[1]); }
    CallMeans(n, callee, args, r.was);
  }

  lemma {:induction false} MemberAgrees(n: nat, r: Run, of: Expr, name: string)
    requires n > 0 && MemberRule(r, of) && AllAgree(r.parts)
    ensures Says(OfExpr(n, Member(of, name), r.was), r)
  {
    hide Agrees, Follow, Ends, OfExpr;
    var p := r.parts;
    OneOrTwo(r, |p| == 1 && r.end.Value?
                && if ValueOf(p[0]) == Str || ValueOf(p[0]) == Arr then r.end.v == Method
                   else ValueOf(p[0]) == Assoc || ValueOf(p[0]) == Module);
    ExprSays(n - 1, p[0], of, r.env);
    MemberMeans(n, of, name, r.was);
  }

  // ---------------------------------------------------------------- calls and lists

  lemma AppliedNode(n: nat, r: Run, func: Val, args: seq<Expr>)
    requires r.what == Applied(func, args) && AppliedRule(r, func, args) && AllAgree(r.parts)
    ensures Says(MeaningOf(n, r), r)
  {
    hide AllAgree, OfCall, OfArgs, OfList, CrowbarRule, NativeRule;
    if func.Closure? && func.fun.Crowbar? {
      CrowbarAgrees(n, r, func.fun.params, func.fun.body, args);
    } else {
      NoMeaning(n, func, args, r.was);
    }
  }

  lemma {:induction false} NoMeaning(n: nat, func: Val, args: seq<Expr>, current: Val)
    ensures func.Closure? && !func.fun.Crowbar? ==> OfCall(n, func.fun, args, current) == Unknown
  {
  }

  lemma {:induction false} CrowbarAgrees(n: nat, r: Run, params: nat, body: seq<Stmt>, args: seq<Expr>)
    requires CrowbarRule(r, params, body, args) && AllAgree(r.parts)
    ensures Says(OfCall(n, Crowbar(params, body), args, r.was), r)
  {
    hide AllAgree, Args, OfArgs, OfList;
    var p := r.parts;
    if |args| == params {
      ArgsAgree(n, p, args, [], r.was, r.now, r.env);
      var a := OfArgs(n, args, [], r.was);
      if a.YieldsAll? {
        BodyLeft(p, |args|);
        AgreesAt(p, r.was, r.now, |args|);
        ListSays(n, p[|args|], body, p[|args|].env);
      }
    }
  }

  lemma BodyLeft(p: seq<Run>, count: nat)
    requires |p| >= count && (Cut(p) || (Fine(p) && |p| == count + 1))
    requires forall i :: 0 <= i < count ==> !p[i].end.Raised?
    ensures |p| > count
  {
  }

  lemma {:induction false} ListSays(n: nat, x: Run, list: seq<Stmt>, env: Env?)
    requires Agrees(x) && In(x, List(list), env)
    ensures Says(OfList(n, list, 0, x.was), x)
  {
    hide OfList, Says;
    PieceSays(n, x);
  }

  lemma {:induction false} StmtSays(n: nat, x: Run, s: Stmt, env: Env?)
    requires Agrees(x) && In(x, Statement(s), env)
    ensures Says(OfStmt(n, s, x.was), x)
  {
    hide OfStmt, Says;
    PieceSays(n, x);
  }

  lemma ListNode(n: nat, r: Run, list: seq<Stmt>)
    requires r.what == List(list) && ListRule(r, list) && AllAgree(r.parts)
    ensures Says(MeaningOf(n, r), r)
  {
    hide AllAgree, OfList, Says;
    ListAgrees(n, r, list, 0);
  }

  lemma {:induction false} ListAgrees(n: nat, r: Run, list: seq<Stmt>, i: nat)
    requires ListRule(r, list) && AllAgree(r.parts) && i <= |r.parts| && (i == |r.parts| ==> r.end == Done(Normal))
    ensures Says(OfList(n, list, i, Before(r.parts, r.was, i)), r)
    decreases |r.parts| - i
  {
    hide Agrees, OfStmt;
    var p := r.parts;
    if i < |p| {
      StmtSays(n, p[i], list[i], r.env);
      if p[i].end == Done(Normal) {
        ListAgrees(n, r, list, i + 1);
      }
    }
  }

  // ---------------------------------------------------------------- statements

  lemma StatementNode(n: nat, r: Run, s: Stmt)
    requires r.what == Statement(s) && StatementRule(r, s) && AllAgree(r.parts)
    requires s.Try? && |r.parts| >= 2 ==> r.parts[1].what != Fault
    ensures Says(MeaningOf(n, r), r)
  {
    hide AllAgree, Says, PlainRule, IfRule, ForRule, TryRule, ThrowRule, ForeachRule, OfLoop, OfArms, OfTry;
    hide OfOption, OfExpr;
    if n > 0 {
      match s
      case ExprStmt(e) => PlainAgrees(n, r, e, false);
      case Return(Some(e)) => PlainAgrees(n, r, e, true);
      case Return(None) => NothingSays(r, s);
      case If(cond, thenBlock, elifs, otherwise) => IfAgrees(n, r, cond, thenBlock, elifs, otherwise);
      case While(to, cond, body) => ForAgrees(n, r, to, None, Some(cond), None, body);
      case For(to, init, cond, post, body) => ForAgrees(n, r, to, init, cond, post, body);
      case Break(to) => LeafSays(r, Broke(to));
      case Continue(to) => LeafSays(r, Continued(to));
      case Try(tryBlock, catchBlock, finallyBlock) => TryAgrees(n, r, tryBlock, catchBlock, finallyBlock);
      case Throw(e) => ThrowAgrees(n, r, e);
      case _ => UnknownSays(r);
    } else {
      UnknownSays(r);
    }
  }

  lemma LeafSays(r: Run, res: Completion)
    requires r.end == Done(res) && r.now == r.was
    ensures Says(Completes(res, r.was), r)
  {
  }

  lemma NothingSays(r: Run, s: Stmt)
    requires s == Return(None) && StatementRule(r, s)
    ensures Says(Completes(Returned(Null), r.was), r)
  {
  }

  lemma PlainAgrees(n: nat, r: Run, e: Expr, asResult: bool)
    requires n > 0 && AllAgree(r.parts)
    requires var v := if r.parts == [] then Null else ValueOf(r.parts[0]);
      PlainRule(r, [e], if asResult then Returned(v) else Normal, false)
    ensures Says(OfStmt(n, if asResult then Return(Some(e)) else ExprStmt(e), r.was), r)
  {
    hide Agrees, OfExpr, Args;
    var p := r.parts;
    if |p| == 1 {
      FirstIn(p, e, r.env);
      ExprSays(n - 1, p[0], e, r.env);
    }
  }

  lemma FirstIn(p: seq<Run>, e: Expr, env: Env?)
    requires |p| == 1 && Args(p, [e], env)
    ensures In(p[0], Expression(e), env)
  {
  }

  lemma {:induction false} ThrowAgrees(n: nat, r: Run, e: Expr)
    requires n > 0 && ThrowRule(r, e) && AllAgree(r.parts)
    ensures Says(OfStmt(n, Throw(e), r.was), r)
  {
    hide Agrees, OfExpr;
    ExprSays(n - 1, r.parts[0], e, r.env);
  }

  lemma {:induction false} TryAgrees(n: nat, r: Run, tryBlock: seq<Stmt>, catchBlock: Option<seq<Stmt>>,
                                     finallyBlock: Option<seq<Stmt>>)
    requires n > 0 && TryRule(r, tryBlock, catchBlock, finallyBlock) && AllAgree(r.parts)
    requires |r.parts| >= 2 ==> r.parts[1].what != Fault
    ensures Says(OfStmt(n, Try(tryBlock, catchBlock, finallyBlock), r.was), r)
  {
    hide Agrees, OfList, OfFinally, Finish, OfStmt;
    var p := r.parts;
    ListSays(n - 1, p[0], tryBlock, r.env);
    if p[0].end.Raised? && catchBlock.Some? {
      ListSays(n - 1, p[1], catchBlock.value, r.env);
      if !p[1].end.Raised? {
        FinishAgrees(n - 1, r, 2, p[1].end, catchBlock, finallyBlock);
      }
    } else {
      FinishAgrees(n - 1, r, 1, p[0].end, catchBlock, finallyBlock);
    }
    TryMeans(n, tryBlock, catchBlock, finallyBlock, r.was);
  }

  lemma FinishAgrees(n: nat, r: Run, k: nat, end: End, catchBlock: Option<seq<Stmt>>, finallyBlock: Option<seq<Stmt>>)
    requires 0 < k <= |r.parts| && Finish(r, k, end, catchBlock, finallyBlock) && AllAgree(r.parts)
    ensures forall res: Option<Completion> :: (res.Some? ==> end == Done(res.value)) ==>
      Says(OfFinally(n, res, catchBlock.Some?, finallyBlock, r.parts[k - 1].now), r)
  {
    hide Agrees, OfList;
    if finallyBlock.Some? { ListSays(n, r.parts[k], finallyBlock.value, r.env); }
  }

  // ---------------------------------------------------------------- branches

  lemma Sliced(p: seq<Run>, was: Val, now: Val, k: nat)
    requires AllAgree(p) && Follow(p, was, now) && k <= |p|
    ensures AllAgree(p[..k]) && Follow(p[..k], was, Before(p, was, k))
    ensures AllAgree(p[k..]) && Follow(p[k..], Before(p, was, k), now)
  {
    hide Agrees;
  }

  lemma {:induction false} GuardedSays(n: nat, p: seq<Run>, was: Val, now: Val, cond: Expr, block: seq<Stmt>,
                                       env: Env?, end: End)
    requires Guarded(p, cond, block, env, end) && AllAgree(p) && Follow(p, was, now)
    ensures var c := OfExpr(n, cond, was);
      && (c.Throws? ==> end.Raised? && now == c.current) && !Holds(c, false)
      && (Holds(c, true) ==> Meets(OfList(n, block, 0, c.current), end, now))
  {
    hide Agrees, OfExpr, OfList;
    ExprSays(n, p[0], cond, env);
    if |p| == 2 && p[1].what == List(block) { ListSays(n, p[1], block, env); }
  }

  lemma {:induction false} PassedSays(n: nat, p: seq<Run>, was: Val, now: Val, arm: (Expr, seq<Stmt>), env: Env?)
    requires ArmPassed(p, arm, env) && AllAgree(p) && Follow(p, was, now)
    ensures var c := OfExpr(n, arm.0, was); c == Unknown || c == Yields(Bool(false), now)
  {
    hide Agrees, OfExpr;
    ExprSays(n, p[0], arm.0, env);
  }

  lemma {:induction false} RanSays(n: nat, p: seq<Run>, was: Val, now: Val, arm: (Expr, seq<Stmt>), env: Env?)
    requires ArmRan(p, arm, env) && AllAgree(p) && Follow(p, was, now)
    ensures var c := OfExpr(n, arm.0, was);
      c == Unknown || (Holds(c, true) && OfList(n, arm.1, 0, c.current) in {Unknown, Completes(Normal, now)})
  {
    hide Agrees, OfExpr, OfList;
    ExprSays(n, p[0], arm.0, env);
    ListSays(n, p[1], arm.1, env);
  }

  /** Where the last of the arms that are done with begins. */
  lemma LastArmDone(p: seq<Run>, arms: seq<(Expr, seq<Stmt>)>, i: nat, env: Env?) returns (m: nat)
    requires 0 < i <= |arms| && ArmsDone(p, arms, i, env)
    ensures m <= |p| && ArmsDone(p[..m], arms, i - 1, env)
    ensures ArmRan(p[m..], arms[i - 1], env) || ArmPassed(p[m..], arms[i - 1], env)
  {
    hide ArmRan, ArmPassed;
    m := if |p| >= 2 && ArmRan(p[|p| - 2..], arms[i - 1], env) && ArmsDone(p[..|p| - 2], arms, i - 1, env) then |p| - 2
         else |p| - 1;
  }

  lemma RanBy(p: seq<Run>, m: nat, arm: (Expr, seq<Stmt>), env: Env?)
    requires m <= |p| && (ArmRan(p[m..], arm, env) || ArmPassed(p[m..], arm, env))
    ensures BlockRan(p) <==> BlockRan(p[..m]) || ArmRan(p[m..], arm, env)
  {
    RanSlice(p, m);
    var q := p[m..];
    if ArmRan(q, arm, env) {
      assert p[m + 1] == q[1];
    } else {
      assert p[m] == q[0];
    }
  }

  /** One more of them. */
  lemma ArmAgrees(n: nat, p: seq<Run>, was: Val, now: Val, arms: seq<(Expr, seq<Stmt>)>, i: nat, ran: bool,
                  otherwise: Option<seq<Stmt>>, env: Env?)
    requires i < |arms| && AllAgree(p) && Follow(p, was, now)
    requires ArmRan(p, arms[i], env) || ArmPassed(p, arms[i], env)
    ensures OfArms(n, arms, i, ran, otherwise, was) in
      {Unknown, OfArms(n, arms, i + 1, ran || ArmRan(p, arms[i], env), otherwise, now)}
  {
    hide AllAgree, Follow, OfExpr, OfList;
    if ArmRan(p, arms[i], env) {
      RanSays(n, p, was, now, arms[i], env);
    } else {
      PassedSays(n, p, was, now, arms[i], env);
    }
  }

  /** The arms that are done with. */
  lemma {:induction false} ArmsAgree(n: nat, p: seq<Run>, was: Val, now: Val, arms: seq<(Expr, seq<Stmt>)>, i: nat,
                                     otherwise: Option<seq<Stmt>>, env: Env?)
    requires i <= |arms| && ArmsDone(p, arms, i, env) && AllAgree(p) && Follow(p, was, now)
    ensures OfArms(n, arms, 0, false, otherwise, was) in {Unknown, OfArms(n, arms, i, BlockRan(p), otherwise, now)}
    decreases i
  {
    hide *;
    if i == 0 {
      NoArmsDone(p, arms, env);
      FollowNone(was, now);
    } else {
      var m := LastArmDone(p, arms, i, env);
      var mid := Before(p, was, m);
      Sliced(p, was, now, m);
      ArmsAgree(n, p[..m], was, mid, arms, i - 1, otherwise, env);
      ArmAgrees(n, p[m..], mid, now, arms, i - 1, BlockRan(p[..m]), otherwise, env);
      RanBy(p, m, arms[i - 1], env);
    }
  }

  lemma {:induction false} NoArmsDone(p: seq<Run>, arms: seq<(Expr, seq<Stmt>)>, env: Env?)
    requires ArmsDone(p, arms, 0, env)
    ensures p == [] && !BlockRan(p)
  {
  }

  lemma FollowNone(was: Val, now: Val)
    requires Follow([], was, now)
    ensures was == now
  {
  }

  lemma RanSlice(p: seq<Run>, m: nat)
    requires m <= |p|
    ensures BlockRan(p) <==> BlockRan(p[..m]) || exists i :: m <= i < |p| && p[i].what.List?
  {
    if BlockRan(p[..m]) {
      var i :| 0 <= i < m && p[..m][i].what.List?;
      assert p[i].what.List?;
    }
    if i :| 0 <= i < m && p[i].what.List? {
      assert p[..m][i].what.List?;
    }
  }

  lemma {:induction false} LastArmAgrees(n: nat, p: seq<Run>, was: Val, now: Val, arms: seq<(Expr, seq<Stmt>)>,
      i: nat, ran: bool, otherwise: Option<seq<Stmt>>, env: Env?, end: End)
    requires i <= |arms| && LastArm(p, arms, i, ran, otherwise, env, end) && AllAgree(p) && Follow(p, was, now)
    ensures Meets(OfArms(n, arms, i, ran, otherwise, was), end, now)
  {
    hide Agrees, OfExpr, OfList, Guarded;
    if i < |arms| {
      GuardedSays(n, p, was, now, arms[i].0, arms[i].1, env, end);
    } else if p != [] {
      ListSays(n, p[0], otherwise.value, env);
    }
  }

  lemma {:induction false} IfAgrees(n: nat, r: Run, cond: Expr, thenBlock: seq<Stmt>, elifs: seq<(Expr, seq<Stmt>)>,
                 otherwise: Option<seq<Stmt>>)
    requires n > 0 && IfRule(r, cond, thenBlock, elifs, otherwise) && AllAgree(r.parts)
    ensures Says(OfStmt(n, If(cond, thenBlock, elifs, otherwise), r.was), r)
  {
    hide AllAgree, Follow, Guarded, ArmPassed, ArmsDone, LastArm, BlockRan, OfExpr, OfList, OfArms;
    var p, c := r.parts, OfExpr(n - 1, cond, r.was);
    if Guarded(p, cond, thenBlock, r.env, r.end) {
      GuardedSays(n - 1, p, r.was, r.now, cond, thenBlock, r.env, r.end);
    } else {
      var k, i :| 1 <= k <= |p| && 0 <= i <= |elifs| && ArmsDone(p[1..k], elifs, i, r.env)
                  && LastArm(p[k..], elifs, i, BlockRan(p[1..k]), otherwise, r.env, r.end);
      Sliced(p, r.was, r.now, 1);
      Sliced(p, r.was, r.now, k);
      Sliced(p[..k], r.was, Before(p, r.was, k), 1);
      assert p[..k][1..] == p[1..k] && Before(p[..k], r.was, 1) == Before(p, r.was, 1);
      PassedSays(n - 1, p[..1], r.was, Before(p, r.was, 1), (cond, thenBlock), r.env);
      ArmsAgree(n - 1, p[1..k], Before(p, r.was, 1), Before(p, r.was, k), elifs, i, otherwise, r.env);
      LastArmAgrees(n - 1, p[k..], Before(p, r.was, k), r.now, elifs, i, BlockRan(p[1..k]), otherwise, r.env, r.end);
    }
  }

  // ---------------------------------------------------------------- loops

  lemma OutsideIs(res: Completion, to: Option<string>)
    ensures Outside(res, to) == LeftOver(res, to)
  {
  }

  /** The tests before the body. */
  lemma TestsSay(n: nat, p: seq<Run>, was: Val, now: Val, cond: Option<Expr>, post: Option<Expr>, env: Env?)
    requires |p| == TestCount(Tested(cond, post)) && Tests(p, Tested(cond, post), env) && AllAgree(p)
    requires Follow(p, was, now)
    ensures TestOf(n, cond, was) in {Unknown, Yields(Bool(true), now)}
  {
    hide Agrees, OfExpr;
    if cond.Some? { ExprSays(n, p[0], cond.value, env); }
  }

  ghost function TestOf(n: nat, cond: Option<Expr>, current: Val): (c: Meaning)
    ensures !c.Completes? && !c.YieldsAll?
  {
    if cond.None? then Yields(Bool(true), current) else OfExpr(n, cond.value, current)
  }

  lemma {:induction false} StepsSay(n: nat, p: seq<Run>, was: Val, now: Val, cond: Option<Expr>, post: Option<Expr>,
                                    env: Env?)
    requires |p| == StepCount(Tested(cond, post)) && Steps(p, Tested(cond, post), env) && AllAgree(p)
    requires Follow(p, was, now)
    ensures var m := OfOption(n, post, was); m == Unknown || (m.Yields? && m.current == now)
  {
    hide Agrees, OfExpr;
    if post.Some? { ExprSays(n, p[0], post.value, env); }
  }

  lemma {:induction false} LoopMeans(n: nat, cond: Option<Expr>, post: Option<Expr>, to: Option<string>,
                                     body: seq<Stmt>, left: Completion, current: Val)
    requires n > 0
    ensures OfLoop(n, cond, post, to, body, left, current) ==
      var c := TestOf(n - 1, cond, current);
      if Holds(c, false) then Completes(left, c.current)
      else if Holds(c, true) then AfterBody(n - 1, OfList(n - 1, body, 0, c.current), cond, post, to, body)
      else NoBoolean(c)
  {
    hide OfList, OfExpr, AfterBody;
  }

  /** A full round is one step of the loop. */
  lemma RoundAgrees(n: nat, p: seq<Run>, was: Val, now: Val, cond: Option<Expr>, post: Option<Expr>,
                    to: Option<string>, body: seq<Stmt>, left: Completion, env: Env?)
    requires n > 0 && Round(p, Tested(cond, post), body, env) && AllAgree(p) && Follow(p, was, now)
    ensures var k := TestCount(Tested(cond, post));
      OfLoop(n, cond, post, to, body, left, was) in
      {Unknown, OfLoop(n - 1, cond, post, to, body, LeftOver(p[k].end.res, to), now)}
  {
    hide Agrees, OfExpr, OfList, OfLoop, OfOption, Follow, Tests, Steps, LeftOver, Outside, AllAgree;
    var k := TestCount(Tested(cond, post));
    Sliced(p, was, now, k);
    Sliced(p, was, now, k + 1);
    TestsSay(n - 1, p[..k], was, Before(p, was, k), cond, post, env);
    AgreesAt(p, was, now, k);
    ListSays(n - 1, p[k], body, env);
    StepsSay(n - 1, p[k + 1..], Before(p, was, k + 1), now, cond, post, env);
    OutsideIs(p[k].end.res, to);
    LoopMeans(n, cond, post, to, body, left, was);
  }

  lemma AgreesAt(p: seq<Run>, was: Val, now: Val, k: nat)
    requires k < |p| && AllAgree(p) && Follow(p, was, now)
    ensures Agrees(p[k]) && p[k].was == Before(p, was, k) && (k == |p| - 1 ==> p[k].now == now)
  {
    hide Agrees;
  }

  /** So many rounds are so many steps. */
  lemma {:induction false} RoundsAgree(n: nat, p: seq<Run>, was: Val, now: Val, k: nat, cond: Option<Expr>,
                                       post: Option<Expr>, to: Option<string>, body: seq<Stmt>, env: Env?)
    requires Rounds(p, k, Tested(cond, post), body, env) && AllAgree(p) && Follow(p, was, now)
    ensures var m := OfLoop(n, cond, post, to, body, Normal, was);
      m == Unknown
      || (n >= k && m == OfLoop(n - k, cond, post, to, body, LeftBehind(p, Tested(cond, post), to), now))
    decreases k
  {
    hide AllAgree, Follow, OfLoop, Round, LeftOver, LeftBehind;
    var c := Tested(cond, post);
    if k == 0 {
      FollowNone(was, now);
      RunNodes.NoRounds(c, to, body, env);
    } else {
      var m := |p| - (TestCount(c) + 1 + StepCount(c));
      var mid := Before(p, was, m);
      Sliced(p, was, now, m);
      RoundsAgree(n, p[..m], was, mid, k - 1, cond, post, to, body, env);
      RunNodes.RoundMore(p[..m], k - 1, p[m..], c, to, body, env);
      assert p[..m] + p[m..] == p;
      if n >= k {
        RoundAgrees(n - k + 1, p[m..], mid, now, cond, post, to, body, LeftBehind(p[..m], c, to), env);
      } else if n == k - 1 {
        NoDepth(cond, post, to, body, LeftBehind(p[..m], c, to), mid);
      }
    }
  }

  lemma {:induction false} NoDepth(cond: Option<Expr>, post: Option<Expr>, to: Option<string>, body: seq<Stmt>,
                                   left: Completion, current: Val)
    ensures OfLoop(0, cond, post, to, body, left, current) == Unknown
  {
  }

  lemma {:induction false} LastRoundAgrees(n: nat, p: seq<Run>, was: Val, now: Val, cond: Option<Expr>,
      post: Option<Expr>, to: Option<string>, body: seq<Stmt>, left: Completion, env: Env?, end: End)
    requires LastRound(p, Tested(cond, post), to, body, env, left, end) && AllAgree(p) && Follow(p, was, now)
    ensures Meets(OfLoop(n, cond, post, to, body, left, was), end, now)
  {
    hide OfLoop, Follow, AllAgree, Stopped;
    if n == 0 {
      NoDepth(cond, post, to, body, left, was);
    } else if Stopped(p, Tested(cond, post), env, left, end) {
      StoppedAgrees(n, p, was, now, cond, post, to, body, left, env, end);
    } else {
      LeftAgrees(n, p, was, now, cond, post, to, body, left, env, end);
    }
  }

  lemma {:induction false} StoppedAgrees(n: nat, p: seq<Run>, was: Val, now: Val, cond: Option<Expr>,
      post: Option<Expr>, to: Option<string>, body: seq<Stmt>, left: Completion, env: Env?, end: End)
    requires n > 0 && Stopped(p, Tested(cond, post), env, left, end) && AllAgree(p) && Follow(p, was, now)
    ensures Meets(OfLoop(n, cond, post, to, body, left, was), end, now)
  {
    hide OfLoop, Follow, AllAgree, Stopped, TestOf, OfList, OfOption;
    LoopMeans(n, cond, post, to, body, left, was);
    StoppedSays(n - 1, p, was, now, cond, post, left, env, end);
  }

  /** The body ends the loop, or what follows it does. */
  lemma {:induction false} LeftAgrees(n: nat, p: seq<Run>, was: Val, now: Val, cond: Option<Expr>, post: Option<Expr>,
                   to: Option<string>, body: seq<Stmt>, left: Completion, env: Env?, end: End)
    requires n > 0 && LastRound(p, Tested(cond, post), to, body, env, left, end) && AllAgree(p) && Follow(p, was, now)
    requires !Stopped(p, Tested(cond, post), env, left, end)
    ensures Meets(OfLoop(n, cond, post, to, body, left, was), end, now)
  {
    hide OfLoop, Follow, AllAgree, Stopped, TestOf, OfList, AfterBody, Tests, LeftOver, Agrees;
    var c := Tested(cond, post);
    var k := TestCount(c);
    LoopMeans(n, cond, post, to, body, left, was);
    Sliced(p, was, now, k);
    TestsSay(n - 1, p[..k], was, Before(p, was, k), cond, post, env);
    AgreesAt(p, was, now, k);
    ListSays(n - 1, p[k], body, env);
    BodySays(n - 1, OfList(n - 1, body, 0, Before(p, was, k)), p, was, now, cond, post, to, body, env, end);
  }

  lemma {:induction false} BodySays(n: nat, b: Meaning, p: seq<Run>, was: Val, now: Val, cond: Option<Expr>,
                                    post: Option<Expr>, to: Option<string>, body: seq<Stmt>, env: Env?, end: End)
    requires var k := TestCount(Tested(cond, post));
      && AllAgree(p) && Follow(p, was, now) && k + 1 <= |p| <= k + 2 && Meets(b, p[k].end, p[k].now)
      && !b.Yields? && !b.YieldsAll?
      && (|p| == k + 1 ==>
            && !GoesOn(p[k].end)
            && end == if p[k].end.Done? then Done(LeftOver(p[k].end.res, to)) else p[k].end)
      && (|p| == k + 2 ==>
            && GoesOn(p[k].end) && end.Raised? && p[k + 1].end.Raised? && post.Some?
            && In(p[k + 1], Expression(post.value), env))
    ensures Meets(AfterBody(n, b, cond, post, to, body), end, now)
  {
    hide OfLoop, Follow, AllAgree, Agrees, OfOption, LeftOver, Outside;
    if b.Completes? { OutsideIs(b.res, to); }
    var k := TestCount(Tested(cond, post));
    AgreesAt(p, was, now, k);
    if |p| == k + 2 {
      AgreesAt(p, was, now, k + 1);
      StepSays(n, p[k + 1], post.value, env);
    }
  }

  lemma {:induction false} StepSays(n: nat, x: Run, post: Expr, env: Env?)
    requires Agrees(x) && In(x, Expression(post), env) && x.end.Raised?
    ensures OfOption(n, Some(post), x.was) in {Unknown, Throws(x.now)}
  {
    hide OfExpr, Agrees;
    ExprSays(n, x, post, env);
  }

  lemma StoppedSays(n: nat, p: seq<Run>, was: Val, now: Val, cond: Option<Expr>, post: Option<Expr>, left: Completion,
                    env: Env?, end: End)
    requires Stopped(p, Tested(cond, post), env, left, end) && AllAgree(p) && Follow(p, was, now)
    ensures var c := TestOf(n, cond, was);
      && !Holds(c, true)
      && (Holds(c, false) ==> end == Done(left) && now == c.current) && (c.Throws? ==> end.Raised? && now == c.current)
  {
    hide Agrees, OfExpr;
    ExprSays(n, p[0], cond.value, env);
  }

  lemma {:induction false} LoopAgrees(n: nat, p: seq<Run>, was: Val, now: Val, cond: Option<Expr>, post: Option<Expr>,
                   to: Option<string>, body: seq<Stmt>, env: Env?, end: End)
    requires Looped(p, Tested(cond, post), to, body, env, end) && AllAgree(p) && Follow(p, was, now)
    ensures Meets(OfLoop(n, cond, post, to, body, Normal, was), end, now)
  {
    hide AllAgree, Follow, OfLoop, Rounds, LastRound, LeftBehind;
    var c := Tested(cond, post);
    var k, m: nat :| 0 <= k <= |p| && Rounds(p[..k], m, c, body, env)
                     && LastRound(p[k..], c, to, body, env, LeftBehind(p[..k], c, to), end);
    var mid := Before(p, was, k);
    Sliced(p, was, now, k);
    RoundsAgree(n, p[..k], was, mid, m, cond, post, to, body, env);
    if n >= m {
      LastRoundAgrees(n - m, p[k..], mid, now, cond, post, to, body, LeftBehind(p[..k], c, to), env, end);
    }
  }

  lemma {:induction false} ForAgrees(n: nat, r: Run, to: Option<string>, init: Option<Expr>, cond: Option<Expr>,
                                     post: Option<Expr>, body: seq<Stmt>)
    requires n > 0 && ForRule(r, to, init, Tested(cond, post), body) && AllAgree(r.parts)
    ensures Says(OfStmt(n, For(to, init, cond, post, body), r.was), r)
    ensures init.None? && cond.Some? && post.None? ==> Says(OfStmt(n, While(to, cond.value, body), r.was), r)
  {
    hide AllAgree, Follow, OfLoop, Looped, OfExpr;
    var p := r.parts;
    if init.None? {
      LoopAgrees(n - 1, p, r.was, r.now, cond, post, to, body, r.env, r.end);
    } else {
      AgreesAt(p, r.was, r.now, 0);
      ExprSays(n - 1, p[0], init.value, r.env);
      if !p[0].end.Raised? {
        Sliced(p, r.was, r.now, 1);
        LoopAgrees(n - 1, p[1..], p[0].now, r.now, cond, post, to, body, r.env, r.end);
      }
    }
  }
}
