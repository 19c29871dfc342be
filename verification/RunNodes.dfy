/** How the runs of the pieces make up the run of the whole, construct by construct. */
module RunNodes {
  import opened Syntax
  import opened BigStep

  /** A node that obeys its rule, over pieces that follow each other. */
  lemma Node(d: Run, raised: bool)
    requires Rule(d) && AllDerive(d.parts) && (d.end.Raised? <==> raised)
    ensures Tells(d, d.what, d.env, d.was, d.now, raised)
  {
    hide Rule, AllDerive;
    Rooted(d);
  }

  lemma ChainParts(p: seq<Run>, was: Val, now: Val, raised: bool)
    requires Chain(p, was, now, raised)
    ensures AllDerive(p) && Follow(p, was, now) && (raised ==> Cut(p)) && (!raised ==> Fine(p) && !Cut(p))
    ensures raised ==> p != [] && p[|p| - 1].end.Raised?
  {
    hide AllDerive, Follow;
  }

  // ---------------------------------------------------------------- expressions

  lemma LiteralNode(v: Val, env: Env?, was: Val) returns (d: Run)
    ensures Tells(d, Expression(Literal(v)), env, was, was, false) && d.end == Value(v)
  {
    d := Run(Expression(Literal(v)), env, was, [], Value(v), was);
    Node(d, false);
  }

  lemma InTurnNode(e: Expr, env: Env?, was: Val, now: Val, p: seq<Run>, raised: bool, v: Val) returns (d: Run)
    requires InTurn(e) && Chain(p, was, now, raised) && InOrder(p, Operands(e), env, Fallible(e))
    requires !raised ==> |p| == |Operands(e)| && Args(p, Operands(e), env) && Fits(e, Values(p), v)
    ensures Tells(d, Expression(e), env, was, now, raised) && (!raised ==> d.end == Value(v))
  {
    hide Chain, AllDerive, Follow, InOrder, Args, Fits, Operands, Values, Cut, Fine, Tells;
    d := Run(Expression(e), env, was, p, Ended(raised, Value(v)), now);
    ChainParts(p, was, now, raised);
    Node(d, raised);
  }

  lemma BinaryNode(op: Op, x: Expr, y: Expr, env: Env?, was: Val, now: Val, p: seq<Run>, raised: bool, v: Val)
    returns (d: Run)
    requires Chain(p, was, now, raised) && |p| <= 3 && Args(p, [x, y], env)
    requires |p| == 3 ==> p[2].what == Fault && !Takes(op, ValueOf(p[0]), ValueOf(p[1]))
    requires !raised ==>
      |p| == 2 && Takes(op, ValueOf(p[0]), ValueOf(p[1])) && Gives(op, ValueOf(p[0]), ValueOf(p[1]), v)
    ensures Tells(d, Expression(Binary(op, x, y)), env, was, now, raised) && (!raised ==> d.end == Value(v))
  {
    hide Chain, AllDerive, Follow, Args, Takes, Gives, Cut, Fine, Tells;
    d := Run(Expression(Binary(op, x, y)), env, was, p, Ended(raised, Value(v)), now);
    ChainParts(p, was, now, raised);
    Node(d, raised);
  }

  lemma AndOrNode(isOr: bool, x: Expr, y: Expr, env: Env?, was: Val, now: Val, p: seq<Run>, raised: bool, b: bool)
    returns (d: Run)
    requires Chain(p, was, now, raised) && 1 <= |p| <= 2 && In(p[0], Expression(x), env)
    requires |p| == 2 ==>
      if ValueOf(p[0]).Bool? then ValueOf(p[0]) != Bool(isOr) && In(p[1], Expression(y), env) else p[1].what == Fault
    requires !raised ==>
      if |p| == 1 then ValueOf(p[0]) == Bool(b) && b == isOr
      else ValueOf(p[0]).Bool? && (ValueOf(p[1]).Bool? ==> ValueOf(p[1]) == Bool(b))
    ensures Tells(d, Expression(AndOr(isOr, x, y)), env, was, now, raised) && (!raised ==> d.end == Value(Bool(b)))
  {
    hide Chain, AllDerive, Follow, Cut, Fine, Tells;
    d := Run(Expression(AndOr(isOr, x, y)), env, was, p, Ended(raised, Value(Bool(b))), now);
    ChainParts(p, was, now, raised);
    Node(d, raised);
  }

  lemma UnaryNode(minus: bool, x: Expr, env: Env?, was: Val, now: Val, p: seq<Run>, raised: bool) returns (d: Run)
    requires Chain(p, was, now, raised) && 1 <= |p| <= 2 && In(p[0], Expression(x), env)
    requires |p| == 2 ==> p[1].what == Fault && !Signed(minus, ValueOf(p[0]))
    requires !raised ==> |p| == 1 && Signed(minus, ValueOf(p[0]))
    ensures Tells(d, Expression(if minus then Minus(x) else Not(x)), env, was, now, raised)
    ensures !raised ==> d.end == Value(Turned(ValueOf(p[0])))
  {
    hide Chain, AllDerive, Follow, Cut, Fine, Tells, Signed, Turned;
    var e := if minus then Minus(x) else Not(x);
    d := Run(Expression(e), env, was, p, Ended(raised, Value(Turned(ValueOf(p[0])))), now);
    ChainParts(p, was, now, raised);
    Node(d, raised);
  }

  lemma CallNode(callee: Expr, args: seq<Expr>, env: Env?, was: Val, now: Val, p: seq<Run>, raised: bool)
    returns (d: Run)
    requires Chain(p, was, now, raised) && 1 <= |p| <= 2 && In(p[0], Expression(callee), env)
    requires |p| == 2 ==>
      if Callable(ValueOf(p[0])) then In(p[1], Applied(ValueOf(p[0]), args), env) else p[1].what == Fault
    requires !raised ==> |p| == 2 && Callable(ValueOf(p[0])) && p[1].end.Value?
    ensures Tells(d, Expression(Call(callee, args)), env, was, now, raised)
    ensures !raised ==> d.end == p[1].end
  {
    hide Chain, AllDerive, Follow, Cut, Fine, Tells, Callable;
    var end := if raised then Raised else p[1].end;
    d := Run(Expression(Call(callee, args)), env, was, p, end, now);
    ChainParts(p, was, now, raised);
    Node(d, raised);
  }

  lemma MemberNode(of: Expr, name: string, env: Env?, was: Val, now: Val, p: seq<Run>, raised: bool, v: Val)
    returns (d: Run)
    requires Chain(p, was, now, raised) && 1 <= |p| <= 2 && In(p[0], Expression(of), env)
    requires |p| == 2 ==> p[1].what == Fault && ValueOf(p[0]) != Str && ValueOf(p[0]) != Arr
    requires !raised ==>
      && |p| == 1
      && if ValueOf(p[0]) == Str || ValueOf(p[0]) == Arr then v == Method
         else ValueOf(p[0]) == Assoc || ValueOf(p[0]) == Module
    ensures Tells(d, Expression(Member(of, name)), env, was, now, raised) && (!raised ==> d.end == Value(v))
  {
    hide Chain, AllDerive, Follow, Cut, Fine, Tells;
    d := Run(Expression(Member(of, name)), env, was, p, Ended(raised, Value(v)), now);
    ChainParts(p, was, now, raised);
    Node(d, raised);
  }

  lemma CallableIs(v: Val)
    ensures Callable(v) <==> v.Closure? || v.Method?
  {
  }

  lemma InIs(d: Run, what: What, env: Env?)
    requires In(d, what, env)
    ensures d.what == what && d.env == env
  {
  }

  lemma ValueIs(d: Run, v: Val)
    requires d.end == Value(v)
    ensures ValueOf(d) == v
  {
  }

  lemma ResultIs(end: End, res: Completion)
    requires end == Done(res)
    ensures Result(end) == if res.Returned? then res.value else Null
  {
  }

  lemma ArgsKept(p: seq<Run>, x: Run, es: seq<Expr>, env: Env?)
    requires |p| == |es| && Args(p, es, env)
    ensures Args(p + [x], es, env)
  {
    assert forall i :: 0 <= i < |p| ==> (p + [x])[i] == p[i];
  }

  lemma ValuesSize(p: seq<Run>)
    ensures |Values(p)| == |p|
    ensures p != [] ==> Values(p)[0] == ValueOf(p[0])
  {
  }

  lemma OneValue(x: Run)
    ensures Values([x]) == [ValueOf(x)]
  {
  }

  lemma FirstArg(x: Run, e: Expr, rest: seq<Expr>, env: Env?)
    requires In(x, Expression(e), env)
    ensures Args([x], [e] + rest, env) && Tried([x], [e] + rest, env)
  {
  }

  lemma FirstOfTwo(x: Run, l: Expr, r: Expr, env: Env?)
    requires In(x, Expression(l), env)
    ensures Args([x], [l, r], env) && Tried([x], [l, r], env)
  {
  }

  lemma TwoArgs(x: Run, y: Run, l: Expr, r: Expr, env: Env?)
    requires In(x, Expression(l), env) && In(y, Expression(r), env)
    ensures Args([x] + [y], [l, r], env) && Tried([x] + [y], [l, r], env)
    ensures Values([x] + [y]) == [ValueOf(x), ValueOf(y)]
  {
  }

  /** What fits fewer expressions fits more. */
  lemma TriedLonger(p: seq<Run>, es: seq<Expr>, fs: seq<Expr>, env: Env?)
    requires Tried(p, es, env)
    ensures Tried(p, es + fs, env)
  {
  }

  ghost predicate AllInts(p: seq<Run>) {
    forall i :: 0 <= i < |p| ==> ValueOf(p[i]).Int?
  }

  lemma SliceFits(x: Run, q: seq<Run>, e: Expr, a: Val)
    requires e.Slice? && AllInts(q) && a == ValueOf(x) && (a == Arr || a == Str) && 1 + |q| == |Operands(e)|
    ensures |Values([x] + q)| == |Operands(e)| && Fits(e, Values([x] + q), a)
  {
    hide Operands, Values, ValueOf;
    var vs := Values([x] + q);
    SliceValues(x, q);
  }

  lemma SliceValues(x: Run, q: seq<Run>)
    requires AllInts(q)
    ensures var vs := Values([x] + q);
      |vs| == 1 + |q| && vs[0] == ValueOf(x) && forall i :: 0 < i < |vs| ==> vs[i].Int?
  {
    assert forall i :: 0 <= i < |q| ==> ([x] + q)[i + 1] == q[i];
  }

  lemma FittingSize(args: seq<Expr>, params: nat)
    ensures |Fitting(args, params)| == if |args| <= params then |args| else params
    ensures forall i :: 0 <= i < |args| && i < params ==> Fitting(args, params)[i] == args[i]
  {
  }

  // ---------------------------------------------------------------- calls

  lemma CrowbarNode(params: nat, body: seq<Stmt>, args: seq<Expr>, env: Env?, was: Val, now: Val, p: seq<Run>,
                    raised: bool)
    returns (d: Run)
    requires var es := Fitting(args, params);
      && Chain(p, was, now, raised) && |p| <= |es| + 1 && Args(p, es, env)
      && (|p| == |es| + 1 ==>
            if |args| == params then p[|es|].what == List(body) && p[|es|].env != null && p[|es|].env != env
            else p[|es|].what == Fault)
      && (!raised ==> |p| == |es| + 1 && |args| == params)
    ensures Tells(d, Applied(Closure(Crowbar(params, body)), args), env, was, now, raised)
    ensures !raised ==> p != [] && d.end == Value(Result(p[|p| - 1].end))
  {
    hide Chain, AllDerive, Follow, Cut, Fine, Tells, Args, Fitting, Result;
    var end := if raised then Raised else Value(Result(p[|p| - 1].end));
    d := Run(Applied(Closure(Crowbar(params, body)), args), env, was, p, end, now);
    ChainParts(p, was, now, raised);
    Node(d, raised);
  }

  /** Of a function in C, or of a built-in method, which takes any number of arguments. */
  lemma NativeNode(func: Val, args: seq<Expr>, env: Env?, was: Val, now: Val, p: seq<Run>, raised: bool)
    returns (d: Run)
    requires func == Method || (func.Closure? && func.fun.NativeFun?)
    requires var n, expected := |args|, if func == Method then -1 else func.fun.expected;
      && Chain(p, was, now, raised) && |p| <= n + 1 && Args(p, args, env)
      && (|p| == n + 1 ==> p[n].what == if expected >= 0 && n != expected then Fault else InC)
      && (!raised ==> |p| == n + 1 && (expected < 0 || n == expected) && p[n].end.Value?)
    ensures Tells(d, Applied(func, args), env, was, now, raised)
    ensures !raised ==> |p| == |args| + 1 && d.end == p[|args|].end
  {
    hide Chain, AllDerive, Follow, Cut, Fine, Tells, Args;
    var end := if raised then Raised else p[|args|].end;
    d := Run(Applied(func, args), env, was, p, end, now);
    ChainParts(p, was, now, raised);
    Node(d, raised);
  }

  lemma MethodFault(args: seq<Expr>, env: Env?, was: Val, now: Val, f: Run) returns (d: Run)
    requires Chain([f], was, now, true) && f.what == Fault
    ensures Tells(d, Applied(Method, args), env, was, now, true)
  {
    hide Chain, AllDerive, Follow, Cut, Fine, Tells, NativeRule;
    d := Run(Applied(Method, args), env, was, [f], Raised, now);
    ChainParts([f], was, now, true);
    Node(d, true);
  }

  lemma CalledBackNode(func: Val, count: nat, env: Env?, was: Val, now: Val, x: Run, raised: bool) returns (d: Run)
    requires Chain([x], was, now, raised)
    requires func.Closure? && func.fun.Crowbar? ==>
      && (if count == func.fun.params then x.what == List(func.fun.body) && x.env != null else x.what == Fault)
      && (!raised ==> count == func.fun.params)
    requires func.Closure? && func.fun.NativeFun? ==>
      && (x.what == if func.fun.expected >= 0 && count != func.fun.expected then Fault else InC)
      && (!raised ==> (func.fun.expected < 0 || count == func.fun.expected) && x.end.Value?)
    requires func.Method? ==> (x.what == Fault || x.what == InC) && (!raised ==> x.end.Value?)
    requires Callable(func)
    ensures Tells(d, CalledBack(func, count), env, was, now, raised)
    ensures !raised ==> d.end == if func.Closure? && func.fun.Crowbar? then Value(Result(x.end)) else x.end
  {
    hide Chain, AllDerive, Follow, Cut, Fine, Tells, Result;
    var end := if raised then Raised else if func.Closure? && func.fun.Crowbar? then Value(Result(x.end)) else x.end;
    d := Run(CalledBack(func, count), env, was, [x], end, now);
    ChainParts([x], was, now, raised);
    Node(d, raised);
  }

  lemma MemberCalledNode(env: Env?, was: Val, now: Val, x: Run, raised: bool) returns (d: Run)
    requires Chain([x], was, now, raised) && (x.what == Fault || (x.what.CalledBack? && x.what.count == 0))
    requires !raised ==> x.end.Value?
    ensures Tells(d, MemberCalled, env, was, now, raised) && d.end == x.end
  {
    hide Chain, AllDerive, Follow, Cut, Fine, Tells;
    ChainParts([x], was, now, raised);
    d := Run(MemberCalled, env, was, [x], x.end, now);
    assert [x][0].end == x.end;
    hide Fine, Cut;
    LastRaised(x, was, now, raised);
    Node(d, raised);
  }

  lemma LastRaised(x: Run, was: Val, now: Val, raised: bool)
    requires Chain([x], was, now, raised)
    ensures x.end.Raised? <==> raised
  {
    hide AllDerive, Follow;
    assert [x][0] == x;
  }

  lemma InCNode(env: Env?, was: Val, now: Val, p: seq<Run>, raised: bool, v: Val) returns (d: Run)
    requires Chain(p, was, now, raised)
    requires forall i :: 0 <= i < |p| ==> p[i].what.CalledBack? || p[i].what == Fault
    ensures Tells(d, InC, env, was, now, raised) && (!raised ==> d.end == Value(v))
  {
    hide Chain, AllDerive, Follow, Cut, Fine, Tells;
    d := Run(InC, env, was, p, Ended(raised, Value(v)), now);
    ChainParts(p, was, now, raised);
    Node(d, raised);
  }

  lemma FaultNode(env: Env?, was: Val) returns (d: Run)
    ensures Tells(d, Fault, env, was, Assoc, true)
  {
    d := Run(Fault, env, was, [], Raised, Assoc);
    Node(d, true);
  }

  /** An error on the way to an exception, or the exception that a function has made. */
  lemma FaultMade(env: Env?, was: Val, x: Run) returns (d: Run)
    requires Derives(x) && x.was == was && (x.what == Fault || (x.what.CalledBack? && x.what.count == 1))
    ensures Tells(d, Fault, env, was, if x.end.Raised? then x.now else ValueOf(x), true)
  {
    hide Derives, Tells;
    d := Run(Fault, env, was, [x], Raised, if x.end.Raised? then x.now else ValueOf(x));
    assert AllDerive([x]);
    Node(d, true);
  }

  // ---------------------------------------------------------------- statements

  lemma ListNode(list: seq<Stmt>, env: Env?, was: Val, now: Val, p: seq<Run>, raised: bool, res: Completion)
    returns (d: Run)
    requires Chain(p, was, now, raised) && |p| <= |list|
    requires forall i :: 0 <= i < |p| ==> In(p[i], Statement(list[i]), env)
    requires forall i :: 0 <= i < |p| - 1 ==> p[i].end == Done(Normal)
    requires !raised ==> if p == [] then list == [] && res == Normal
      else p[|p| - 1].end == Done(res) && (|p| == |list| || res != Normal)
    ensures Tells(d, List(list), env, was, now, raised) && (!raised ==> d.end == Done(res))
  {
    hide Chain, AllDerive, Follow, Cut, Fine, Tells;
    d := Run(List(list), env, was, p, Ended(raised, Done(res)), now);
    ChainParts(p, was, now, raised);
    Node(d, raised);
  }

  predicate PlainStmt(s: Stmt) {
    s.ExprStmt? || s.Global? || s.Return?
  }

  function OperandsOf(s: Stmt): seq<Expr>
    requires PlainStmt(s)
  {
    match s
    case ExprStmt(e) => [e]
    case Return(e) => Bound(e)
    case _ => []
  }

  function Completed(s: Stmt, p: seq<Run>): Completion {
    if s.Return? then Returned(if p == [] || !p[0].end.Value? then Null else p[0].end.v) else Normal
  }

  lemma PlainNode(s: Stmt, env: Env?, was: Val, now: Val, p: seq<Run>, raised: bool) returns (d: Run)
    requires PlainStmt(s) && Chain(p, was, now, raised) && InOrder(p, OperandsOf(s), env, s.Global?)
    requires !raised ==> |p| == |OperandsOf(s)| && Args(p, OperandsOf(s), env)
    ensures Tells(d, Statement(s), env, was, now, raised) && (!raised ==> d.end == Done(Completed(s, p)))
  {
    hide Chain, AllDerive, Follow, Cut, Fine, Tells, InOrder, Args;
    d := Run(Statement(s), env, was, p, Ended(raised, Done(Completed(s, p))), now);
    ChainParts(p, was, now, raised);
    Node(d, raised);
  }

  lemma LeafNode(s: Stmt, env: Env?, was: Val) returns (d: Run)
    requires s.Break? || s.Continue?
    ensures Tells(d, Statement(s), env, was, was, false)
    ensures d.end == Done(if s.Break? then Broke(s.blabel) else Continued(s.clabel))
  {
    d := Run(Statement(s), env, was, [], Done(if s.Break? then Broke(s.blabel) else Continued(s.clabel)), was);
    Node(d, false);
  }

  lemma ThrowNode(e: Expr, env: Env?, was: Val, x: Run) returns (d: Run)
    requires Derives(x) && In(x, Expression(e), env) && x.was == was
    ensures Tells(d, Statement(Throw(e)), env, was, if x.end.Raised? then x.now else ValueOf(x), true)
  {
    hide Derives, Tells;
    d := Run(Statement(Throw(e)), env, was, [x], Raised, if x.end.Raised? then x.now else ValueOf(x));
    assert AllDerive([x]);
    Node(d, true);
  }

  /** One stretch of pieces after another. */
  lemma {:induction false} Joined(p: seq<Run>, was: Val, mid: Val, q: seq<Run>, now: Val, raised: bool)
    requires Chain(p, was, mid, false) && Chain(q, mid, now, raised)
    ensures Chain(p + q, was, now, raised)
  {
    hide *;
    ChainParts(p, was, mid, false);
    ChainParts(q, mid, now, raised);
    JoinedDerive(p, q);
    JoinedFollow(p, was, mid, q, now);
    JoinedEnd(p, q);
    Chained(p + q, was, now, raised);
  }

  lemma Chained(p: seq<Run>, was: Val, now: Val, raised: bool)
    requires AllDerive(p) && Follow(p, was, now) && if raised then Cut(p) else Fine(p)
    ensures Chain(p, was, now, raised)
  {
    hide AllDerive, Follow, Cut, Fine;
  }

  lemma JoinedDerive(p: seq<Run>, q: seq<Run>)
    requires AllDerive(p) && AllDerive(q)
    ensures AllDerive(p + q)
  {
    hide Derives;
  }

  lemma JoinedFollow(p: seq<Run>, was: Val, mid: Val, q: seq<Run>, now: Val)
    requires Follow(p, was, mid) && Follow(q, mid, now)
    ensures Follow(p + q, was, now)
  {
    var r := p + q;
    assert forall i :: 0 <= i < |p| ==> r[i] == p[i];
    assert forall i :: 0 <= i < |q| ==> r[|p| + i] == q[i];
  }

  lemma JoinedEnd(p: seq<Run>, q: seq<Run>)
    requires Fine(p)
    ensures Fine(q) ==> Fine(p + q)
    ensures Cut(q) ==> Cut(p + q)
  {
    var r := p + q;
    if Cut(q) {
      assert r[|r| - 1] == q[|q| - 1];
      assert r[..|r| - 1] == p + q[..|q| - 1];
    }
  }

  /** The pieces of evaluating a condition: it is a boolean, or there is an error. */
  ghost predicate Condition(p: seq<Run>, cond: Expr, env: Env?, raised: bool, holds: bool) {
    && 1 <= |p| <= 2 && In(p[0], Expression(cond), env)
    && (if |p| == 2 then raised && p[0].end.Value? && !ValueOf(p[0]).Bool? && p[1].what == Fault && p[1].end.Raised?
        else if raised then p[0].end.Raised? else p[0].end == Value(Bool(holds)))
  }

  lemma ArmRanMore(p: seq<Run>, c: Run, b: Run, arms: seq<(Expr, seq<Stmt>)>, i: nat, env: Env?)
    requires i < |arms| && ArmsDone(p, arms, i, env) && ArmRan([c, b], arms[i], env)
    ensures ArmsDone(p + [c, b], arms, i + 1, env) && BlockRan(p + [c, b])
  {
    hide ArmRan, ArmPassed, BlockRan;
    var q := p + [c, b];
    assert q[|q| - 2..] == [c, b] && q[..|q| - 2] == p;
    RanWith(p, c, b, arms[i], env);
  }

  lemma RanWith(p: seq<Run>, c: Run, b: Run, arm: (Expr, seq<Stmt>), env: Env?)
    requires ArmRan([c, b], arm, env)
    ensures BlockRan(p + [c, b])
  {
    assert (p + [c, b])[|p| + 1] == [c, b][1];
  }

  lemma ArmPassedMore(p: seq<Run>, c: Run, arms: seq<(Expr, seq<Stmt>)>, i: nat, env: Env?)
    requires i < |arms| && ArmsDone(p, arms, i, env) && ArmPassed([c], arms[i], env)
    ensures ArmsDone(p + [c], arms, i + 1, env) && (BlockRan(p + [c]) <==> BlockRan(p))
  {
    hide ArmRan, ArmPassed, BlockRan;
    var q := p + [c];
    assert q[|q| - 1..] == [c] && q[..|q| - 1] == p;
    PassedWith(p, c, arms[i], env);
  }

  lemma PassedWith(p: seq<Run>, c: Run, arm: (Expr, seq<Stmt>), env: Env?)
    requires ArmPassed([c], arm, env)
    ensures BlockRan(p + [c]) <==> BlockRan(p)
  {
    assert [c][0] == c;
    assert forall k :: 0 <= k < |p| ==> (p + [c])[k] == p[k];
  }

  lemma {:induction false} NoArms(arms: seq<(Expr, seq<Stmt>)>, env: Env?)
    ensures ArmsDone([], arms, 0, env) && !BlockRan([])
  {
  }

  lemma NotGuarded(p: seq<Run>, cond: Expr, block: seq<Stmt>, env: Env?, holds: bool)
    requires Condition(p, cond, env, true, holds)
    ensures Guarded(p, cond, block, env, Raised)
  {
  }

  lemma GuardedRan(c: Run, b: Run, cond: Expr, block: seq<Stmt>, env: Env?)
    requires In(c, Expression(cond), env) && c.end == Value(Bool(true)) && In(b, List(block), env)
    ensures Guarded([c, b], cond, block, env, b.end) && (b.end == Done(Normal) ==> ArmRan([c, b], (cond, block), env))
  {
  }

  lemma IfFirst(cond: Expr, thenBlock: seq<Stmt>, elifs: seq<(Expr, seq<Stmt>)>, otherwise: Option<seq<Stmt>>,
                env: Env?, was: Val, now: Val, p: seq<Run>, raised: bool, end: End)
    returns (d: Run)
    requires Chain(p, was, now, raised) && Guarded(p, cond, thenBlock, env, end) && (end.Raised? <==> raised)
    ensures Tells(d, Statement(If(cond, thenBlock, elifs, otherwise)), env, was, now, raised) && d.end == end
  {
    hide Chain, AllDerive, Follow, Cut, Fine, Tells, Guarded, ArmsDone, LastArm, ArmPassed, BlockRan;
    d := Run(Statement(If(cond, thenBlock, elifs, otherwise)), env, was, p, end, now);
    ChainParts(p, was, now, raised);
    Node(d, raised);
  }

  lemma IfOther(cond: Expr, thenBlock: seq<Stmt>, elifs: seq<(Expr, seq<Stmt>)>, otherwise: Option<seq<Stmt>>,
                env: Env?, was: Val, now: Val, c: Run, q: seq<Run>, i: nat, tail: seq<Run>, raised: bool, end: End)
    returns (d: Run)
    requires Chain([c] + q + tail, was, now, raised) && (end.Raised? <==> raised)
    requires In(c, Expression(cond), env) && c.end == Value(Bool(false)) && i <= |elifs|
    requires ArmsDone(q, elifs, i, env) && LastArm(tail, elifs, i, BlockRan(q), otherwise, env, end)
    ensures Tells(d, Statement(If(cond, thenBlock, elifs, otherwise)), env, was, now, raised) && d.end == end
  {
    hide Chain, AllDerive, Follow, Cut, Fine, Tells, Guarded, ArmsDone, LastArm, BlockRan;
    var p, k := [c] + q + tail, 1 + |q|;
    assert p[..1] == [c] && p[1..k] == q && p[k..] == tail && [c][0] == c;
    d := Run(Statement(If(cond, thenBlock, elifs, otherwise)), env, was, p, end, now);
    ChainParts(p, was, now, raised);
    assert ArmsDone(p[1..k], elifs, i, env) && LastArm(p[k..], elifs, i, BlockRan(p[1..k]), otherwise, env, end);
    Node(d, raised);
  }

  // ---------------------------------------------------------------- loops

  lemma {:induction false} NoRounds(c: Cycle, to: Option<string>, body: seq<Stmt>, env: Env?)
    ensures Rounds([], 0, c, body, env) && LeftBehind([], c, to) == Normal
  {
  }

  lemma RoundMore(q: seq<Run>, n: nat, r: seq<Run>, c: Cycle, to: Option<string>, body: seq<Stmt>, env: Env?)
    requires Rounds(q, n, c, body, env) && Round(r, c, body, env)
    ensures Rounds(q + r, n + 1, c, body, env) && LeftBehind(q + r, c, to) == LeftOver(r[TestCount(c)].end.res, to)
  {
    hide Tests, Steps, LeftOver;
    var p := q + r;
    assert p[|p| - |r|..] == r && p[..|p| - |r|] == q;
    assert p[|p| - StepCount(c) - 1] == r[TestCount(c)];
  }

  lemma {:induction false} LoopedBy(q: seq<Run>, n: nat, tail: seq<Run>, c: Cycle, to: Option<string>,
                                    body: seq<Stmt>, env: Env?, end: End)
    requires Rounds(q, n, c, body, env) && LastRound(tail, c, to, body, env, LeftBehind(q, c, to), end)
    ensures Looped(q + tail, c, to, body, env, end)
  {
    hide Rounds, LastRound, LeftBehind;
    var p, k := q + tail, |q|;
    assert p[..k] == q && p[k..] == tail;
  }

  lemma EndedIs(raised: bool, end: End)
    ensures Ended(raised, end).Raised? <==> raised || end.Raised?
    ensures !raised ==> Ended(raised, end) == end
  {
  }

  lemma NotGoing(b: Run)
    ensures b.end.Raised? ==> !GoesOn(b.end)
  {
  }

  lemma TestEnds(t: seq<Run>, c: Cycle, to: Option<string>, body: seq<Stmt>, env: Env?, res: Completion, end: End)
    requires Stopped(t, c, env, res, end)
    ensures LastRound(t, c, to, body, env, res, end)
  {
    hide Stopped;
  }

  /** The body ends the loop. */
  lemma BodyEnds(t: seq<Run>, b: Run, c: Cycle, to: Option<string>, body: seq<Stmt>, env: Env?, left: Completion,
                 raised: bool, res: Completion)
    requires |t| == TestCount(c) && Tests(t, c, env) && In(b, List(body), env) && !GoesOn(b.end)
    requires (b.end.Raised? <==> raised) && (!raised ==> b.end.Done? && res == LeftOver(b.end.res, to))
    ensures LastRound(t + [b], c, to, body, env, left, Ended(raised, Done(res)))
  {
    hide Tests, In, LeftOver, Stopped;
    var p := t + [b];
    assert p[..TestCount(c)] == t && p[TestCount(c)] == b;
  }

  /** What follows the body raises an exception. */
  lemma StepEnds(t: seq<Run>, b: Run, u: Run, c: Cycle, to: Option<string>, body: seq<Stmt>, env: Env?,
                 left: Completion)
    requires |t| == TestCount(c) && Tests(t, c, env) && In(b, List(body), env) && GoesOn(b.end) && u.end.Raised?
    requires if c.Iterated? then u.what == MemberCalled else c.post.Some? && In(u, Expression(c.post.value), env)
    ensures LastRound(t + [b] + [u], c, to, body, env, left, Raised)
  {
    hide Tests, In, LeftOver, Stopped, GoesOn;
    var p := t + [b] + [u];
    assert p[..TestCount(c)] == t && p[TestCount(c)] == b && p[TestCount(c) + 1] == u;
  }

  /** The round is full, and another one follows. */
  lemma RoundEnds(q: seq<Run>, n: nat, t: seq<Run>, b: Run, u: seq<Run>, c: Cycle, to: Option<string>,
                  body: seq<Stmt>, env: Env?)
    requires Rounds(q, n, c, body, env) && |t| == TestCount(c) && Tests(t, c, env) && In(b, List(body), env)
    requires GoesOn(b.end) && |u| == StepCount(c) && Steps(u, c, env)
    ensures Rounds(q + (t + [b] + u), n + 1, c, body, env)
    ensures b.end.Done? && LeftBehind(q + (t + [b] + u), c, to) == LeftOver(b.end.res, to)
  {
    hide Tests, In, LeftOver, Steps, Rounds, LeftBehind;
    var r := t + [b] + u;
    assert r[..TestCount(c)] == t && r[TestCount(c)] == b && r[TestCount(c) + 1..] == u;
    RoundMore(q, n, r, c, to, body, env);
  }

  lemma Unlooped(to: Option<string>)
    ensures LeavesLoop(Normal, to)
  {
  }

  function CycleOf(s: Stmt): Cycle {
    match s
    case While(_, cond, _) => Tested(Some(cond), None)
    case For(_, _, cond, post, _) => Tested(cond, post)
    case _ => Iterated
  }

  function LabelOf(s: Stmt): Option<string> {
    match s
    case While(to, _, _) => to
    case For(to, _, _, _, _) => to
    case Foreach(to, _, _) => to
    case _ => None
  }

  function BodyOf(s: Stmt): seq<Stmt> {
    match s
    case While(_, _, body) => body
    case For(_, _, _, _, body) => body
    case Foreach(_, _, body) => body
    case _ => []
  }

  /** The pieces before the rounds. */
  ghost predicate Prepared(s: Stmt, pre: seq<Run>, env: Env?) {
    match s
    case While(_, _, _) => pre == []
    case For(_, init, _, _, _) =>
      if init.None? then pre == []
      else |pre| == 1 && In(pre[0], Expression(init.value), env) && pre[0].end.Value?
    case Foreach(_, collection, _) =>
      && |pre| == 2 && In(pre[0], Expression(collection), env) && !pre[0].end.Raised?
      && pre[1].what == MemberCalled && !pre[1].end.Raised?
    case _ => false
  }

  lemma Unprepared(pre: seq<Run>, loop: seq<Run>)
    ensures (pre + loop)[|pre|..] == loop && |pre + loop| == |pre| + |loop|
    ensures forall i :: 0 <= i < |pre| ==> (pre + loop)[i] == pre[i]
    ensures pre == [] ==> pre + loop == loop
  {
  }

  lemma LoopNode(s: Stmt, env: Env?, was: Val, now: Val, pre: seq<Run>, loop: seq<Run>, raised: bool, end: End)
    returns (d: Run)
    requires Prepared(s, pre, env) && Chain(pre + loop, was, now, raised) && (end.Raised? <==> raised)
    requires Looped(loop, CycleOf(s), LabelOf(s), BodyOf(s), env, end)
    ensures Tells(d, Statement(s), env, was, now, raised) && d.end == end
  {
    hide *;
    Unprepared(pre, loop);
    d := Run(Statement(s), env, was, pre + loop, end, now);
    ChainParts(pre + loop, was, now, raised);
    LoopRule(d, s, pre, loop);
    Node(d, raised);
  }

  lemma LoopRule(r: Run, s: Stmt, pre: seq<Run>, loop: seq<Run>)
    requires r.what == Statement(s) && r.parts == pre + loop && Prepared(s, pre, r.env) && Follow(r.parts, r.was, r.now)
    requires Looped(loop, CycleOf(s), LabelOf(s), BodyOf(s), r.env, r.end)
    ensures Rule(r)
  {
    hide Follow, Looped;
    Unprepared(pre, loop);
    match s
    case While(to, cond, body) => assert ForRule(r, to, None, CycleOf(s), body);
    case For(to, init, cond, post, body) => assert ForRule(r, to, init, CycleOf(s), body);
    case Foreach(to, collection, body) => assert ForeachRule(r, to, collection, body);
    case _ =>
  }

  /** Something goes wrong before the rounds. */
  lemma LoopFails(s: Stmt, env: Env?, was: Val, now: Val, p: seq<Run>) returns (d: Run)
    requires Chain(p, was, now, true) && p != []
    requires s.For? && s.init.Some? ==> |p| == 1 && In(p[0], Expression(s.init.value), env)
    requires s.Foreach? ==>
      && |p| <= 3 && In(p[0], Expression(s.collection), env) && (|p| >= 2 ==> p[1].what == MemberCalled)
      && (|p| == 3 ==> p[2].what == Fault)
    requires (s.For? && s.init.Some?) || s.Foreach?
    ensures Tells(d, Statement(s), env, was, now, true)
  {
    hide Chain, AllDerive, Follow, Tells, Looped;
    d := Run(Statement(s), env, was, p, Raised, now);
    ChainParts(p, was, now, true);
    assert forall i :: 0 <= i < |p| - 1 ==> p[..|p| - 1][i] == p[i];
    Node(d, true);
  }

  // ---------------------------------------------------------------- try

  /** The block, and what is run if it throws. */
  ghost predicate Attempted(p: seq<Run>, tryBlock: seq<Stmt>, catchBlock: Option<seq<Stmt>>, env: Env?, was: Val) {
    && AllDerive(p) && 1 <= |p| && In(p[0], List(tryBlock), env) && p[0].was == was
    && if p[0].end.Raised? && catchBlock.Some? then
         && |p| == 2 && p[1].was == Null && (p[1].what == Fault || In(p[1], List(catchBlock.value), env))
         && (p[1].what == Fault ==> p[1].end.Raised?)
       else |p| == 1
  }

  lemma {:induction false} Single(x: Run)
    requires Derives(x)
    ensures AllDerive([x])
  {
    hide Derives;
  }

  lemma NoneDerive()
    ensures AllDerive([])
  {
  }

  lemma {:induction false} AttemptedOnce(x: Run, tryBlock: seq<Stmt>, catchBlock: Option<seq<Stmt>>, env: Env?,
      was: Val)
    requires Derives(x) && In(x, List(tryBlock), env) && x.was == was && (x.end.Raised? ==> catchBlock.None?)
    ensures Attempted([x], tryBlock, catchBlock, env, was)
  {
    hide Derives;
  }

  lemma {:induction false} AttemptedBoth(x: Run, y: Run, tryBlock: seq<Stmt>, block: seq<Stmt>, env: Env?, was: Val)
    requires Derives(x) && In(x, List(tryBlock), env) && x.was == was && x.end.Raised?
    requires Derives(y) && y.was == Null && ((y.what == Fault && y.end.Raised?) || In(y, List(block), env))
    ensures Attempted([x, y], tryBlock, Some(block), env, was)
  {
    hide Derives;
  }

  /** The catch block has thrown: nothing else is run. */
  lemma TryCaught(tryBlock: seq<Stmt>, catchBlock: Option<seq<Stmt>>, finallyBlock: Option<seq<Stmt>>, env: Env?,
                  was: Val, p: seq<Run>)
    returns (d: Run)
    requires Attempted(p, tryBlock, catchBlock, env, was) && |p| == 2 && p[1].end.Raised?
    ensures Tells(d, Statement(Try(tryBlock, catchBlock, finallyBlock)), env, was, p[1].now, true)
  {
    hide AllDerive, Tells, Finish;
    d := Run(Statement(Try(tryBlock, catchBlock, finallyBlock)), env, was, p, Raised, p[1].now);
    Node(d, true);
  }

  /** Otherwise the last block is run, and then it is decided how the whole ends. */
  lemma TryEnded(tryBlock: seq<Stmt>, catchBlock: Option<seq<Stmt>>, finallyBlock: Option<seq<Stmt>>, env: Env?,
                 was: Val, p: seq<Run>, f: seq<Run>, raised: bool, res: Completion)
    returns (d: Run)
    requires Attempted(p, tryBlock, catchBlock, env, was) && (|p| == 2 ==> !p[1].end.Raised?) && AllDerive(f)
    requires if finallyBlock.None? then f == []
             else |f| == 1 && In(f[0], List(finallyBlock.value), env) && f[0].was == p[|p| - 1].now
    requires var now := if f == [] then p[|p| - 1].now else f[0].now;
      raised <==> (f != [] && f[0].end.Raised?) || (catchBlock.None? && now != Null)
    requires p[|p| - 1].end.Done? && !raised ==> p[|p| - 1].end == Done(res)
    ensures Tells(d, Statement(Try(tryBlock, catchBlock, finallyBlock)), env, was,
                  if f == [] then p[|p| - 1].now else f[0].now, raised)
    ensures !raised ==> d.end == Done(res)
  {
    hide Tells, Derives;
    var now, all := if f == [] then p[|p| - 1].now else f[0].now, p + f;
    d := Run(Statement(Try(tryBlock, catchBlock, finallyBlock)), env, was, all, Ended(raised, Done(res)), now);
    assert f == [] ==> all == p;
    assert forall i :: 0 <= i < |p| ==> all[i] == p[i];
    assert f != [] ==> all[|p|] == f[0];
    JoinedDerive(p, f);
    hide AllDerive;
    assert Finish(d, |p|, p[|p| - 1].end, catchBlock, finallyBlock);
    hide Finish;
    Node(d, raised);
  }
}
