/** What runs of particular statements and expressions show. */
module RunLaws {
  import opened Syntax
  import opened BigStep
  import opened Denotation
  import opened Adequacy
  import opened ProgramLaws

  lemma {:induction false} LiteralRun(d: Run, v: Val)
    requires Derives(d) && d.what == Expression(Literal(v))
    ensures d.end == Value(v) && d.now == d.was
  {
  }

  lemma {:induction false} PartDerives(d: Run, i: nat)
    requires Derives(d) && i < |d.parts|
    ensures Derives(d.parts[i])
  {
  }

  lemma {:induction false} StatementHolds(d: Run, s: Stmt)
    requires Derives(d) && d.what == Statement(s)
    ensures StatementRule(d, s)
  {
    hide ExpressionRule, AppliedRule, CalledBackRule, MemberCalledRule, InCRule, FaultRule, ListRule, StatementRule;
  }

  lemma {:induction false} ListHolds(d: Run, list: seq<Stmt>)
    requires Derives(d) && d.what == List(list)
    ensures ListRule(d, list)
  {
    hide ExpressionRule, AppliedRule, CalledBackRule, MemberCalledRule, InCRule, FaultRule, ListRule, StatementRule;
  }

  lemma {:induction false} CallHolds(d: Run, callee: Expr, args: seq<Expr>)
    requires Derives(d) && d.what == Expression(Call(callee, args))
    ensures CallRule(d, callee, args)
  {
    hide AppliedRule, CalledBackRule, MemberCalledRule, InCRule, FaultRule, ListRule, StatementRule, CallRule;
  }

  lemma {:induction false} CalledBackHolds(d: Run, func: Val, count: nat)
    requires Derives(d) && d.what == CalledBack(func, count)
    ensures CalledBackRule(d, func, count)
  {
    hide ExpressionRule, AppliedRule, MemberCalledRule, InCRule, FaultRule, ListRule, StatementRule, CalledBackRule;
  }

  lemma {:induction false} InTurnHolds(d: Run, e: Expr)
    requires Derives(d) && d.what == Expression(e) && InTurn(e)
    ensures InTurnRule(d, e)
  {
    hide AppliedRule, CalledBackRule, MemberCalledRule, InCRule, FaultRule, ListRule, StatementRule, InTurnRule;
  }

  lemma {:induction false} CrowbarHolds(d: Run, params: nat, body: seq<Stmt>, args: seq<Expr>)
    requires Derives(d) && d.what == Applied(Closure(Crowbar(params, body)), args)
    ensures CrowbarRule(d, params, body, args)
  {
    hide ExpressionRule, CalledBackRule, MemberCalledRule, InCRule, FaultRule, ListRule, StatementRule, CrowbarRule;
  }

  /** The one piece of a list of one statement. */
  lemma {:induction false} OnlyStatement(d: Run, s: Stmt)
    requires Derives(d) && d.what == List([s])
    ensures |d.parts| == 1 && Derives(d.parts[0]) && d.parts[0].what == Statement(s) && d.parts[0].was == d.was
    ensures d.end == d.parts[0].end && d.now == d.parts[0].now
  {
    hide Derives;
    ListHolds(d, [s]);
    PartDerives(d, 0);
  }

  // ---------------------------------------------------------------- returning

  lemma {:induction false} ReturnRun(d: Run, v: Val)
    requires Derives(d) && d.what == Statement(Return(Some(Literal(v))))
    ensures d.end == Done(Returned(v))
  {
    hide Derives, IfRule, ForRule, ForeachRule, TryRule, ThrowRule;
    StatementHolds(d, Return(Some(Literal(v))));
    var p := d.parts;
    assert PlainRule(d, [Literal(v)], Returned(if p == [] then Null else ValueOf(p[0])), false);
    if p != [] {
      FirstIn(p, Literal(v), d.env);
      PartDerives(d, 0);
      LiteralRun(p[0], v);
    }
  }

  lemma {:induction false} ReturningRun(d: Run, v: Val)
    requires Derives(d) && d.what == List([Return(Some(Literal(v)))])
    ensures d.end == Done(Returned(v))
  {
    hide Derives;
    OnlyStatement(d, Return(Some(Literal(v))));
    ReturnRun(d.parts[0], v);
  }

  /** A function without parameters that just returns `v`. */
  function Returning(v: Val): Val {
    Closure(Crowbar(0, [Return(Some(Literal(v)))]))
  }

  lemma {:induction false} ReturningApplied(d: Run, v: Val)
    requires Derives(d) && d.what == Applied(Returning(v), [])
    ensures d.end == Value(v)
  {
    hide Derives;
    CrowbarHolds(d, 0, [Return(Some(Literal(v)))], []);
    if d.parts != [] {
      PartDerives(d, 0);
      ReturningRun(d.parts[0], v);
    }
  }

  /** A call of it gives `v`, whatever the program around it is. */
  lemma {:induction false} ReturningCalled(d: Run, v: Val)
    requires Derives(d) && d.what == Expression(Call(Literal(Returning(v)), []))
    ensures d.end == Value(v)
  {
    hide Derives, Returning, Callable, Args;
    CallHolds(d, Literal(Returning(v)), []);
    var p := d.parts;
    PartDerives(d, 0);
    LiteralRun(p[0], Returning(v));
    ReturningCallable(v);
    if |p| == 2 {
      PartDerives(d, 1);
      ReturningApplied(p[1], v);
    }
  }

  lemma ReturningCallable(v: Val)
    ensures Callable(Returning(v))
  {
  }

  /** So does a call of it from C. */
  lemma {:induction false} ReturningCalledBack(d: Run, v: Val)
    requires Derives(d) && d.what == CalledBack(Returning(v), 0) && !d.end.Raised?
    ensures d.end == Value(v)
  {
    hide Derives, ListRule;
    CalledBackHolds(d, Returning(v), 0);
    PartDerives(d, 0);
    ReturningRun(d.parts[0], v);
  }

  /** An assignment gives the value assigned. */
  lemma {:induction false} AssignGives(d: Run, normal: bool, target: Expr, v: Val)
    requires Derives(d) && d.what == Expression(Assign(normal, target, Literal(v))) && !d.end.Raised?
    ensures d.end == Value(v)
  {
    hide Derives, PlaceOf;
    var e := Assign(normal, target, Literal(v));
    InTurnHolds(d, e);
    PartDerives(d, 0);
    LiteralRun(d.parts[0], v);
  }

  // ---------------------------------------------------------------- throwing

  lemma {:induction false} ThrowRun(d: Run, v: Val)
    requires Derives(d) && d.what == Statement(Throw(Literal(v)))
    ensures d.end.Raised? && d.now == v
  {
    hide Derives, IfRule, ForRule, ForeachRule, TryRule, PlainRule;
    StatementHolds(d, Throw(Literal(v)));
    PartDerives(d, 0);
    LiteralRun(d.parts[0], v);
  }

  lemma {:induction false} ThrowingRun(d: Run, v: Val)
    requires Derives(d) && d.what == List([Throw(Literal(v))])
    ensures d.end.Raised? && d.now == v
  {
    hide Derives;
    OnlyStatement(d, Throw(Literal(v)));
    ThrowRun(d.parts[0], v);
  }

  /** A `try` that ends, and does not throw, began with its block and ended with the one after `finally`. */
  lemma FinallyLast(d: Run, t: seq<Stmt>, k: Option<seq<Stmt>>, f: seq<Stmt>)
    requires Derives(d) && d.what == Statement(Try(t, k, Some(f)))
    ensures |d.parts| >= 1 && In(d.parts[0], List(t), d.env)
    ensures !d.end.Raised? ==>
      var last := d.parts[|d.parts| - 1];
      |d.parts| >= 2 && In(last, List(f), d.env) && !last.end.Raised? && last.now == d.now
  {
    hide Derives;
    StatementHolds(d, Try(t, k, Some(f)));
  }

  /** It throws exactly if the catch block or the one after `finally` throws, or if there is no catch block and an
      exception is current at the end. */
  lemma TryThrows(d: Run, t: seq<Stmt>, k: Option<seq<Stmt>>, f: Option<seq<Stmt>>)
    requires Derives(d) && d.what == Statement(Try(t, k, f))
    ensures d.parts != []
    ensures var last := d.parts[|d.parts| - 1];
      d.end.Raised? <==> (|d.parts| >= 2 && last.end.Raised?) || (k.None? && d.now != Null)
  {
    hide Derives;
    StatementHolds(d, Try(t, k, f));
  }

  /** A block after `finally` that throws is not lost. */
  lemma {:induction false} FinallyThrows(d: Run, t: seq<Stmt>, k: Option<seq<Stmt>>, v: Val)
    requires Derives(d) && d.what == Statement(Try(t, k, Some([Throw(Literal(v))])))
    ensures d.end.Raised?
  {
    hide Derives;
    FinallyLast(d, t, k, [Throw(Literal(v))]);
    if !d.end.Raised? {
      var last := |d.parts| - 1;
      PartDerives(d, last);
      ThrowingRun(d.parts[last], v);
    }
  }

  /** An exception is lost if the block after `finally` catches another one. */
  lemma {:induction false} ExceptionLost(d: Run, v: Val, w: Val)
    requires Derives(d) && Caught(d)
    requires d.what == Statement(Try([Throw(Literal(v))], None, Some([Try([Throw(Literal(w))], Some([]), None)])))
    ensures d.end.Done? && d.now == Null
  {
    hide Derives, Caught, Agrees, OfList, IfRule, ForRule, ForeachRule, ThrowRule, PlainRule;
    var inner := Try([Throw(Literal(w))], Some([]), None);
    StatementHolds(d, Try([Throw(Literal(v))], None, Some([inner])));
    var p := d.parts;
    PartDerives(d, 1);
    PartCaught(d, 1);
    Adequate(p[1]);
    ListSays(3, p[1], [inner], d.env);
    Inner(w, p[1].was);
  }

  lemma {:induction false} PartCaught(d: Run, i: nat)
    requires Caught(d) && i < |d.parts|
    ensures Caught(d.parts[i])
  {
  }

  lemma {:induction false} Inner(w: Val, current: Val)
    ensures OfList(3, [Try([Throw(Literal(w))], Some([]), None)], 0, current) == Completes(Normal, Null)
  {
    hide OfList, OfStmt;
    AloneInList(3, Try([Throw(Literal(w))], Some([]), None), current);
    CatchMeans(2, [Throw(Literal(w))], [], current);
    AloneInList(2, Throw(Literal(w)), current);
    ThrowMeans(1, w, current);
    NoStatement(2, Null);
  }

  lemma ThrowMeans(n: nat, w: Val, current: Val)
    requires n > 0
    ensures OfStmt(n + 1, Throw(Literal(w)), current) == Throws(w)
  {
  }

  lemma {:induction false} NoStatement(n: nat, current: Val)
    ensures OfList(n, [], 0, current) == Completes(Normal, current)
  {
  }

  // ---------------------------------------------------------------- iterating

  /** No full round of a loop has a body that throws. */
  lemma {:induction false} NoFullRound(p: seq<Run>, n: nat, c: Cycle, v: Val, env: Env?)
    requires Rounds(p, n, c, [Throw(Literal(v))], env) && AllDerive(p)
    ensures n == 0 && p == []
  {
    hide Derives, Tests, Steps;
    if n > 0 {
      var k := |p| - (TestCount(c) + 1 + StepCount(c)) + TestCount(c);
      assert Derives(p[k]);
      ThrowingRun(p[k], v);
    }
  }

  /** A `foreach` runs its body for every item: if the body throws, it ends only if there is no item. */
  lemma {:induction false} ForeachThrows(d: Run, to: Option<string>, collection: Expr, v: Val)
    requires Derives(d) && d.what == Statement(Foreach(to, collection, [Throw(Literal(v))])) && d.end.Done?
    ensures |d.parts| == 3 && d.end == Done(Normal)
    ensures d.parts[2].what == MemberCalled && d.parts[2].end == Value(Bool(true))
  {
    hide Derives, Rounds, IfRule, ForRule, TryRule, ThrowRule, PlainRule;
    var body := [Throw(Literal(v))];
    StatementHolds(d, Foreach(to, collection, body));
    var p := d.parts[2..];
    assert Looped(p, Iterated, to, body, d.env, d.end);
    var k, n: nat :| 0 <= k <= |p| && Rounds(p[..k], n, Iterated, body, d.env)
                     && LastRound(p[k..], Iterated, to, body, d.env, LeftBehind(p[..k], Iterated, to), d.end);
    forall i | 0 <= i < |p|
      ensures Derives(p[i])
    {
      PartDerives(d, i + 2);
    }
    NoFullRound(p[..k], n, Iterated, v, d.env);
    assert p[k..] == p;
    if |p| >= 3 && p[2].what == List(body) { ThrowingRun(p[2], v); }
  }

  // ---------------------------------------------------------------- for the interpreter

  lemma CallShown(d: Run, callee: Expr, args: seq<Expr>, env: Env?, was: Val, now: Val, raised: bool)
    requires Tells(d, Expression(Call(callee, args)), env, was, now, raised)
    ensures forall v :: callee == Literal(Returning(v)) && args == [] ==> d.end == Value(v)
  {
    hide Derives, Returning;
    forall v | callee == Literal(Returning(v)) && args == []
      ensures d.end == Value(v)
    {
      ReturningCalled(d, v);
    }
  }

  lemma CallbackShown(d: Run, func: Val, count: nat, env: Env?, was: Val, now: Val, raised: bool)
    requires Tells(d, CalledBack(func, count), env, was, now, raised)
    ensures forall v :: func == Returning(v) && count == 0 && !raised ==> d.end == Value(v)
  {
    hide Derives, Returning;
    forall v | func == Returning(v) && count == 0 && !raised
      ensures d.end == Value(v)
    {
      ReturningCalledBack(d, v);
    }
  }

  lemma TryShown(d: Run, t: seq<Stmt>, k: Option<seq<Stmt>>, f: Option<seq<Stmt>>, env: Env?, was: Val, now: Val,
                 raised: bool)
    requires Tells(d, Statement(Try(t, k, f)), env, was, now, raised)
    ensures f.Some? && !raised ==>
      |d.parts| >= 2 && In(d.parts[0], List(t), env) && In(d.parts[|d.parts| - 1], List(f.value), env)
    ensures forall v :: f == Some([Throw(Literal(v))]) ==> raised
  {
    hide Derives;
    if f.Some? {
      FinallyLast(d, t, k, f.value);
      forall v | f == Some([Throw(Literal(v))])
        ensures raised
      {
        FinallyThrows(d, t, k, v);
      }
    }
  }
}
