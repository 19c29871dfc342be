/** The evaluator's value stack and environment chain under calls, jumps and recovery. */
module Interpreter {
  import opened Syntax
  import opened BigStep
  import opened RunNodes
  import opened RunLaws

  const STACK_ALLOC_SIZE := 256

  /** `top` is the last of `chain`, and each leads to the one before it. */
  ghost predicate ChainOf(top: Env?, chain: seq<Env>) {
    && top == (if chain == [] then null else chain[|chain| - 1])
    && forall i {:trigger chain[i].next} :: 0 <= i < |chain| ==>
         chain[i].next == (if i == 0 then null else chain[i - 1])
  }

  lemma ChainPush(top: Env?, chain: seq<Env>, env: Env)
    requires ChainOf(top, chain) && env.next == top
    ensures ChainOf(env, chain + [env])
  {
  }

  lemma ChainPop(top: Env?, chain: seq<Env>, env: Env)
    requires ChainOf(top, chain + [env])
    ensures top == env && ChainOf(env.next, chain)
  {
    var t := chain + [env];
    assert t[|chain|] == env && t[|chain|].next == env.next;
    forall i {:trigger chain[i].next} | 0 <= i < |chain|
      ensures chain[i].next == (if i == 0 then null else chain[i - 1])
    {
      assert t[i].next == chain[i].next;
    }
  }

  /** The stack `s` of `sp` values as it is after a piece of a run that began with `was`, the environments
      `chain` and the recovery point `rec`: a return leaves `k` values more; a jump goes to `rec`, and everything
      that was there still is. */
  ghost predicate Kept(s: seq<Val>, frames: seq<Env>, recovery: nat,
      was: seq<Val>, chain: seq<Env>, rec: nat, out: Outcome, k: nat) {
    match out
    case Ok => |s| == |was| + k && was <= s && frames == chain && recovery == rec
    case Threw(target) => target == rec && was <= s && frames == chain
    case Halted => true
  }

  class Interp {
    var cells: seq<Val>      // as many as are allocated
    var sp: nat
    var top: Env?
    var recovery: nat        // names the `setjmp` that `current_recovery_environment` returns to
    var lastPoint: nat
    var exception: Val
    ghost var frames: seq<Env>
    ghost var freed: set<Env>

    ghost predicate Valid()
      reads this
    {
      && sp <= |cells| && recovery <= lastPoint && ChainOf(top, frames)
      && forall e :: e in frames ==> e !in freed
    }

    /** The values on the stack. */
    ghost function Live(): (s: seq<Val>)
      requires Valid()
      reads this
      ensures |s| == sp
    {
      cells[..sp]
    }

    ghost predicate After(was: seq<Val>, chain: seq<Env>, rec: nat, out: Outcome, k: nat)
      reads this
    {
      Valid() && Kept(Live(), frames, recovery, was, chain, rec, out, k)
    }

    constructor ()
      ensures Valid() && sp == 0 && frames == [] && exception == Null
    {
      cells, sp, top, recovery, lastPoint, exception := [], 0, null, 0, 0, Null;
      frames, freed := [], {};
    }

    // -------------------------------------------------------------- stack operations

    /** `push_value` */
    method Push(v: Val)
      requires Valid()
      modifies this`cells, this`sp
      ensures Valid() && Live() == old(Live()) + [v]
      ensures |cells| == old(|cells|) + if old(sp == |cells|) then STACK_ALLOC_SIZE else 0
    {
      if sp == |cells| {
        cells := cells + seq(STACK_ALLOC_SIZE, _ => Null);
      }
      cells := cells[sp := v];
      sp := sp + 1;
    }

    /** `pop_value` */
    method Pop() returns (v: Val)
      requires Valid() && sp > 0
      modifies this`sp
      ensures Valid() && old(Live()) == Live() + [v] && sp == old(sp) - 1
      ensures v == old(Live())[sp] && Live() == old(Live())[..sp]
    {
      v := cells[sp - 1];
      sp := sp - 1;
    }

    /** `peek_stack` */
    method Peek(index: nat) returns (v: Val)
      requires Valid() && index < sp
      ensures v == Live()[sp - index - 1]
    {
      v := cells[sp - index - 1];
    }

    /** `shrink_stack` */
    method Shrink(count: nat)
      requires Valid() && count <= sp
      modifies this`sp
      ensures Valid() && sp == old(sp) - count && Live() == old(Live())[..sp]
    {
      sp := sp - count;
    }

    /** `crb_set_stack_pointer`, back to a height the stack has had. */
    method SetStackPointer(pointer: nat)
      requires Valid() && pointer <= sp
      modifies this`sp
      ensures Valid() && sp == pointer && Live() == old(Live())[..pointer]
    {
      sp := pointer;
    }

    /** `setjmp`: a recovery point that no other frame has. */
    method NewPoint() returns (point: nat)
      requires Valid()
      modifies this`recovery, this`lastPoint
      ensures Valid() && point == recovery && recovery != old(recovery) && Live() == old(Live())
      ensures recovery > old(lastPoint)
    {
      lastPoint := lastPoint + 1;
      recovery := lastPoint;
      point := recovery;
    }

    /** `alloc_local_environment` */
    method AllocEnvironment() returns (env: Env)
      requires Valid()
      modifies this`top, this`frames
      ensures Valid() && frames == old(frames) + [env] && top == env && Live() == old(Live())
      ensures fresh(env) && env !in old(frames)
    {
      env := new Env(top);
      ChainPush(top, frames, env);
      assert env !in freed;
      top := env;
      frames := frames + [env];
    }

    /** `dispose_local_environment`: the top one, which is freed this once. */
    method DisposeEnvironment(ghost chain: seq<Env>, ghost env: Env)
      requires Valid() && frames == chain + [env] && env !in chain
      modifies this`top, this`frames, this`freed
      ensures Valid() && frames == chain && Live() == old(Live()) && freed == old(freed) + {env}
    {
      ChainPop(top, chain, env);
      var temp := top;
      top := top.next;
      freed := freed + {temp};
      frames := chain;
    }

    /** A piece of a run that began with more on the stack. */
    lemma Then(was: seq<Val>, mid: seq<Val>, chain: seq<Env>, rec: nat, out: Outcome, j: nat)
      requires was <= mid && After(mid, chain, rec, out, j)
      ensures After(was, chain, rec, out, |mid| - |was| + j)
      ensures !out.Ok? ==> forall k :: After(was, chain, rec, out, k)
    {
    }

    /** What `After` says of a return. */
    lemma Returned(was: seq<Val>, chain: seq<Env>, rec: nat, k: nat)
      requires After(was, chain, rec, Ok, k)
      ensures Valid() && sp == |Live()| == |was| + k && was <= Live() && frames == chain && recovery == rec
      ensures k == 0 ==> Live() == was
    {
    }

    /** How a piece of a run that returns shows that it kept its part. */
    lemma Settled(was: seq<Val>, chain: seq<Env>, rec: nat, k: nat)
      requires Valid() && was <= Live() && |Live()| == |was| + k && frames == chain && recovery == rec
      ensures After(was, chain, rec, Ok, k)
    {
    }

    /** And how one that jumps to the recovery point `rec` does. */
    lemma Jumping(was: seq<Val>, chain: seq<Env>, rec: nat)
      requires Valid() && was <= Live() && frames == chain
      ensures forall k :: After(was, chain, rec, Threw(rec), k)
    {
    }

    lemma Halting(was: seq<Val>, chain: seq<Env>, rec: nat)
      requires Valid()
      ensures forall k :: After(was, chain, rec, Halted, k)
    {
    }

    /** What every way to end has in common. */
    lemma Always(was: seq<Val>, chain: seq<Env>, rec: nat, out: Outcome, k: nat)
      requires After(was, chain, rec, out, k)
      ensures Valid() && (out.Threw? ==> out.target == rec)
    {
    }

    // -------------------------------------------------------------- errors

    /** `throw_runtime_exception`: the message waits on the stack while the exception is made. */
    method RuntimeError(env: Env?, fuel: nat) returns (out: Outcome, ghost d: Run)
      requires Valid()
      modifies this
      ensures After(old(Live()), old(frames), old(recovery), out, 0) && lastPoint >= old(lastPoint)
      ensures !out.Ok? && forall k :: After(old(Live()), old(frames), old(recovery), out, k)
      ensures out != Halted ==> Tells(d, Fault, env, old(exception), exception, true)
      decreases fuel
    {
      hide Tells, Derives, Rule;
      d := *;
      if fuel == 0 { return Halted, d; }
      ghost var was, chain, rec, ex := Live(), frames, recovery, exception;
      Push(Str);
      ghost var mid := Live();
      ghost var x;
      var exceptionClass := AnyOption();
      if exceptionClass.None? {
        CreateException(env);
        exception := Assoc;
        d := FaultNode(env, ex);
      } else {
        var create := AnyOption();
        if exceptionClass.value != Assoc || create.None? {
          out, x := RuntimeError(env, fuel - 1);
          Then(was, mid, chain, rec, out, 0);
          if out == Halted { return; }
          Piece(x, Fault, env, ex, exception, true);
          d := FaultMade(env, ex, x);
          return;
        }
        var result;
        out, result, x := CallFunction(env, create.value, 1, fuel - 1);
        Then(was, mid, chain, rec, out, 0);
        if out == Halted { return; }
        Piece(x, CalledBack(create.value, 1), env, ex, exception, out.Threw?);
        d := FaultMade(env, ex, x);
        if out.Threw? { return; }
        exception := result;
      }
      Shrink(1);
      return Threw(recovery), d;
    }

    /** `CRB_create_exception`: what it pushes it takes off. */
    method CreateException(env: Env?)
      requires Valid()
      modifies this`cells, this`sp
      ensures Valid() && Live() == old(Live())
    {
      Push(Assoc);
      Push(Str);
      Push(Arr);
      var lines := AnyNat();
      ghost var mid := Live();
      for i := 0 to lines
        invariant Valid() && Live() == mid
      {
        CreateStackTraceLine();
      }
      Push(Assoc);
      Push(Assoc);
      Shrink(5);
    }

    method CreateStackTraceLine()
      requires Valid()
      modifies this`cells, this`sp
      ensures Valid() && Live() == old(Live())
    {
      Push(Assoc);
      Push(Str);
      Shrink(2);
    }

    // -------------------------------------------------------------- calls

    /** `CRB_call_function` */
    method CallFunction(env: Env?, func: Val, argCount: nat, fuel: nat)
      returns (out: Outcome, result: Val, ghost d: Run)
      requires Valid()
      modifies this
      ensures After(old(Live()), old(frames), old(recovery), out, 0) && lastPoint >= old(lastPoint)
      ensures out != Halted ==> Tells(d, CalledBack(func, argCount), env, old(exception), exception, out.Threw?)
      ensures out.Ok? ==> d.end == Value(result)
      ensures out.Ok? ==> forall v :: func == Returning(v) && argCount == 0 ==> result == v
      decreases fuel
    {
      hide *;
      d := *;
      ghost var was, chain, rec, ex := Live(), frames, recovery, exception;
      Halting(was, chain, rec);
      result := Null;
      if fuel == 0 || (!func.Closure? && !func.Method?) { return Halted, Null, d; }
      var local := AllocEnvironment();
      var pointer, backup := sp, recovery;
      PointBound();
      var point := NewPoint();
      out, result, d := CallFromNative(local, env, func, argCount, fuel - 1);
      Always(was, chain + [local], point, out, 0);
      if out.Ok? { CallbackShown(d, func, argCount, env, ex, exception, false); }
      if out.Threw? {
        assert out.target == point;
        Landed(was, chain + [local], point, 0);
        DisposeEnvironment(chain, local);
        SetStackPointer(pointer);
        Jumping(was, chain, rec);
        return Threw(backup), Null, d;
      }
      Halting(was, chain, rec);
      if out == Halted { return; }
      Returned(was, chain + [local], point, 0);
      Restore(backup);
      DisposeEnvironment(chain, local);
      Settled(was, chain, rec, 0);
    }

    method CallFromNative(local: Env, callerEnv: Env?, func: Val, argCount: nat, fuel: nat)
      returns (out: Outcome, result: Val, ghost d: Run)
      requires func.Closure? || func.Method?
      requires Valid()
      modifies this
      ensures After(old(Live()), old(frames), old(recovery), out, 0) && lastPoint >= old(lastPoint)
      ensures out != Halted ==> Tells(d, CalledBack(func, argCount), callerEnv, old(exception), exception, out.Threw?)
      ensures out.Ok? ==> d.end == Value(result)
      decreases fuel
    {
      hide *;
      d := *;
      result := Null;
      Halting(Live(), frames, recovery);
      if fuel == 0 { return Halted, Null, d; }
      ghost var ex := exception;
      ghost var x;
      if func.Method? {
        out, result, x := CallMethodFromNative(local, argCount, fuel - 1);
      } else if func.fun.Crowbar? {
        out, result, x := CallCrowbarFromNative(local, func.fun, argCount, callerEnv, fuel - 1);
      } else {
        out, result, x := CallNativeFromNative(local, func.fun, argCount, fuel - 1);
      }
      if out != Halted {
        CallableIs(func);
        LastRaised(x, ex, exception, out.Threw?);
        d := CalledBackNode(func, argCount, callerEnv, ex, exception, x, out.Threw?);
      }
    }

    /** `inter->current_recovery_environment = env_backup;` */
    method Restore(backup: nat)
      requires Valid() && backup <= lastPoint
      modifies this`recovery
      ensures Valid() && Live() == old(Live()) && recovery == backup
    {
      recovery := backup;
    }

    lemma PointBound()
      requires Valid()
      ensures recovery <= lastPoint
    {
    }

    /** What `After` says where a jump lands. */
    lemma Landed(was: seq<Val>, chain: seq<Env>, rec: nat, k: nat)
      requires After(was, chain, rec, Threw(rec), k)
      ensures Valid() && |was| <= sp == |Live()| && was == Live()[..|was|] && was <= Live() && frames == chain
    {
    }

    method CallCrowbarFromNative(local: Env, fun: Function, argCount: nat, callerEnv: Env?, fuel: nat)
      returns (out: Outcome, result: Val, ghost x: Run)
      requires fun.Crowbar?
      requires Valid()
      modifies this
      ensures After(old(Live()), old(frames), old(recovery), out, 0) && lastPoint >= old(lastPoint)
      ensures out != Halted ==> Chain([x], old(exception), exception, out.Threw?)
      ensures out != Halted ==>
        if argCount == fun.params then x.what == List(fun.body) && x.env == local else x.what == Fault && out.Threw?
      ensures out.Ok? ==> result == Result(x.end)
      decreases fuel
    {
      hide Tells, Derives, Chain;
      x := *;
      result := Null;
      if fuel == 0 { return Halted, Null, x; }
      ghost var ex := exception;
      if argCount != fun.params {
        out, x := RuntimeError(callerEnv, fuel - 1);
        if out != Halted { Piece(x, Fault, callerEnv, ex, exception, true); }
        return;
      }
      var res;
      out, res, x := ExecList(local, fun.body, fuel - 1);
      if out != Halted { Piece(x, List(fun.body), local, ex, exception, out.Threw?); }
      result := if res.Returned? then res.value else Null;
    }

    method CallNativeFromNative(local: Env, fun: Function, argCount: nat, fuel: nat)
      returns (out: Outcome, result: Val, ghost x: Run)
      requires fun.NativeFun?
      requires Valid()
      modifies this
      ensures After(old(Live()), old(frames), old(recovery), out, 0) && lastPoint >= old(lastPoint)
      ensures out != Halted ==> Chain([x], old(exception), exception, out.Threw?)
      ensures out != Halted ==> if fun.expected >= 0 && argCount != fun.expected then x.what == Fault && out.Threw?
        else x.what == InC
      ensures out.Ok? ==> x.end == Value(result)
      decreases fuel
    {
      hide Tells, Derives, Chain;
      x := *;
      result := Null;
      if fuel == 0 { return Halted, Null, x; }
      ghost var ex := exception;
      if fun.expected >= 0 && argCount != fun.expected {
        out, x := RuntimeError(local, fuel - 1);
        if out != Halted { Piece(x, Fault, local, ex, exception, true); }
        return;
      }
      out, result, x := NativeCode(local, 0, fuel - 1);
      if out != Halted { Piece(x, InC, local, ex, exception, out.Threw?); }
    }

    method CallMethodFromNative(local: Env, argCount: nat, fuel: nat)
      returns (out: Outcome, result: Val, ghost x: Run)
      requires Valid()
      modifies this
      ensures After(old(Live()), old(frames), old(recovery), out, 0) && lastPoint >= old(lastPoint)
      ensures out != Halted ==> Chain([x], old(exception), exception, out.Threw?) && (x.what == Fault || x.what == InC)
      ensures out.Ok? ==> x.end == Value(result)
      decreases fuel
    {
      hide Tells, Derives, Chain;
      x := *;
      result := Null;
      if fuel == 0 { return Halted, Null, x; }
      ghost var ex := exception;
      if * {
        out, x := RuntimeError(local, fuel - 1);
        if out != Halted { Piece(x, Fault, local, ex, exception, true); }
        return;
      }
      out, result, x := NativeCode(local, 0, fuel - 1);
      if out != Halted { Piece(x, InC, local, ex, exception, out.Threw?); }
    }

    /** A function written in C: it may call back, raise an error, push values of its own, and write to these and to
        its arguments, which are the upper `argCount` values of the stack when it starts. It takes off what it has
        pushed. */
    method NativeCode(env: Env?, argCount: nat, fuel: nat) returns (out: Outcome, result: Val, ghost d: Run)
      requires Valid() && argCount <= sp
      modifies this
      ensures After(old(Live())[..old(sp) - argCount], old(frames), old(recovery), out, argCount)
      ensures lastPoint >= old(lastPoint)
      ensures out != Halted ==> Tells(d, InC, env, old(exception), exception, out.Threw?)
      ensures out.Ok? ==> d.end == Value(result)
      decreases fuel
    {
      hide Tells, Derives, Rule, Chain;
      d := *;
      ghost var was, chain, rec, ex := Live()[..sp - argCount], frames, recovery, exception;
      ghost var p: seq<Run> := [];
      NoPieces(ex);
      out := Ok;
      var f: nat, own: nat := fuel, 0;
      var again := AnyBool();
      while again
        invariant f <= fuel && After(was, chain, rec, Ok, argCount + own) && lastPoint >= old(lastPoint)
        invariant Chain(p, ex, exception, false)
        invariant forall i :: 0 <= i < |p| ==> p[i].what.CalledBack? || p[i].what == Fault
        decreases f
      {
        if f == 0 { return Halted, Null, d; }
        f := f - 1;
        ghost var q;
        ghost var ex2 := exception;
        out, own, q := NativeStep(env, was, chain, rec, argCount, own, f);
        if out == Halted { return out, Null, d; }
        Joined(p, ex, ex2, q, exception, out.Threw?);
        p := p + q;
        if out.Threw? {
          d := InCNode(env, ex, exception, p, true, Null);
          return out, Null, d;
        }
        again := AnyBool();
      }
      Returned(was, chain, rec, argCount + own);
      Shrink(own);
      out := Ok;
      result := AnyVal();
      d := InCNode(env, ex, exception, p, false, result);
    }

    /** One thing that it does; `own` counts the values that it has pushed. */
    method NativeStep(env: Env?, ghost was: seq<Val>, ghost chain: seq<Env>, ghost rec: nat, argCount: nat, own: nat,
                      fuel: nat)
      returns (out: Outcome, now: nat, ghost q: seq<Run>)
      requires After(was, chain, rec, Ok, argCount + own)
      modifies this
      ensures After(was, chain, rec, out, argCount + now) && lastPoint >= old(lastPoint)
      ensures out != Halted ==> Chain(q, old(exception), exception, out.Threw?)
      ensures |q| <= 1
      ensures out != Halted && q != [] ==>
        q[0].was == old(exception) && (q[0].what.CalledBack? || q[0].what == Fault)
      decreases fuel, 0
    {
      hide Tells, Derives, Rule, Chain;
      Returned(was, chain, rec, argCount + own);
      ghost var mid, ex := Live(), exception;
      ghost var x;
      NoPieces(ex);
      out, now, q := Ok, own, [];
      var i := AnyNat();
      if i < argCount + own {
        var v := AnyVal();
        SetArgument(i, v, argCount + own);
      } else if * {
        var v := AnyVal();
        Push(v);
        now := own + 1;
      } else if * {
        if own > 0 {
          var _ := Pop();
          now := own - 1;
        }
      } else if * {
        var func := AnyVal();
        var n := AnyNat();
        if fuel == 0 { return Halted, own, q; }
        var ignored;
        out, ignored, x := CallFunction(env, func, n, fuel - 1);
        Then(was, mid, chain, rec, out, 0);
        if out == Halted { return; }
        Piece(x, CalledBack(func, n), env, ex, exception, out.Threw?);
        q := [x];
      } else {
        if fuel == 0 { return Halted, own, q; }
        out, x := RuntimeError(env, fuel - 1);
        Then(was, mid, chain, rec, out, 0);
        if out == Halted { return; }
        Piece(x, Fault, env, ex, exception, true);
        q := [x];
      }
    }

    /** The value on top is replaced. */
    method SetTop(v: Val)
      requires Valid() && sp > 0
      modifies this`cells
      ensures Valid() && Live() == old(Live())[sp - 1 := v]
    {
      cells := cells[sp - 1 := v];
    }

    method SetArgument(i: nat, v: Val, argCount: nat)
      requires Valid() && i < argCount <= sp
      modifies this`cells
      ensures Valid() && |Live()| == |old(Live())| && Live()[..sp - argCount] == old(Live())[..sp - argCount]
    {
      cells := cells[sp - argCount + i := v];
    }

    /** `CRB_call_method` */
    method CallMember(env: Env?, fuel: nat) returns (out: Outcome, result: Val, ghost d: Run)
      requires Valid()
      modifies this
      ensures After(old(Live()), old(frames), old(recovery), out, 0) && lastPoint >= old(lastPoint)
      ensures out != Halted ==> Tells(d, MemberCalled, env, old(exception), exception, out.Threw?)
      ensures out.Ok? ==> d.end == Value(result)
      decreases fuel
    {
      hide Tells, Derives, Rule, Chain;
      d := *;
      result := Null;
      if fuel == 0 { return Halted, Null, d; }
      ghost var was, chain, rec, ex := Live(), frames, recovery, exception;
      ghost var x;
      var func := Method;
      if * {
        func := AnyVal();
        if !func.Closure? {
          out, x := RuntimeError(env, fuel - 1);
          if out != Halted {
            Piece(x, Fault, env, ex, exception, true);
            d := MemberCalledNode(env, ex, exception, x, true);
          }
          return;
        }
      }
      Push(func);
      ghost var mid := Live();
      out, result, x := CallFunction(env, func, 0, fuel - 1);
      Then(was, mid, chain, rec, out, 0);
      if out != Halted {
        Piece(x, CalledBack(func, 0), env, ex, exception, out.Threw?);
        d := MemberCalledNode(env, ex, exception, x, out.Threw?);
      }
      if !out.Ok? { return; }
      Returned(was, chain, rec, 1);
      Shrink(1);
    }

    /** `eval_function_call_expression` */
    method EvalCall(env: Env?, callee: Expr, args: seq<Expr>, fuel: nat) returns (out: Outcome, ghost d: Run)
      requires Valid()
      modifies this
      ensures After(old(Live()), old(frames), old(recovery), out, 1) && lastPoint >= old(lastPoint)
      ensures out != Halted ==> Tells(d, Expression(Call(callee, args)), env, old(exception), exception, out.Threw?)
      ensures out.Ok? ==> d.end.Value? && Live() == old(Live()) + [d.end.v]
      ensures out.Ok? ==>
        forall v :: callee == Literal(Returning(v)) && args == [] ==> Live() == old(Live()) + [v]
      decreases fuel
    {
      hide *;
      d := *;
      ghost var was, chain, rec, ex := Live(), frames, recovery, exception;
      ghost var c, x;
      Halting(was, chain, rec);
      if fuel == 0 { return Halted, d; }
      out, c := EvalExpression(env, callee, fuel - 1);
      if out == Halted { return; }
      Piece(c, Expression(callee), env, ex, exception, out.Threw?);
      InIs(c, Expression(callee), env);
      if out.Threw? {
        d := CallNode(callee, args, env, ex, exception, [c], true);
        return;
      }
      Returned(was, chain, rec, 1);
      var func := Peek(0);
      ValueIs(c, func);
      CallableIs(func);
      ghost var mid, ex2 := Live(), exception;
      if !func.Closure? && !func.Method? {
        out, x := RuntimeError(env, fuel - 1);
        Then(was, mid, chain, rec, out, 0);
        if out == Halted { return; }
        More([c], ex, x, Fault, env, ex2, exception, true);
        InIs(x, Fault, env);
        d := CallNode(callee, args, env, ex, exception, [c] + [x], true);
        return;
      }
      out, x := CallInFrame(env, args, func, fuel - 1);
      Then(was, mid, chain, rec, out, 1);
      if out == Halted { return; }
      More([c], ex, x, Applied(func, args), env, ex2, exception, out.Threw?);
      InIs(x, Applied(func, args), env);
      d := CallNode(callee, args, env, ex, exception, [c] + [x], out.Threw?);
      CallShown(d, callee, args, env, ex, exception, out.Threw?);
      if !out.Ok? { return; }
      Returned(mid, chain, rec, 1);
      var result := Pop();
      assert Live() == mid && result == x.end.v;
      Shrink(1);
      assert Live() == was;
      Push(result);
      Settled(was, chain, rec, 1);
    }

    /** The call runs in an environment and with a recovery point of its own, and gives both up however it ends. */
    method CallInFrame(env: Env?, args: seq<Expr>, func: Val, fuel: nat) returns (out: Outcome, ghost d: Run)
      requires func.Closure? || func.Method?
      requires Valid()
      modifies this
      ensures After(old(Live()), old(frames), old(recovery), out, 1) && lastPoint >= old(lastPoint)
      ensures out != Halted ==> Tells(d, Applied(func, args), env, old(exception), exception, out.Threw?)
      ensures out.Ok? ==> d.end.Value? && Live() == old(Live()) + [d.end.v]
      decreases fuel
    {
      hide *;
      d := *;
      ghost var was, chain, rec := Live(), frames, recovery;
      Halting(was, chain, rec);
      if fuel == 0 { return Halted, d; }
      var local := AllocEnvironment();
      var pointer, backup := sp, recovery;
      PointBound();
      var point := NewPoint();
      out, d := DoFunctionCall(local, env, args, func, fuel - 1);
      Always(was, chain + [local], point, out, 1);
      if out.Threw? {
        assert out.target == point;
        Landed(was, chain + [local], point, 1);
        DisposeEnvironment(chain, local);
        SetStackPointer(pointer);
        Jumping(was, chain, rec);
        return Threw(backup), d;
      }
      Halting(was, chain, rec);
      if out == Halted { return; }
      Returned(was, chain + [local], point, 1);
      Restore(backup);
      DisposeEnvironment(chain, local);
      Settled(was, chain, rec, 1);
    }

    /** `do_function_call` */
    method DoFunctionCall(local: Env, callerEnv: Env?, args: seq<Expr>, func: Val, fuel: nat)
      returns (out: Outcome, ghost d: Run)
      requires func.Closure? || func.Method?
      requires Valid() && local != callerEnv
      modifies this
      ensures After(old(Live()), old(frames), old(recovery), out, 1) && lastPoint >= old(lastPoint)
      ensures out != Halted ==> Tells(d, Applied(func, args), callerEnv, old(exception), exception, out.Threw?)
      ensures out.Ok? ==> d.end.Value? && Live() == old(Live()) + [d.end.v]
      decreases fuel
    {
      hide Tells, Derives, Rule, Chain;
      d := *;
      if fuel == 0 { return Halted, d; }
      ghost var ex := exception;
      if func.Method? {
        if * {
          ghost var x;
          out, x := RuntimeError(local, fuel - 1);
          if out != Halted {
            Piece(x, Fault, local, ex, exception, true);
            d := MethodFault(args, callerEnv, ex, exception, x);
          }
          return;
        }
        out, d := CallNative(local, callerEnv, args, func, -1, fuel - 1);
      } else if func.fun.Crowbar? {
        out, d := CallCrowbar(local, callerEnv, args, func.fun, fuel - 1);
      } else {
        out, d := CallNative(local, callerEnv, args, func, func.fun.expected, fuel - 1);
      }
    }

    /** `call_native_function` and the second half of `call_fake_method` */
    method CallNative(local: Env, callerEnv: Env?, args: seq<Expr>, ghost func: Val, expected: int, fuel: nat)
      returns (out: Outcome, ghost d: Run)
      requires (func == Method && expected == -1) || func == Closure(NativeFun(expected))
      requires Valid()
      modifies this
      ensures After(old(Live()), old(frames), old(recovery), out, 1) && lastPoint >= old(lastPoint)
      ensures out != Halted ==> Tells(d, Applied(func, args), callerEnv, old(exception), exception, out.Threw?)
      ensures out.Ok? ==> d.end.Value? && Live() == old(Live()) + [d.end.v]
      decreases fuel
    {
      hide Tells, Derives, Rule, Chain, Args, Values;
      d := *;
      if fuel == 0 { return Halted, d; }
      ghost var was, chain, rec, ex := Live(), frames, recovery, exception;
      ghost var p, x;
      out, p := EvalList(callerEnv, args, fuel - 1);
      if out == Halted { return; }
      if out.Threw? {
        d := NativeNode(func, args, callerEnv, ex, exception, p, true);
        return;
      }
      Returned(was, chain, rec, |args|);
      ghost var mid, ex2 := Live(), exception;
      if expected >= 0 && |args| != expected {
        out, x := RuntimeError(local, fuel - 1);
        Then(was, mid, chain, rec, out, 0);
        if out == Halted { return; }
        More(p, ex, x, Fault, local, ex2, exception, true);
        ArgsKept(p, x, args, callerEnv);
        d := NativeNode(func, args, callerEnv, ex, exception, p + [x], true);
        return;
      }
      var result;
      out, result, x := NativeCode(local, |args|, fuel - 1);
      if out == Halted { return; }
      More(p, ex, x, InC, local, ex2, exception, out.Threw?);
      ArgsKept(p, x, args, callerEnv);
      d := NativeNode(func, args, callerEnv, ex, exception, p + [x], out.Threw?);
      if out.Threw? { return; }
      Returned(was, chain, rec, |args|);
      Shrink(|args|);
      Push(result);
    }

    /** The arguments stay on the stack. */
    method EvalList(env: Env?, es: seq<Expr>, fuel: nat) returns (out: Outcome, ghost p: seq<Run>)
      requires Valid()
      modifies this
      ensures After(old(Live()), old(frames), old(recovery), out, |es|) && lastPoint >= old(lastPoint)
      ensures out != Halted ==> Chain(p, old(exception), exception, out.Threw?) && |p| <= |es| && Args(p, es, env)
      ensures out.Ok? ==> |p| == |es| && Live() == old(Live()) + Values(p)
      decreases fuel
    {
      hide Tells, Derives, Rule, Chain, Args, Values;
      p := [];
      if fuel == 0 { return Halted, p; }
      ghost var was, chain, rec, ex := Live(), frames, recovery, exception;
      NoPieces(ex);
      NoArgs(es, env);
      out := Ok;
      for i := 0 to |es|
        invariant After(was, chain, rec, Ok, i) && lastPoint >= old(lastPoint)
        invariant Chain(p, ex, exception, false) && |p| == i && Args(p, es, env) && Live() == was + Values(p)
      {
        Returned(was, chain, rec, i);
        ghost var mid, ex2 := Live(), exception;
        ghost var x;
        out, x := EvalExpression(env, es[i], fuel - 1);
        Then(was, mid, chain, rec, out, 1);
        if out == Halted { return; }
        More(p, ex, x, Expression(es[i]), env, ex2, exception, out.Threw?);
        ArgsMore(p, x, es, env);
        p := p + [x];
        if !out.Ok? { return; }
      }
      out := Ok;
    }

    /** `call_crowbar_function` */
    method CallCrowbar(local: Env, callerEnv: Env?, args: seq<Expr>, fun: Function, fuel: nat)
      returns (out: Outcome, ghost d: Run)
      requires fun.Crowbar?
      requires Valid() && local != callerEnv
      modifies this
      ensures After(old(Live()), old(frames), old(recovery), out, 1) && lastPoint >= old(lastPoint)
      ensures out != Halted ==> Tells(d, Applied(Closure(fun), args), callerEnv, old(exception), exception, out.Threw?)
      ensures out.Ok? ==> d.end.Value? && Live() == old(Live()) + [d.end.v]
      decreases fuel
    {
      hide Tells, Derives, Rule, Chain, Args, Values, Result;
      d := *;
      if fuel == 0 { return Halted, d; }
      ghost var was, chain, rec, ex := Live(), frames, recovery, exception;
      ghost var p, x;
      FittingSize(args, fun.params);
      out, p := PassArguments(callerEnv, args, fun.params, fuel - 1);
      if out == Halted { return; }
      if out.Threw? {
        d := CrowbarNode(fun.params, fun.body, args, callerEnv, ex, exception, p, true);
        return;
      }
      Returned(was, chain, rec, 0);
      ghost var ex2 := exception;
      var res;
      out, res, x := ExecList(local, fun.body, fuel - 1);
      if out == Halted { return; }
      More(p, ex, x, List(fun.body), local, ex2, exception, out.Threw?);
      ArgsKept(p, x, Fitting(args, fun.params), callerEnv);
      d := CrowbarNode(fun.params, fun.body, args, callerEnv, ex, exception, p + [x], out.Threw?);
      if out.Threw? { return; }
      Returned(was, chain, rec, 0);
      ResultIs(x.end, res);
      Push(if res.Returned? then res.value else Null);
    }

    /** Each argument leaves the stack for a variable; their number has to be that of the parameters. */
    method PassArguments(callerEnv: Env?, args: seq<Expr>, params: nat, fuel: nat)
      returns (out: Outcome, ghost p: seq<Run>)
      requires Valid()
      modifies this
      ensures After(old(Live()), old(frames), old(recovery), out, 0) && lastPoint >= old(lastPoint)
      ensures out != Halted ==>
        var es := Fitting(args, params);
        && Chain(p, old(exception), exception, out.Threw?) && |p| <= |es| + 1 && Args(p, es, callerEnv)
        && (|p| == |es| + 1 ==> p[|es|].what == Fault && |args| != params && out.Threw?)
      ensures out.Ok? ==> |p| == |args| == params
      decreases fuel
    {
      hide Tells, Derives, Rule, Chain, Args, Values;
      p := [];
      if fuel == 0 { return Halted, p; }
      ghost var was, chain, rec, ex := Live(), frames, recovery, exception;
      ghost var x;
      ghost var es := Fitting(args, params);
      FittingSize(args, params);
      NoPieces(ex);
      NoArgs(es, callerEnv);
      for i := 0 to |args|
        invariant After(was, chain, rec, Ok, 0) && lastPoint >= old(lastPoint) && i <= params
        invariant Chain(p, ex, exception, false) && |p| == i && Args(p, es, callerEnv)
      {
        Returned(was, chain, rec, 0);
        ghost var ex2 := exception;
        if i == params {
          out, x := RuntimeError(callerEnv, fuel - 1);
          if out == Halted { return; }
          More(p, ex, x, Fault, callerEnv, ex2, exception, true);
          ArgsKept(p, x, es, callerEnv);
          p := p + [x];
          return;
        }
        var dummy;
        out, dummy, x := EvalOff(callerEnv, args[i], fuel - 1);
        Then(was, was, chain, rec, out, 0);
        if out == Halted { return; }
        More(p, ex, x, Expression(args[i]), callerEnv, ex2, exception, out.Threw?);
        ArgsMore(p, x, es, callerEnv);
        p := p + [x];
        if out.Threw? { return; }
      }
      Returned(was, chain, rec, 0);
      ghost var ex2 := exception;
      out := Ok;
      if |args| < params {
        out, x := RuntimeError(callerEnv, fuel - 1);
        if out == Halted { return; }
        More(p, ex, x, Fault, callerEnv, ex2, exception, true);
        ArgsKept(p, x, es, callerEnv);
        p := p + [x];
      }
    }

    // -------------------------------------------------------------- expressions

    /** `eval_expression` */
    method EvalExpression(env: Env?, e: Expr, fuel: nat) returns (out: Outcome, ghost d: Run)
      requires Valid()
      modifies this
      ensures After(old(Live()), old(frames), old(recovery), out, 1) && lastPoint >= old(lastPoint)
      ensures out != Halted ==> Tells(d, Expression(e), env, old(exception), exception, out.Threw?)
      ensures out.Ok? ==> d.end.Value? && Live() == old(Live()) + [d.end.v]
      decreases fuel
    {
      hide Tells;
      d := *;
      if fuel == 0 { return Halted, d; }
      match e
      case Literal(v) =>
        d := LiteralNode(v, env, exception);
        Push(v);
        out := Ok;
      case Identifier(_) =>
        out, d := EvalIdentifier(env, e, fuel - 1);
      case Comma(l, r) =>
        out, d := EvalComma(env, l, r, fuel - 1);
      case Assign(normal, target, operand) =>
        out, d := EvalAssign(env, normal, target, operand, fuel - 1);
      case Concat(l, r) =>
        out, d := EvalConcat(env, l, r, fuel - 1);
      case Binary(op, l, r) =>
        out, d := EvalBinary(env, op, l, r, fuel - 1);
      case AndOr(isOr, l, r) =>
        out, d := EvalAndOr(env, isOr, l, r, fuel - 1);
      case Minus(x) =>
        out, d := EvalUnary(env, x, true, fuel - 1);
      case Not(x) =>
        out, d := EvalUnary(env, x, false, fuel - 1);
      case Call(callee, args) =>
        out, d := EvalCall(env, callee, args, fuel - 1);
      case Member(of, name) =>
        out, d := EvalMember(env, of, name, fuel - 1);
      case ArrayLit(es) =>
        out, d := EvalElements(env, e, Arr, es, fuel - 1);
      case AssocLit(es) =>
        out, d := EvalElements(env, e, Assoc, es, fuel - 1);
      case Index(a, i) =>
        out, d := EvalIndex(env, a, i, fuel - 1);
      case Slice(a, start, end) =>
        out, d := EvalSlice(env, a, start, end, fuel - 1);
      case IncDec(x) =>
        out, d := EvalIncDec(env, x, fuel - 1);
    }

    /** `eval_identifier_expression`: a variable, a function or a module, or an error. */
    method EvalIdentifier(env: Env?, ghost e: Expr, fuel: nat) returns (out: Outcome, ghost d: Run)
      requires Valid() && e.Identifier?
      modifies this
      ensures After(old(Live()), old(frames), old(recovery), out, 1) && lastPoint >= old(lastPoint)
      ensures out != Halted ==> Tells(d, Expression(e), env, old(exception), exception, out.Threw?)
      ensures out.Ok? ==> d.end.Value? && Live() == old(Live()) + [d.end.v]
      decreases fuel
    {
      hide Tells, Chain, Derives, Rule;
      d := *;
      if fuel == 0 { return Halted, d; }
      ghost var ex := exception;
      NoPieces(ex);
      NoArgs([], env);
      var found := AnyOption();
      if found.None? {
        ghost var x;
        out, x := RuntimeError(env, fuel - 1);
        if out == Halted { return; }
        More([], ex, x, Fault, env, ex, exception, true);
        FaultTried([], x, [], env);
        d := InTurnNode(e, env, ex, exception, [] + [x], true, Null);
        return;
      }
      d := InTurnNode(e, env, ex, exception, [], false, found.value);
      Push(found.value);
      out := Ok;
    }

    method EvalComma(env: Env?, l: Expr, r: Expr, fuel: nat) returns (out: Outcome, ghost d: Run)
      requires Valid()
      modifies this
      ensures After(old(Live()), old(frames), old(recovery), out, 1) && lastPoint >= old(lastPoint)
      ensures out != Halted ==> Tells(d, Expression(Comma(l, r)), env, old(exception), exception, out.Threw?)
      ensures out.Ok? ==> d.end.Value? && Live() == old(Live()) + [d.end.v]
      decreases fuel
    {
      hide Tells, Chain, Derives, Rule, Args, Tried, Values;
      d := *;
      if fuel == 0 { return Halted, d; }
      ghost var was, chain, rec, ex := Live(), frames, recovery, exception;
      ghost var x, y, p: seq<Run>;
      out, x := EvalExpression(env, l, fuel - 1);
      if out == Halted { return; }
      Piece(x, Expression(l), env, ex, exception, out.Threw?);
      p := [x];
      FirstOfTwo(x, l, r, env);
      if !out.Ok? {
        d := InTurnNode(Comma(l, r), env, ex, exception, p, true, Null);
        return;
      }
      Returned(was, chain, rec, 1);
      Shrink(1);
      ghost var ex2 := exception;
      out, y := EvalExpression(env, r, fuel - 1);
      if out == Halted { return; }
      More(p, ex, y, Expression(r), env, ex2, exception, out.Threw?);
      TwoArgs(x, y, l, r, env);
      d := InTurnNode(Comma(l, r), env, ex, exception, p + [y], out.Threw?, ValueOf(y));
    }

    /** `eval_binary_expression` */
    method EvalBinary(env: Env?, op: Op, l: Expr, r: Expr, fuel: nat) returns (out: Outcome, ghost d: Run)
      requires Valid()
      modifies this
      ensures After(old(Live()), old(frames), old(recovery), out, 1) && lastPoint >= old(lastPoint)
      ensures out != Halted ==> Tells(d, Expression(Binary(op, l, r)), env, old(exception), exception, out.Threw?)
      ensures out.Ok? ==> d.end.Value? && Live() == old(Live()) + [d.end.v]
      decreases fuel
    {
      hide Interp.Valid, Interp.Live, ChainOf, Tells, Chain, Derives, Rule, Args, Takes, Gives;
      d := *;
      ghost var was, chain, rec, ex := Live(), frames, recovery, exception;
      if fuel == 0 { return Halted, d; }
      ghost var p, x;
      out, p := EvalList(env, [l, r], fuel - 1);
      Then(was, was, chain, rec, out, 2);
      if out == Halted { return; }
      if out.Threw? {
        d := BinaryNode(op, l, r, env, ex, exception, p, true, Null);
        return;
      }
      Returned(was, chain, rec, 2);
      ghost var mid, ex2 := Live(), exception;
      var a := Peek(1);
      var b := Peek(0);
      assert Values(p)[0] == a && Values(p)[1] == b;
      var result := OperatorResult(op, a, b);
      if result.None? {
        out, x := RuntimeError(env, fuel - 1);
        Then(was, mid, chain, rec, out, 0);
        if out == Halted { return; }
        More(p, ex, x, Fault, env, ex2, exception, true);
        ArgsKept(p, x, [l, r], env);
        InIs(x, Fault, env);
        d := BinaryNode(op, l, r, env, ex, exception, p + [x], true, Null);
        return;
      }
      d := BinaryNode(op, l, r, env, ex, exception, p, false, result.value);
      Shrink(2);
      Push(result.value);
      Settled(was, chain, rec, 1);
    }

    /** `eval_binary_concat_string` */
    method EvalConcat(env: Env?, l: Expr, r: Expr, fuel: nat) returns (out: Outcome, ghost d: Run)
      requires Valid()
      modifies this
      ensures After(old(Live()), old(frames), old(recovery), out, 1) && lastPoint >= old(lastPoint)
      ensures out != Halted ==> Tells(d, Expression(Concat(l, r)), env, old(exception), exception, out.Threw?)
      ensures out.Ok? ==> d.end.Value? && Live() == old(Live()) + [d.end.v]
      decreases fuel
    {
      hide Tells, Chain, Derives, Rule, Args, Tried, Values;
      d := *;
      if fuel == 0 { return Halted, d; }
      ghost var was, chain, rec, ex := Live(), frames, recovery, exception;
      ghost var p;
      out, p := EvalList(env, [l, r], fuel - 1);
      if out == Halted { return; }
      ArgsTried(p, [l, r], env);
      ValuesSize(p);
      d := InTurnNode(Concat(l, r), env, ex, exception, p, out.Threw?, Str);
      if !out.Ok? { return; }
      Returned(was, chain, rec, 2);
      Shrink(2);
      Push(Str);
    }

    /** `eval_logical_and_or_expression` */
    method EvalAndOr(env: Env?, isOr: bool, l: Expr, r: Expr, fuel: nat) returns (out: Outcome, ghost d: Run)
      requires Valid()
      modifies this
      ensures After(old(Live()), old(frames), old(recovery), out, 1) && lastPoint >= old(lastPoint)
      ensures out != Halted ==> Tells(d, Expression(AndOr(isOr, l, r)), env, old(exception), exception, out.Threw?)
      ensures out.Ok? ==> d.end.Value? && Live() == old(Live()) + [d.end.v]
      decreases fuel
    {
      hide Interp.Valid, Interp.Live, ChainOf, Tells, Chain, Derives, Rule;
      d := *;
      ghost var was, chain, rec, ex := Live(), frames, recovery, exception;
      if fuel == 0 { return Halted, d; }
      var a, b;
      ghost var x, y, p: seq<Run>;
      out, a, x := EvalOff(env, l, fuel - 1);
      Then(was, was, chain, rec, out, 0);
      if out == Halted { return; }
      Piece(x, Expression(l), env, ex, exception, out.Threw?);
      p := [x];
      if !out.Ok? {
        d := AndOrNode(isOr, l, r, env, ex, exception, p, true, false);
        return;
      }
      Returned(was, chain, rec, 0);
      ghost var ex2 := exception;
      if !a.Bool? {
        out, y := RuntimeError(env, fuel - 1);
        Then(was, was, chain, rec, out, 0);
        if out == Halted { return; }
        More(p, ex, y, Fault, env, ex2, exception, true);
        d := AndOrNode(isOr, l, r, env, ex, exception, p + [y], true, false);
        return;
      }
      if a.b == isOr {
        d := AndOrNode(isOr, l, r, env, ex, exception, p, false, isOr);
        Push(Bool(isOr));
        Settled(was, chain, rec, 1);
        return;
      }
      out, b, y := EvalOff(env, r, fuel - 1);
      Then(was, was, chain, rec, out, 0);
      if out == Halted { return; }
      More(p, ex, y, Expression(r), env, ex2, exception, out.Threw?);
      if !out.Ok? {
        d := AndOrNode(isOr, l, r, env, ex, exception, p + [y], true, false);
        return;
      }
      Returned(was, chain, rec, 0);
      var truth := AnyBool();
      d := AndOrNode(isOr, l, r, env, ex, exception, p + [y], false, if b.Bool? then b.b else truth);
      Push(Bool(if b.Bool? then b.b else truth));
      Settled(was, chain, rec, 1);
    }

    /** `eval_minus_expression` and `eval_logical_not_expression`: the operand is changed in place. */
    method EvalUnary(env: Env?, x: Expr, minus: bool, fuel: nat) returns (out: Outcome, ghost d: Run)
      requires Valid()
      modifies this
      ensures After(old(Live()), old(frames), old(recovery), out, 1) && lastPoint >= old(lastPoint)
      ensures out != Halted ==>
        Tells(d, Expression(if minus then Minus(x) else Not(x)), env, old(exception), exception, out.Threw?)
      ensures out.Ok? ==> d.end.Value? && Live() == old(Live()) + [d.end.v]
      decreases fuel
    {
      hide Tells, Chain, Derives, Rule;
      d := *;
      if fuel == 0 { return Halted, d; }
      ghost var was, chain, rec, ex := Live(), frames, recovery, exception;
      ghost var r, f;
      out, r := EvalExpression(env, x, fuel - 1);
      if out == Halted { return; }
      Piece(r, Expression(x), env, ex, exception, out.Threw?);
      if !out.Ok? {
        d := UnaryNode(minus, x, env, ex, exception, [r], true);
        return;
      }
      Returned(was, chain, rec, 1);
      ghost var mid, ex2 := Live(), exception;
      var v := Peek(0);
      if if minus then !v.Int? && !v.Float? else !v.Bool? {
        out, f := RuntimeError(env, fuel - 1);
        Then(was, mid, chain, rec, out, 0);
        if out == Halted { return; }
        More([r], ex, f, Fault, env, ex2, exception, true);
        d := UnaryNode(minus, x, env, ex, exception, [r] + [f], true);
        return;
      }
      d := UnaryNode(minus, x, env, ex, exception, [r], false);
      SetTop(match v case Int(i) => Int(-i) case Bool(b) => Bool(!b) case _ => v);
    }

    /** `eval_member_expression` */
    method EvalMember(env: Env?, of: Expr, name: string, fuel: nat) returns (out: Outcome, ghost d: Run)
      requires Valid()
      modifies this
      ensures After(old(Live()), old(frames), old(recovery), out, 1) && lastPoint >= old(lastPoint)
      ensures out != Halted ==> Tells(d, Expression(Member(of, name)), env, old(exception), exception, out.Threw?)
      ensures out.Ok? ==> d.end.Value? && Live() == old(Live()) + [d.end.v]
      decreases fuel
    {
      hide Interp.Valid, Interp.Live, ChainOf, Tells, Chain, Derives, Rule;
      d := *;
      ghost var was, chain, rec, ex := Live(), frames, recovery, exception;
      if fuel == 0 { return Halted, d; }
      var left;
      ghost var x, f;
      out, left, x := EvalOff(env, of, fuel - 1);
      Then(was, was, chain, rec, out, 0);
      if out == Halted { return; }
      Piece(x, Expression(of), env, ex, exception, out.Threw?);
      if !out.Ok? {
        d := MemberNode(of, name, env, ex, exception, [x], true, Null);
        return;
      }
      Returned(was, chain, rec, 0);
      ghost var ex2 := exception;
      var found := AnyOption();
      if left == Str || left == Arr {
        d := MemberNode(of, name, env, ex, exception, [x], false, Method);
        Push(Method);
        Settled(was, chain, rec, 1);
      } else if (left == Assoc || left == Module) && found.Some? {
        d := MemberNode(of, name, env, ex, exception, [x], false, found.value);
        Push(found.value);
        Settled(was, chain, rec, 1);
      } else {
        out, f := RuntimeError(env, fuel - 1);
        Then(was, was, chain, rec, out, 0);
        if out == Halted { return; }
        More([x], ex, f, Fault, env, ex2, exception, true);
        d := MemberNode(of, name, env, ex, exception, [x] + [f], true, Null);
      }
    }

    /** `eval_array_expression` and `eval_assoc_expression`: the object waits on the stack for its elements. */
    method EvalElements(env: Env?, ghost e: Expr, container: Val, es: seq<Expr>, fuel: nat)
      returns (out: Outcome, ghost d: Run)
      requires (e == ArrayLit(es) && container == Arr) || (e == AssocLit(es) && container == Assoc)
      requires Valid()
      modifies this
      ensures After(old(Live()), old(frames), old(recovery), out, 1) && lastPoint >= old(lastPoint)
      ensures out != Halted ==> Tells(d, Expression(e), env, old(exception), exception, out.Threw?)
      ensures out.Ok? ==> d.end.Value? && Live() == old(Live()) + [d.end.v]
      decreases fuel
    {
      hide Tells, Chain, Derives, Rule, Args, Tried, Values;
      d := *;
      if fuel == 0 { return Halted, d; }
      ghost var was, chain, rec, ex := Live(), frames, recovery, exception;
      ghost var p: seq<Run> := [];
      NoPieces(ex);
      NoArgs(es, env);
      Push(container);
      for i := 0 to |es|
        invariant After(was, chain, rec, Ok, 1) && lastPoint >= old(lastPoint) && Live() == was + [container]
        invariant Chain(p, ex, exception, false) && |p| == i && Args(p, es, env)
      {
        Returned(was, chain, rec, 1);
        ghost var mid, ex2 := Live(), exception;
        ghost var x;
        out, x := EvalExpression(env, es[i], fuel - 1);
        Then(was, mid, chain, rec, out, 1);
        if out == Halted { return; }
        More(p, ex, x, Expression(es[i]), env, ex2, exception, out.Threw?);
        ArgsMore(p, x, es, env);
        p := p + [x];
        ArgsTried(p, es, env);
        if !out.Ok? {
          d := InTurnNode(e, env, ex, exception, p, true, Null);
          return;
        }
        Returned(was, chain, rec, 2);
        Shrink(1);
      }
      ArgsTried(p, es, env);
      ValuesSize(p);
      d := InTurnNode(e, env, ex, exception, p, false, container);
      out := Ok;
    }

    /** `get_array_element_lvalue`, with the array off the stack. */
    method EvalSubscript(env: Env?, index: Expr, fuel: nat) returns (out: Outcome, ghost p: seq<Run>)
      requires Valid()
      modifies this
      ensures After(old(Live()), old(frames), old(recovery), out, 0) && lastPoint >= old(lastPoint)
      ensures out != Halted ==> Chain(p, old(exception), exception, out.Threw?) && Tried(p, [index], env)
      ensures out.Ok? ==> |p| == 1 && Args(p, [index], env) && ValueOf(p[0]).Int?
      decreases fuel
    {
      hide Tells, Chain, Derives, Rule, Args, Tried, Values;
      p := [];
      if fuel == 0 { return Halted, p; }
      ghost var was, chain, rec, ex := Live(), frames, recovery, exception;
      ghost var x, f;
      out, x := EvalExpression(env, index, fuel - 1);
      if out == Halted { return; }
      Piece(x, Expression(index), env, ex, exception, out.Threw?);
      OneArg(x, index, env);
      p := [x];
      if !out.Ok? { return; }
      Returned(was, chain, rec, 1);
      ghost var ex2 := exception;
      var i := Pop();
      var chance := AnyBool();
      if !i.Int? || chance {
        out, f := RuntimeError(env, fuel - 1);
        if out == Halted { return; }
        More(p, ex, f, Fault, env, ex2, exception, true);
        FaultTried(p, f, [index], env);
        p := p + [f];
      }
    }

    /** The array or the string of an index or a slice. */
    method EvalContainer(env: Env?, arr: Expr, ghost rest: seq<Expr>, arrayOnly: bool, fuel: nat)
      returns (out: Outcome, a: Val, ghost p: seq<Run>)
      requires Valid()
      modifies this
      ensures After(old(Live()), old(frames), old(recovery), out, 0) && lastPoint >= old(lastPoint)
      ensures out != Halted ==> Chain(p, old(exception), exception, out.Threw?) && Tried(p, [arr] + rest, env)
      ensures out.Ok? ==> |p| == 1 && Args(p, [arr], env) && ValueOf(p[0]) == a
      ensures out.Ok? ==> a == Arr || (a == Str && !arrayOnly)
      decreases fuel
    {
      hide Tells, Chain, Derives, Rule, Args, Tried, Values;
      a, p := Null, [];
      if fuel == 0 { return Halted, Null, p; }
      ghost var ex := exception;
      ghost var x, f;
      out, a, x := EvalOff(env, arr, fuel - 1);
      if out == Halted { return; }
      Piece(x, Expression(arr), env, ex, exception, out.Threw?);
      OneArg(x, arr, env);
      FirstArg(x, arr, rest, env);
      p := [x];
      if !out.Ok? { return; }
      ghost var ex2 := exception;
      if a != Arr && (a != Str || arrayOnly) {
        out, f := RuntimeError(env, fuel - 1);
        if out == Halted { return; }
        More(p, ex, f, Fault, env, ex2, exception, true);
        FaultTried(p, f, [arr] + rest, env);
        p := p + [f];
      }
    }

    /** `eval_index_expression` */
    method EvalIndex(env: Env?, arr: Expr, index: Expr, fuel: nat) returns (out: Outcome, ghost d: Run)
      requires Valid()
      modifies this
      ensures After(old(Live()), old(frames), old(recovery), out, 1) && lastPoint >= old(lastPoint)
      ensures out != Halted ==> Tells(d, Expression(Index(arr, index)), env, old(exception), exception, out.Threw?)
      ensures out.Ok? ==> d.end.Value? && Live() == old(Live()) + [d.end.v]
      decreases fuel
    {
      hide Interp.Valid, Interp.Live, ChainOf, Tells, Chain, Derives, Rule, Args, Tried, Values;
      d := *;
      ghost var was, chain, rec, ex := Live(), frames, recovery, exception;
      if fuel == 0 { return Halted, d; }
      var a;
      ghost var p;
      out, a, p := EvalContainer(env, arr, [index], false, fuel - 1);
      assert [arr] + [index] == [arr, index];
      Then(was, was, chain, rec, out, 0);
      if out == Halted { return; }
      if !out.Ok? {
        d := InTurnNode(Index(arr, index), env, ex, exception, p, true, Null);
        return;
      }
      Returned(was, chain, rec, 0);
      ghost var ex2 := exception;
      ghost var q;
      out, q := EvalSubscript(env, index, fuel - 1);
      Then(was, was, chain, rec, out, 0);
      if out == Halted { return; }
      Joined(p, ex, ex2, q, exception, out.Threw?);
      TriedJoined(p, [arr], q, [index], env);
      if !out.Ok? {
        d := InTurnNode(Index(arr, index), env, ex, exception, p + q, true, Null);
        return;
      }
      Returned(was, chain, rec, 0);
      assert p == [p[0]] && q == [q[0]];
      OneValue(p[0]);
      OneValue(q[0]);
      var v := AnyVal();
      Push(if a == Arr then v else Str);
      d := InTurnNode(Index(arr, index), env, ex, exception, p + q, false, if a == Arr then v else Str);
    }

    /** `eval_slice_expression` */
    method EvalSlice(env: Env?, arr: Expr, start: Option<Expr>, end: Option<Expr>, fuel: nat)
      returns (out: Outcome, ghost d: Run)
      requires Valid()
      modifies this
      ensures After(old(Live()), old(frames), old(recovery), out, 1) && lastPoint >= old(lastPoint)
      ensures out != Halted ==> Tells(d, Expression(Slice(arr, start, end)), env, old(exception), exception, out.Threw?)
      ensures out.Ok? ==> d.end.Value? && Live() == old(Live()) + [d.end.v]
      decreases fuel
    {
      hide Interp.Valid, Interp.Live, ChainOf, Tells, Chain, Derives, Rule, Args, Tried, Values, Bound;
      d := *;
      ghost var was, chain, rec, ex := Live(), frames, recovery, exception;
      if fuel == 0 { return Halted, d; }
      ghost var e := Slice(arr, start, end);
      var a;
      ghost var p;
      ghost var es := [arr] + Bound(start) + Bound(end);
      assert es == [arr] + (Bound(start) + Bound(end));
      out, a, p := EvalContainer(env, arr, Bound(start) + Bound(end), false, fuel - 1);
      Then(was, was, chain, rec, out, 0);
      if out == Halted { return; }
      if !out.Ok? {
        d := InTurnNode(e, env, ex, exception, p, true, Null);
        return;
      }
      Returned(was, chain, rec, 0);
      ghost var ex2 := exception;
      ghost var q;
      out, q := EvalBounds(env, start, end, fuel - 1);
      Then(was, was, chain, rec, out, 0);
      if out == Halted { return; }
      Joined(p, ex, ex2, q, exception, out.Threw?);
      TriedJoined(p, [arr], q, Bound(start) + Bound(end), env);
      if !out.Ok? {
        d := InTurnNode(e, env, ex, exception, p + q, true, Null);
        return;
      }
      Returned(was, chain, rec, 0);
      ghost var ex3 := exception;
      if * {
        ghost var f;
        out, f := RuntimeError(env, fuel - 1);
        if out == Halted { return; }
        More(p + q, ex, f, Fault, env, ex3, exception, true);
        FaultTried(p + q, f, es, env);
        d := InTurnNode(e, env, ex, exception, p + q + [f], true, Null);
        return;
      }
      assert p == [p[0]];
      ValuesSize(p + q);
      SliceFits(p[0], q, e, a);
      Push(a);
      d := InTurnNode(e, env, ex, exception, p + q, false, a);
    }

    /** The start and the end, as far as they are given. */
    method EvalBounds(env: Env?, start: Option<Expr>, end: Option<Expr>, fuel: nat)
      returns (out: Outcome, ghost p: seq<Run>)
      requires Valid()
      modifies this
      ensures After(old(Live()), old(frames), old(recovery), out, 0) && lastPoint >= old(lastPoint)
      ensures out != Halted ==>
        Chain(p, old(exception), exception, out.Threw?) && Tried(p, Bound(start) + Bound(end), env)
      ensures out.Ok? ==> |p| == |Bound(start) + Bound(end)| && Args(p, Bound(start) + Bound(end), env) && AllInts(p)
      decreases fuel
    {
      hide Interp.Valid, Interp.Live, ChainOf, Tells, Chain, Derives, Rule, Args, Tried, Values, Bound;
      p := [];
      if fuel == 0 { return Halted, p; }
      ghost var was, chain, rec, ex := Live(), frames, recovery, exception;
      out, p := EvalBound(env, start, fuel - 1);
      Then(was, was, chain, rec, out, 0);
      if out == Halted { return; }
      if !out.Ok? {
        TriedLonger(p, Bound(start), Bound(end), env);
        return;
      }
      Returned(was, chain, rec, 0);
      ghost var ex2 := exception;
      ghost var q;
      out, q := EvalBound(env, end, fuel - 1);
      Then(was, was, chain, rec, out, 0);
      if out == Halted { return; }
      Joined(p, ex, ex2, q, exception, out.Threw?);
      TriedJoined(p, Bound(start), q, Bound(end), env);
      p := p + q;
    }

    method EvalBound(env: Env?, bound: Option<Expr>, fuel: nat) returns (out: Outcome, ghost p: seq<Run>)
      requires Valid()
      modifies this
      ensures After(old(Live()), old(frames), old(recovery), out, 0) && lastPoint >= old(lastPoint)
      ensures out != Halted ==> Chain(p, old(exception), exception, out.Threw?) && Tried(p, Bound(bound), env)
      ensures out.Ok? ==> |p| == |Bound(bound)| && Args(p, Bound(bound), env) && AllInts(p)
      decreases fuel
    {
      hide Tells, Chain, Derives, Rule, Args, Tried, Values;
      p := [];
      if fuel == 0 { return Halted, p; }
      ghost var was, chain, rec, ex := Live(), frames, recovery, exception;
      NoPieces(ex);
      NoArgs([], env);
      out := Ok;
      if bound.Some? {
        ghost var x, f;
        out, x := EvalExpression(env, bound.value, fuel - 1);
        if out == Halted { return; }
        Piece(x, Expression(bound.value), env, ex, exception, out.Threw?);
        OneArg(x, bound.value, env);
        p := [x];
        if !out.Ok? { return; }
        Returned(was, chain, rec, 1);
        ghost var ex2 := exception;
        var v := Pop();
        if !v.Int? {
          out, f := RuntimeError(env, fuel - 1);
          if out == Halted { return; }
          More(p, ex, f, Fault, env, ex2, exception, true);
          FaultTried(p, f, [bound.value], env);
          p := p + [f];
        }
      }
    }

    /** An error, and nothing before it. */
    method OnlyFault(env: Env?, fuel: nat) returns (out: Outcome, ghost p: seq<Run>)
      requires Valid()
      modifies this
      ensures After(old(Live()), old(frames), old(recovery), out, 0) && lastPoint >= old(lastPoint) && !out.Ok?
      ensures forall k :: After(old(Live()), old(frames), old(recovery), out, k)
      ensures out != Halted ==> Chain(p, old(exception), exception, true)
      ensures out != Halted ==> |p| == 1 && p[0].what == Fault && forall es :: Tried(p, es, env)
      decreases fuel
    {
      hide Tells, Chain, Derives, Rule;
      p := [];
      ghost var ex := exception;
      if fuel == 0 { return Halted, p; }
      ghost var f;
      out, f := RuntimeError(env, fuel - 1);
      if out == Halted { return; }
      Piece(f, Fault, env, ex, exception, true);
      p := [f];
    }

    /** `get_lvalue` */
    method GetLvalue(env: Env?, e: Expr, fuel: nat) returns (out: Outcome, dest: Option<Val>, ghost p: seq<Run>)
      requires Valid()
      modifies this
      ensures After(old(Live()), old(frames), old(recovery), out, 0) && lastPoint >= old(lastPoint)
      ensures out != Halted ==> Chain(p, old(exception), exception, out.Threw?) && Tried(p, PlaceOf(e), env)
      ensures out.Ok? ==> |p| == |PlaceOf(e)| && Args(p, PlaceOf(e), env) && HasPlace(e)
      decreases fuel
    {
      hide Interp.Valid, Interp.Live, ChainOf, Tells, Chain, Derives, Rule, Args, Tried, Values;
      ghost var was, chain, rec, ex := Live(), frames, recovery, exception;
      dest, p := None, [];
      NoPieces(ex);
      NoArgs([], env);
      if fuel == 0 { return Halted, None, p; }
      match e
      case Identifier(_) =>
        out := Ok;
        if * {
          out, p := OnlyFault(env, fuel - 1);
          return;
        }
        dest := AnyOption();
      case Index(arr, index) =>
        var a;
        out, a, p := EvalContainer(env, arr, [index], true, fuel - 1);
        Then(was, was, chain, rec, out, 0);
        assert [arr] + [index] == [arr, index];
        if !out.Ok? { return; }
        Returned(was, chain, rec, 0);
        ghost var ex2 := exception;
        ghost var q;
        out, q := EvalSubscript(env, index, fuel - 1);
        Then(was, was, chain, rec, out, 0);
        if out == Halted { return; }
        Joined(p, ex, ex2, q, exception, out.Threw?);
        TriedJoined(p, [arr], q, [index], env);
        p := p + q;
        var v := AnyVal();
        dest := Some(v);
      case Member(of, _) =>
        var a;
        ghost var x, f;
        out, a, x := EvalOff(env, of, fuel - 1);
        Then(was, was, chain, rec, out, 0);
        if out == Halted { return; }
        Piece(x, Expression(of), env, ex, exception, out.Threw?);
        OneArg(x, of, env);
        p := [x];
        if !out.Ok? { return; }
        Returned(was, chain, rec, 0);
        ghost var ex2 := exception;
        var chance := AnyBool();
        if (a != Assoc && a != Module) || chance {
          out, f := RuntimeError(env, fuel - 1);
          if out == Halted { return; }
          More(p, ex, f, Fault, env, ex2, exception, true);
          FaultTried(p, f, [of], env);
          p := p + [f];
          return;
        }
        dest := AnyOption();
      case _ =>
        out, p := OnlyFault(env, fuel - 1);
    }

    /** `eval_inc_dec_expression` */
    method EvalIncDec(env: Env?, operand: Expr, fuel: nat) returns (out: Outcome, ghost d: Run)
      requires Valid()
      modifies this
      ensures After(old(Live()), old(frames), old(recovery), out, 1) && lastPoint >= old(lastPoint)
      ensures out != Halted ==> Tells(d, Expression(IncDec(operand)), env, old(exception), exception, out.Threw?)
      ensures out.Ok? ==> d.end.Value? && Live() == old(Live()) + [d.end.v]
      decreases fuel
    {
      hide Tells, Chain, Derives, Rule, Args, Tried, Values;
      d := *;
      if fuel == 0 { return Halted, d; }
      ghost var was, chain, rec, ex := Live(), frames, recovery, exception;
      var dest;
      ghost var p, f;
      out, dest, p := GetLvalue(env, operand, fuel - 1);
      Then(was, was, chain, rec, out, 0);
      if out == Halted { return; }
      if !out.Ok? {
        d := InTurnNode(IncDec(operand), env, ex, exception, p, true, Null);
        return;
      }
      Returned(was, chain, rec, 0);
      ghost var ex2 := exception;
      if dest.None? || !dest.value.Int? {
        out, f := RuntimeError(env, fuel - 1);
        if out == Halted { return; }
        More(p, ex, f, Fault, env, ex2, exception, true);
        FaultTried(p, f, PlaceOf(operand), env);
        d := InTurnNode(IncDec(operand), env, ex, exception, p + [f], true, Null);
        return;
      }
      ValuesSize(p);
      d := InTurnNode(IncDec(operand), env, ex, exception, p, false, dest.value);
      Push(dest.value);
    }

    /** The rest of it, with the value on the stack. */
    method AssignTo(env: Env?, normal: bool, target: Expr, fuel: nat) returns (out: Outcome, ghost p: seq<Run>)
      requires Valid()
      modifies this
      ensures After(old(Live()), old(frames), old(recovery), out, 0) && lastPoint >= old(lastPoint)
      ensures out != Halted ==> Chain(p, old(exception), exception, out.Threw?) && Tried(p, PlaceOf(target), env)
      ensures out.Ok? ==> |p| == |PlaceOf(target)| && Args(p, PlaceOf(target), env) && HasPlace(target)
      decreases fuel
    {
      hide Tells, Chain, Derives, Rule, Args, Tried, Values;
      p := [];
      if fuel == 0 { return Halted, p; }
      ghost var was, chain, rec, ex := Live(), frames, recovery, exception;
      if target.Member? {
        out, p := AssignToMember(env, normal, target.of, fuel - 1);
        return;
      }
      var dest;
      out, dest, p := GetLvalue(env, target, fuel - 1);
      if !out.Ok? { return; }
      Returned(was, chain, rec, 0);
      ghost var ex2 := exception;
      ghost var q: seq<Run> := [];
      NoPieces(ex2);
      NoArgs([], env);
      var chance := AnyBool();
      if dest.Some? {
        out, q := DoAssign(env, normal, fuel - 1);
      } else if !normal || (env == null && chance) {
        out, q := OnlyFault(env, fuel - 1);
      }
      Then(was, was, chain, rec, out, 0);
      if out == Halted { return; }
      Joined(p, ex, ex2, q, exception, out.Threw?);
      TriedJoined(p, PlaceOf(target), q, [], env);
      assert PlaceOf(target) + [] == PlaceOf(target);
      p := p + q;
    }

    /** `eval_assign_expression`: the value assigned stays on the stack as the value of the assignment. */
    method EvalAssign(env: Env?, normal: bool, target: Expr, operand: Expr, fuel: nat)
      returns (out: Outcome, ghost d: Run)
      requires Valid()
      modifies this
      ensures After(old(Live()), old(frames), old(recovery), out, 1) && lastPoint >= old(lastPoint)
      ensures out != Halted ==>
        Tells(d, Expression(Assign(normal, target, operand)), env, old(exception), exception, out.Threw?)
      ensures out.Ok? ==> d.end.Value? && Live() == old(Live()) + [d.end.v]
      decreases fuel
    {
      hide Tells, Chain, Derives, Rule, Args, Tried, Values;
      d := *;
      if fuel == 0 { return Halted, d; }
      ghost var was, chain, rec, ex := Live(), frames, recovery, exception;
      ghost var e := Assign(normal, target, operand);
      ghost var x, q;
      out, x := EvalExpression(env, operand, fuel - 1);
      if out == Halted { return; }
      Piece(x, Expression(operand), env, ex, exception, out.Threw?);
      OneArg(x, operand, env);
      FirstArg(x, operand, PlaceOf(target), env);
      if !out.Ok? {
        d := InTurnNode(e, env, ex, exception, [x], true, Null);
        return;
      }
      Returned(was, chain, rec, 1);
      ghost var mid, ex2 := Live(), exception;
      out, q := AssignTo(env, normal, target, fuel - 1);
      Then(was, mid, chain, rec, out, 0);
      if out == Halted { return; }
      Joined([x], ex, ex2, q, exception, out.Threw?);
      TriedJoined([x], [operand], q, PlaceOf(target), env);
      ValuesSize([x] + q);
      if out.Ok? { Returned(mid, chain, rec, 0); }
      d := InTurnNode(e, env, ex, exception, [x] + q, out.Threw?, ValueOf(x));
    }

    /** `do_assign`: a plain assignment cannot fail. */
    method DoAssign(env: Env?, normal: bool, fuel: nat) returns (out: Outcome, ghost p: seq<Run>)
      requires Valid()
      modifies this
      ensures After(old(Live()), old(frames), old(recovery), out, 0) && lastPoint >= old(lastPoint)
      ensures out != Halted ==> Chain(p, old(exception), exception, out.Threw?) && Tried(p, [], env)
      ensures out.Ok? ==> p == [] && Args(p, [], env)
      ensures normal && fuel > 0 ==> out.Ok?
      decreases fuel
    {
      hide Tells, Chain, Derives, Rule, Args, Tried;
      p := [];
      if fuel == 0 { return Halted, p; }
      NoPieces(exception);
      NoArgs([], env);
      out := Ok;
      var chance := AnyBool();
      if !normal && chance {
        out, p := OnlyFault(env, fuel - 1);
      }
    }

    /** `assign_to_member` */
    method AssignToMember(env: Env?, normal: bool, of: Expr, fuel: nat) returns (out: Outcome, ghost p: seq<Run>)
      requires Valid()
      modifies this
      ensures After(old(Live()), old(frames), old(recovery), out, 0) && lastPoint >= old(lastPoint)
      ensures out != Halted ==> Chain(p, old(exception), exception, out.Threw?) && Tried(p, [of], env)
      ensures out.Ok? ==> |p| == 1 && Args(p, [of], env)
      decreases fuel
    {
      hide Interp.Valid, Interp.Live, ChainOf, Tells, Chain, Derives, Rule, Args, Tried, Values;
      p := [];
      ghost var was, chain, rec, ex := Live(), frames, recovery, exception;
      if fuel == 0 { return Halted, p; }
      ghost var x: Run;
      ghost var q: seq<Run> := [];
      out, x := EvalExpression(env, of, fuel - 1);
      Then(was, was, chain, rec, out, 1);
      if out == Halted { return; }
      Piece(x, Expression(of), env, ex, exception, out.Threw?);
      OneArg(x, of, env);
      p := [x];
      if !out.Ok? { return; }
      Returned(was, chain, rec, 1);
      ghost var mid, ex2 := Live(), exception;
      var assoc := Peek(0);
      var found := AnyOption();
      var chance := AnyBool();
      NoPieces(ex2);
      NoArgs([], env);
      if (assoc != Assoc && assoc != Module) || (found.None? && !normal) || chance {
        out, q := OnlyFault(env, fuel - 1);
      } else if found.Some? {
        out, q := DoAssign(env, normal, fuel - 1);
      }
      Then(was, mid, chain, rec, out, 0);
      if out == Halted { return; }
      Joined(p, ex, ex2, q, exception, out.Threw?);
      TriedJoined(p, [of], q, [], env);
      assert [of] + [] == [of];
      p := p + q;
      if !out.Ok? { return; }
      Returned(mid, chain, rec, 0);
      Shrink(1);
      Settled(was, chain, rec, 0);
    }

    // -------------------------------------------------------------- statements

    /** `crb_eval_expression` */
    method EvalOff(env: Env?, e: Expr, fuel: nat) returns (out: Outcome, v: Val, ghost d: Run)
      requires Valid()
      modifies this
      ensures After(old(Live()), old(frames), old(recovery), out, 0) && lastPoint >= old(lastPoint)
      ensures out != Halted ==> Tells(d, Expression(e), env, old(exception), exception, out.Threw?)
      ensures out.Ok? ==> d.end == Value(v)
      decreases fuel
    {
      hide Tells;
      d := *;
      v := Null;
      if fuel == 0 { return Halted, Null, d; }
      ghost var was, chain, rec := Live(), frames, recovery;
      out, d := EvalExpression(env, e, fuel - 1);
      Then(was, was, chain, rec, out, 1);
      if !out.Ok? { return; }
      Returned(was, chain, rec, 1);
      v := Pop();
    }

    /** The value of a condition, which has to be a boolean. */
    method EvalCondition(env: Env?, e: Expr, fuel: nat) returns (out: Outcome, holds: bool, ghost p: seq<Run>)
      requires Valid()
      modifies this
      ensures After(old(Live()), old(frames), old(recovery), out, 0) && lastPoint >= old(lastPoint)
      ensures out != Halted ==>
        Chain(p, old(exception), exception, out.Threw?) && Condition(p, e, env, out.Threw?, holds)
      decreases fuel
    {
      hide Tells, Chain, Derives, Rule;
      holds, p := false, [];
      if fuel == 0 { return Halted, false, p; }
      ghost var ex := exception;
      var v;
      ghost var x, f;
      out, v, x := EvalOff(env, e, fuel - 1);
      if out == Halted { return; }
      Piece(x, Expression(e), env, ex, exception, out.Threw?);
      p := [x];
      if !out.Ok? { return; }
      ghost var ex2 := exception;
      if !v.Bool? {
        out, f := RuntimeError(env, fuel - 1);
        if out == Halted { return; }
        More(p, ex, f, Fault, env, ex2, exception, true);
        p := p + [f];
        return;
      }
      holds := v.b;
    }

    /** `crb_execute_statement_list` */
    method ExecList(env: Env?, list: seq<Stmt>, fuel: nat) returns (out: Outcome, res: Completion, ghost d: Run)
      requires Valid()
      modifies this
      ensures After(old(Live()), old(frames), old(recovery), out, 0) && lastPoint >= old(lastPoint)
      ensures out != Halted ==> Tells(d, List(list), env, old(exception), exception, out.Threw?)
      ensures out.Ok? ==> d.end == Done(res)
      decreases fuel
    {
      hide Tells, Chain, Derives, Rule;
      d := *;
      res := Normal;
      if fuel == 0 { return Halted, Normal, d; }
      ghost var was, chain, rec, ex := Live(), frames, recovery, exception;
      ghost var p: seq<Run> := [];
      NoPieces(ex);
      out := Ok;
      for i := 0 to |list|
        invariant After(was, chain, rec, Ok, 0) && lastPoint >= old(lastPoint) && res == Normal
        invariant Chain(p, ex, exception, false) && |p| == i
        invariant forall k :: 0 <= k < |p| ==> In(p[k], Statement(list[k]), env) && p[k].end == Done(Normal)
      {
        Returned(was, chain, rec, 0);
        ghost var ex2 := exception;
        ghost var x;
        out, res, x := ExecStatement(env, list[i], fuel - 1);
        Then(was, was, chain, rec, out, 0);
        if out == Halted { return; }
        More(p, ex, x, Statement(list[i]), env, ex2, exception, out.Threw?);
        p := p + [x];
        if !out.Ok? || !res.Normal? {
          d := ListNode(list, env, ex, exception, p, out.Threw?, res);
          return;
        }
      }
      out := Ok;
      d := ListNode(list, env, ex, exception, p, false, Normal);
    }

    /** `execute_statement` */
    method ExecStatement(env: Env?, s: Stmt, fuel: nat) returns (out: Outcome, res: Completion, ghost d: Run)
      requires Valid()
      modifies this
      ensures After(old(Live()), old(frames), old(recovery), out, 0) && lastPoint >= old(lastPoint)
      ensures out != Halted ==> Tells(d, Statement(s), env, old(exception), exception, out.Threw?)
      ensures out.Ok? ==> d.end == Done(res)
      decreases fuel
    {
      hide Tells, Chain, Derives, Rule, Tried, Args;
      d := *;
      res := Normal;
      if fuel == 0 { return Halted, Normal, d; }
      match s
      case ExprStmt(e) =>
        out, d := ExecExpression(env, e, fuel - 1);
      case Global(_) =>
        out, d := ExecGlobal(env, s, fuel - 1);
      case Return(e) =>
        out, res, d := ExecReturn(env, e, fuel - 1);
      case If(cond, thenBlock, elifs, elseBlock) =>
        out, res, d := ExecIf(env, cond, thenBlock, elifs, elseBlock, fuel - 1);
      case While(to, cond, body) =>
        out, res, d := ExecWhile(env, to, cond, body, fuel - 1);
      case For(to, init, cond, post, body) =>
        out, res, d := ExecFor(env, to, init, cond, post, body, fuel - 1);
      case Foreach(to, collection, body) =>
        out, res, d := ExecForeach(env, to, collection, body, fuel - 1);
      case Break(to) =>
        d := LeafNode(s, env, exception);
        out, res := Ok, Broke(to);
      case Continue(to) =>
        d := LeafNode(s, env, exception);
        out, res := Ok, Continued(to);
      case Try(tryBlock, catchBlock, finallyBlock) =>
        out, res, d := ExecTry(env, tryBlock, catchBlock, finallyBlock, fuel - 1);
      case Throw(e) =>
        out, d := ExecThrow(env, e, fuel - 1);
    }

    /** `execute_expression_statement` */
    method ExecExpression(env: Env?, e: Expr, fuel: nat) returns (out: Outcome, ghost d: Run)
      requires Valid()
      modifies this
      ensures After(old(Live()), old(frames), old(recovery), out, 0) && lastPoint >= old(lastPoint)
      ensures out != Halted ==> Tells(d, Statement(ExprStmt(e)), env, old(exception), exception, out.Threw?)
      ensures out.Ok? ==> d.end == Done(Normal)
      decreases fuel
    {
      hide Tells, Chain, Derives, Rule, Tried, Args;
      d := *;
      if fuel == 0 { return Halted, d; }
      ghost var ex := exception;
      var dummy;
      ghost var x;
      out, dummy, x := EvalOff(env, e, fuel - 1);
      if out == Halted { return; }
      Piece(x, Expression(e), env, ex, exception, out.Threw?);
      OneArg(x, e, env);
      d := PlainNode(ExprStmt(e), env, ex, exception, [x], out.Threw?);
    }

    /** `execute_global_statement` */
    method ExecGlobal(env: Env?, ghost s: Stmt, fuel: nat) returns (out: Outcome, ghost d: Run)
      requires Valid() && s.Global?
      modifies this
      ensures After(old(Live()), old(frames), old(recovery), out, 0) && lastPoint >= old(lastPoint)
      ensures out != Halted ==> Tells(d, Statement(s), env, old(exception), exception, out.Threw?)
      ensures out.Ok? ==> d.end == Done(Normal)
      decreases fuel
    {
      hide Tells, Chain, Derives, Rule, Tried, Args;
      d := *;
      if fuel == 0 { return Halted, d; }
      ghost var ex := exception;
      ghost var p: seq<Run> := [];
      NoPieces(ex);
      NoArgs([], env);
      out := Ok;
      var chance := AnyBool();
      if env == null || chance {
        out, p := OnlyFault(env, fuel - 1);
        if out == Halted { return; }
      }
      d := PlainNode(s, env, ex, exception, p, out.Threw?);
    }

    /** `execute_return_statement`: the result is marked before the value is computed. */
    method ExecReturn(env: Env?, e: Option<Expr>, fuel: nat) returns (out: Outcome, res: Completion, ghost d: Run)
      requires Valid()
      modifies this
      ensures After(old(Live()), old(frames), old(recovery), out, 0) && lastPoint >= old(lastPoint)
      ensures out != Halted ==> Tells(d, Statement(Return(e)), env, old(exception), exception, out.Threw?)
      ensures out.Ok? ==> d.end == Done(res)
      ensures res.Returned? && (out.Ok? && e.None? ==> res.value == Null)
      decreases fuel
    {
      hide Tells, Chain, Derives, Rule, Tried, Args;
      d := *;
      var garbage := AnyVal();
      res := Completion.Returned(garbage);
      if fuel == 0 { return Halted, res, d; }
      ghost var ex := exception;
      ghost var x, p: seq<Run>;
      p := [];
      NoPieces(ex);
      NoArgs([], env);
      out := Ok;
      var v := Null;
      if e.Some? {
        out, v, x := EvalOff(env, e.value, fuel - 1);
        if out == Halted { return; }
        Piece(x, Expression(e.value), env, ex, exception, out.Threw?);
        OneArg(x, e.value, env);
        p := [x];
      }
      d := PlainNode(Return(e), env, ex, exception, p, out.Threw?);
      if !out.Ok? { return; }
      res := Completion.Returned(v);
    }

    /** `execute_if_statement` */
    method ExecIf(env: Env?, cond: Expr, thenBlock: seq<Stmt>, elifs: seq<(Expr, seq<Stmt>)>,
                  elseBlock: Option<seq<Stmt>>, fuel: nat)
      returns (out: Outcome, res: Completion, ghost d: Run)
      requires Valid()
      modifies this
      ensures After(old(Live()), old(frames), old(recovery), out, 0) && lastPoint >= old(lastPoint)
      ensures out != Halted ==>
        Tells(d, Statement(If(cond, thenBlock, elifs, elseBlock)), env, old(exception), exception, out.Threw?)
      ensures out.Ok? ==> d.end == Done(res)
      decreases fuel
    {
      hide Tells, Chain, Derives, Rule, ArmsDone, BlockRan, Guarded;
      d := *;
      res := Normal;
      if fuel == 0 { return Halted, Normal, d; }
      ghost var was, chain, rec, ex := Live(), frames, recovery, exception;
      ghost var c, b;
      var holds;
      out, holds, c := EvalCondition(env, cond, fuel - 1);
      Then(was, was, chain, rec, out, 0);
      if out == Halted { return; }
      if !out.Ok? {
        NotGuarded(c, cond, thenBlock, env, holds);
        d := IfFirst(cond, thenBlock, elifs, elseBlock, env, ex, exception, c, true, Raised);
        return;
      }
      Returned(was, chain, rec, 0);
      ghost var ex2 := exception;
      if holds {
        out, res, b := ExecList(env, thenBlock, fuel - 1);
        if out == Halted { return; }
        More(c, ex, b, List(thenBlock), env, ex2, exception, out.Threw?);
        assert c + [b] == [c[0], b];
        GuardedRan(c[0], b, cond, thenBlock, env);
        d := IfFirst(cond, thenBlock, elifs, elseBlock, env, ex, exception, c + [b], out.Threw?, b.end);
        return;
      }
      var executed;
      ghost var q, i, tail;
      out, executed, res, q, i, tail := ExecElifs(env, elifs, fuel - 1);
      Then(was, was, chain, rec, out, 0);
      if out == Halted { return; }
      Joined(c, ex, ex2, q + tail, exception, out.Threw?);
      assert c == [c[0]] && c + (q + tail) == [c[0]] + q + tail;
      if !out.Ok? || !res.Normal? {
        d := IfOther(cond, thenBlock, elifs, elseBlock, env, ex, exception, c[0], q, i, tail, out.Threw?,
                     Ended(out.Threw?, Done(res)));
        return;
      }
      Returned(was, chain, rec, 0);
      ghost var ex3 := exception;
      if !executed && elseBlock.Some? {
        out, res, b := ExecList(env, elseBlock.value, fuel - 1);
        if out == Halted { return; }
        More(c + (q + tail), ex, b, List(elseBlock.value), env, ex3, exception, out.Threw?);
        assert c + (q + tail) + [b] == [c[0]] + q + [b];
        d := IfOther(cond, thenBlock, elifs, elseBlock, env, ex, exception, c[0], q, i, [b], out.Threw?, b.end);
        return;
      }
      d := IfOther(cond, thenBlock, elifs, elseBlock, env, ex, exception, c[0], q, i, [], false, Done(Normal));
    }

    /** `execute_elif`: every branch whose condition holds runs, not only the first. */
    method ExecElifs(env: Env?, elifs: seq<(Expr, seq<Stmt>)>, fuel: nat)
      returns (out: Outcome, executed: bool, res: Completion, ghost q: seq<Run>, ghost n: nat, ghost tail: seq<Run>)
      requires Valid()
      modifies this
      ensures After(old(Live()), old(frames), old(recovery), out, 0) && lastPoint >= old(lastPoint)
      ensures out != Halted ==>
        && Chain(q + tail, old(exception), exception, out.Threw?)
        && n <= |elifs| && ArmsDone(q, elifs, n, env)
        && if out.Ok? && res.Normal? then n == |elifs| && tail == [] && (executed <==> BlockRan(q))
           else n < |elifs| && Guarded(tail, elifs[n].0, elifs[n].1, env, Ended(out.Threw?, Done(res)))
      decreases fuel
    {
      hide Tells, Chain, Derives, Rule, ArmsDone, BlockRan, Guarded;
      executed, res := false, Normal;
      q, n, tail := [], 0, [];
      if fuel == 0 { return Halted, false, Normal, q, n, tail; }
      ghost var was, chain, rec, ex := Live(), frames, recovery, exception;
      NoPieces(ex);
      NoArms(elifs, env);
      for i := 0 to |elifs|
        invariant After(was, chain, rec, Ok, 0) && lastPoint >= old(lastPoint) && res == Normal
        invariant Chain(q, ex, exception, false) && ArmsDone(q, elifs, i, env) && (executed <==> BlockRan(q))
      {
        Returned(was, chain, rec, 0);
        n := i;
        ghost var ex2 := exception;
        ghost var c, b;
        var holds;
        out, holds, c := EvalCondition(env, elifs[i].0, fuel - 1);
        Then(was, was, chain, rec, out, 0);
        if out == Halted { return; }
        Joined(q, ex, ex2, c, exception, out.Threw?);
        if !out.Ok? {
          tail := c;
          NotGuarded(c, elifs[i].0, elifs[i].1, env, holds);
          return;
        }
        Returned(was, chain, rec, 0);
        assert c == [c[0]];
        if holds {
          ghost var ex3 := exception;
          out, res, b := ExecList(env, elifs[i].1, fuel - 1);
          executed := true;
          Then(was, was, chain, rec, out, 0);
          if out == Halted { return; }
          More(q + c, ex, b, List(elifs[i].1), env, ex3, exception, out.Threw?);
          assert q + c + [b] == q + [c[0], b];
          GuardedRan(c[0], b, elifs[i].0, elifs[i].1, env);
          if !out.Ok? || !res.Normal? {
            tail := [c[0], b];
            assert c + [b] == tail;
            return;
          }
          ArmRanMore(q, c[0], b, elifs, i, env);
          q := q + [c[0], b];
        } else {
          ArmPassedMore(q, c[0], elifs, i, env);
          q := q + [c[0]];
        }
      }
      n := |elifs|;
      assert q + [] == q;
      out := Ok;
    }

    /** `execute_while_statement` */
    method ExecWhile(env: Env?, to: Option<string>, cond: Expr, body: seq<Stmt>, fuel: nat)
      returns (out: Outcome, res: Completion, ghost d: Run)
      requires Valid()
      modifies this
      ensures After(old(Live()), old(frames), old(recovery), out, 0) && lastPoint >= old(lastPoint)
      ensures out != Halted ==> Tells(d, Statement(While(to, cond, body)), env, old(exception), exception, out.Threw?)
      ensures out.Ok? ==> d.end == Done(res)
      ensures out.Ok? ==> LeavesLoop(res, to)
      decreases fuel
    {
      hide Tells, Chain, Derives, Rule, Looped;
      d := *;
      res := Normal;
      if fuel == 0 { return Halted, Normal, d; }
      ghost var ex := exception;
      ghost var p;
      out, res, p := RunLoop(env, to, Tested(Some(cond), None), body, fuel - 1);
      if out == Halted { return; }
      assert [] + p == p;
      d := LoopNode(While(to, cond, body), env, ex, exception, [], p, out.Threw?, Ended(out.Threw?, Done(res)));
    }

    /** `execute_for_statement` */
    method ExecFor(env: Env?, to: Option<string>, init: Option<Expr>, cond: Option<Expr>, post: Option<Expr>,
                   body: seq<Stmt>, fuel: nat)
      returns (out: Outcome, res: Completion, ghost d: Run)
      requires Valid()
      modifies this
      ensures After(old(Live()), old(frames), old(recovery), out, 0) && lastPoint >= old(lastPoint)
      ensures out != Halted ==>
        Tells(d, Statement(For(to, init, cond, post, body)), env, old(exception), exception, out.Threw?)
      ensures out.Ok? ==> d.end == Done(res)
      ensures out.Ok? ==> LeavesLoop(res, to)
      decreases fuel
    {
      hide Tells, Chain, Derives, Rule, Looped;
      d := *;
      res := Normal;
      if fuel == 0 { return Halted, Normal, d; }
      ghost var was, chain, rec, ex := Live(), frames, recovery, exception;
      ghost var s := For(to, init, cond, post, body);
      ghost var x, p;
      ghost var pre: seq<Run> := [];
      NoPieces(ex);
      if init.Some? {
        var dummy;
        out, dummy, x := EvalOff(env, init.value, fuel - 1);
        Then(was, was, chain, rec, out, 0);
        if out == Halted { return; }
        Piece(x, Expression(init.value), env, ex, exception, out.Threw?);
        pre := [x];
        if !out.Ok? {
          d := LoopFails(s, env, ex, exception, pre);
          return;
        }
        Returned(was, chain, rec, 0);
      }
      ghost var ex2 := exception;
      out, res, p := RunLoop(env, to, Tested(cond, post), body, fuel - 1);
      Then(was, was, chain, rec, out, 0);
      if out == Halted { return; }
      Joined(pre, ex, ex2, p, exception, out.Threw?);
      d := LoopNode(s, env, ex, exception, pre, p, out.Threw?, Ended(out.Threw?, Done(res)));
    }

    /** The collection, its iterator and the variable. */
    method OpenIterator(env: Env?, collection: Expr, fuel: nat)
      returns (out: Outcome, cursor: Val, ghost pre: seq<Run>)
      requires Valid()
      modifies this
      ensures After(old(Live()), old(frames), old(recovery), out, 2) && lastPoint >= old(lastPoint)
      ensures out != Halted ==>
        && Chain(pre, old(exception), exception, out.Threw?) && 1 <= |pre| <= 3
        && In(pre[0], Expression(collection), env) && (|pre| >= 2 ==> pre[1].what == MemberCalled)
        && (|pre| == 3 ==> pre[2].what == Fault)
      ensures out.Ok? ==> |pre| == 2 && !pre[0].end.Raised? && !pre[1].end.Raised?
      decreases fuel
    {
      hide Interp.Valid, Interp.Live, ChainOf, Tells, Chain, Derives, Rule;
      ghost var was, chain, rec, ex := Live(), frames, recovery, exception;
      cursor, pre := Null, [];
      if fuel == 0 { return Halted, Null, pre; }
      ghost var x, y, f;
      out, x := EvalExpression(env, collection, fuel - 1);
      Then(was, was, chain, rec, out, 1);
      if out == Halted { return; }
      Piece(x, Expression(collection), env, ex, exception, out.Threw?);
      pre := [x];
      if !out.Ok? { return; }
      Returned(was, chain, rec, 1);
      ghost var mid, ex2 := Live(), exception;
      out, cursor, y := CallMember(env, fuel - 1);
      Then(was, mid, chain, rec, out, 0);
      if out == Halted { return; }
      More(pre, ex, y, MemberCalled, env, ex2, exception, out.Threw?);
      pre := pre + [y];
      if !out.Ok? { return; }
      Returned(mid, chain, rec, 0);
      Push(cursor);
      mid := Live();
      ghost var ex3 := exception;
      out, f := AssignToVariable(env, fuel - 1);
      Then(was, mid, chain, rec, out, 0);
      if out == Halted || out.Ok? { return; }
      More(pre, ex, f, Fault, env, ex3, exception, true);
      pre := pre + [f];
    }

    /** The loop that `execute_while_statement`, `execute_for_statement` and `execute_foreach_statement` share. */
    method RunLoop(env: Env?, to: Option<string>, c: Cycle, body: seq<Stmt>, fuel: nat)
      returns (out: Outcome, res: Completion, ghost p: seq<Run>)
      requires Valid()
      modifies this
      ensures After(old(Live()), old(frames), old(recovery), out, 0) && lastPoint >= old(lastPoint)
      ensures out != Halted ==> Chain(p, old(exception), exception, out.Threw?)
      ensures out != Halted ==> Looped(p, c, to, body, env, Ended(out.Threw?, Done(res)))
      ensures out.Ok? ==> LeavesLoop(res, to)
      decreases fuel
    {
      hide *;
      ghost var was, chain, rec, ex := Live(), frames, recovery, exception;
      res, p := Normal, [];
      Halting(was, chain, rec);
      if fuel == 0 { return Halted, Normal, p; }
      Settled(was, chain, rec, 0);
      ghost var n: nat := 0;
      NoPieces(ex);
      NoRounds(c, to, body, env);
      Unlooped(to);
      var f: nat := fuel - 1;
      while true
        invariant f < fuel && After(was, chain, rec, Ok, 0) && lastPoint >= old(lastPoint) && LeavesLoop(res, to)
        invariant Chain(p, ex, exception, false) && Rounds(p, n, c, body, env) && res == LeftBehind(p, c, to)
        decreases f
      {
        Returned(was, chain, rec, 0);
        Halting(was, chain, rec);
        if f == 0 { return Halted, res, p; }
        ghost var q, ex2 := p, exception;
        ghost var t, b, u;
        var holds, goesOn;
        out, holds, t := LoopTest(env, c, f);
        Then(was, was, chain, rec, out, 0);
        if out == Halted { return; }
        Joined(q, ex, ex2, t, exception, out.Threw?);
        p := q + t;
        if !out.Ok? || !holds {
          TestEnds(t, c, to, body, env, res, Ended(out.Threw?, Done(res)));
          LoopedBy(q, n, t, c, to, body, env, Ended(out.Threw?, Done(res)));
          return;
        }
        Returned(was, chain, rec, 0);
        ghost var left, ex3 := res, exception;
        out, res, goesOn, b := LoopBody(env, to, body, f);
        Then(was, was, chain, rec, out, 0);
        if out == Halted { return; }
        More(p, ex, b, List(body), env, ex3, exception, out.Threw?);
        assert p + [b] == q + (t + [b]);
        p := q + (t + [b]);
        if !out.Ok? || !goesOn {
          NotGoing(b);
          BodyEnds(t, b, c, to, body, env, left, out.Threw?, res);
          LoopedBy(q, n, t + [b], c, to, body, env, Ended(out.Threw?, Done(res)));
          return;
        }
        Returned(was, chain, rec, 0);
        ghost var ex4 := exception;
        out, u := LoopStep(env, c, f);
        Then(was, was, chain, rec, out, 0);
        if out == Halted { return; }
        Joined(p, ex, ex4, u, exception, out.Threw?);
        assert p + u == q + (t + [b] + u);
        p := q + (t + [b] + u);
        if !out.Ok? {
          assert u == [u[0]];
          StepEnds(t, b, u[0], c, to, body, env, left);
          EndedIs(true, Done(res));
          LoopedBy(q, n, t + [b] + u, c, to, body, env, Ended(true, Done(res)));
          return;
        }
        RoundEnds(q, n, t, b, u, c, to, body, env);
        n := n + 1;
        f := f - 1;
      }
    }

    /** Whether there is another round. */
    method LoopTest(env: Env?, c: Cycle, fuel: nat) returns (out: Outcome, holds: bool, ghost t: seq<Run>)
      requires Valid()
      modifies this
      ensures After(old(Live()), old(frames), old(recovery), out, 0) && lastPoint >= old(lastPoint)
      ensures out != Halted ==> Chain(t, old(exception), exception, out.Threw?)
      ensures out.Ok? && holds ==> |t| == TestCount(c) && Tests(t, c, env)
      ensures out != Halted && (out.Ok? ==> !holds) ==>
        forall res :: Stopped(t, c, env, res, Ended(out.Threw?, Done(res)))
      decreases fuel
    {
      hide Tells, Chain, Derives, Rule;
      holds, t := true, [];
      if fuel == 0 { return Halted, true, t; }
      if c.Iterated? {
        out, holds, t := NextItem(env, fuel - 1);
        return;
      }
      NoPieces(exception);
      out := Ok;
      if c.cond.Some? {
        out, holds, t := EvalCondition(env, c.cond.value, fuel - 1);
      }
    }

    /** The iterator is asked whether it is done and, if it is not, for its item. */
    method NextItem(env: Env?, fuel: nat) returns (out: Outcome, holds: bool, ghost t: seq<Run>)
      requires Valid()
      modifies this
      ensures After(old(Live()), old(frames), old(recovery), out, 0) && lastPoint >= old(lastPoint)
      ensures out != Halted ==> Chain(t, old(exception), exception, out.Threw?)
      ensures out.Ok? && holds ==> |t| == 2 && Tests(t, Iterated, env)
      ensures out != Halted && (out.Ok? ==> !holds) ==>
        forall res :: Stopped(t, Iterated, env, res, Ended(out.Threw?, Done(res)))
      decreases fuel
    {
      hide Tells, Chain, Derives, Rule;
      holds, t := false, [];
      if fuel == 0 { return Halted, false, t; }
      ghost var was, chain, rec, ex := Live(), frames, recovery, exception;
      var v, item;
      ghost var x, y;
      out, v, x := CallMember(env, fuel - 1);
      Then(was, was, chain, rec, out, 0);
      if out == Halted { return; }
      Piece(x, MemberCalled, env, ex, exception, out.Threw?);
      t := [x];
      if !out.Ok? { return; }
      Returned(was, chain, rec, 0);
      ghost var ex2 := exception;
      if !v.Bool? {
        out, y := RuntimeError(env, fuel - 1);
        if out == Halted { return; }
        More(t, ex, y, Fault, env, ex2, exception, true);
        t := t + [y];
        return;
      }
      if v.b { return; }
      out, item, y := CallMember(env, fuel - 1);
      if out == Halted { return; }
      More(t, ex, y, MemberCalled, env, ex2, exception, out.Threw?);
      t := t + [y];
      holds := true;
    }

    /** The body, and what its end means to the loop. */
    method LoopBody(env: Env?, to: Option<string>, body: seq<Stmt>, fuel: nat)
      returns (out: Outcome, res: Completion, goesOn: bool, ghost b: Run)
      requires Valid()
      modifies this
      ensures After(old(Live()), old(frames), old(recovery), out, 0) && lastPoint >= old(lastPoint)
      ensures out != Halted ==> Tells(b, List(body), env, old(exception), exception, out.Threw?)
      ensures out.Ok? ==> b.end.Done? && res == LeftOver(b.end.res, to) && LeavesLoop(res, to)
      ensures out.Ok? ==> (goesOn <==> GoesOn(b.end))
      decreases fuel
    {
      hide Tells, Derives, Rule;
      b := *;
      res, goesOn := Normal, false;
      if fuel == 0 { return Halted, Normal, false, b; }
      out, res, b := ExecList(env, body, fuel - 1);
      if res.Returned? {
        return;
      } else if res.Broke? {
        res := CompareLabels(res.to, to, res);
        return;
      } else if res.Continued? {
        res := CompareLabels(res.to, to, res);
      }
      goesOn := true;
    }

    /** What comes after the body. */
    method LoopStep(env: Env?, c: Cycle, fuel: nat) returns (out: Outcome, ghost u: seq<Run>)
      requires Valid()
      modifies this
      ensures After(old(Live()), old(frames), old(recovery), out, 0) && lastPoint >= old(lastPoint)
      ensures out != Halted ==> Chain(u, old(exception), exception, out.Threw?)
      ensures out.Ok? ==> |u| == StepCount(c) && Steps(u, c, env)
      ensures out.Threw? ==>
        && |u| == 1 && u[0].end.Raised?
        && if c.Iterated? then u[0].what == MemberCalled else c.post.Some? && In(u[0], Expression(c.post.value), env)
      decreases fuel
    {
      hide Tells, Chain, Derives, Rule;
      u := [];
      if fuel == 0 { return Halted, u; }
      ghost var ex := exception;
      var dummy;
      ghost var x;
      NoPieces(ex);
      out := Ok;
      if c.Iterated? {
        out, dummy, x := CallMember(env, fuel - 1);
        if out == Halted { return; }
        Piece(x, MemberCalled, env, ex, exception, out.Threw?);
        u := [x];
      } else if c.post.Some? {
        out, dummy, x := EvalOff(env, c.post.value, fuel - 1);
        if out == Halted { return; }
        Piece(x, Expression(c.post.value), env, ex, exception, out.Threw?);
        u := [x];
      }
    }

    /** `assign_to_variable` */
    method AssignToVariable(env: Env?, fuel: nat) returns (out: Outcome, ghost f: Run)
      requires Valid()
      modifies this
      ensures After(old(Live()), old(frames), old(recovery), out, 0) && lastPoint >= old(lastPoint)
      ensures if out.Ok? then exception == old(exception)
              else out != Halted ==> Tells(f, Fault, env, old(exception), exception, true)
      decreases fuel
    {
      hide Tells;
      f := *;
      if fuel == 0 { return Halted, f; }
      out := Ok;
      if * {
        out, f := RuntimeError(env, fuel - 1);
      }
    }

    /** `execute_foreach_statement`: the collection and its iterator wait on the stack. */
    method ExecForeach(env: Env?, to: Option<string>, collection: Expr, body: seq<Stmt>, fuel: nat)
      returns (out: Outcome, res: Completion, ghost d: Run)
      requires Valid()
      modifies this
      ensures After(old(Live()), old(frames), old(recovery), out, 0) && lastPoint >= old(lastPoint)
      ensures out != Halted ==>
        Tells(d, Statement(Foreach(to, collection, body)), env, old(exception), exception, out.Threw?)
      ensures out.Ok? ==> d.end == Done(res)
      ensures out.Ok? ==> LeavesLoop(res, to)
      decreases fuel
    {
      hide Interp.Valid, Interp.Live, ChainOf, Tells, Chain, Derives, Rule, Looped;
      d := *;
      ghost var was, chain, rec, ex := Live(), frames, recovery, exception;
      ghost var s := Foreach(to, collection, body);
      res := Normal;
      if fuel == 0 { return Halted, Normal, d; }
      var cursor;
      ghost var pre, p;
      out, cursor, pre := OpenIterator(env, collection, fuel - 1);
      Then(was, was, chain, rec, out, 2);
      if out == Halted { return; }
      if !out.Ok? {
        d := LoopFails(s, env, ex, exception, pre);
        return;
      }
      Returned(was, chain, rec, 2);
      ghost var mid, ex2 := Live(), exception;
      out, res, p := RunLoop(env, to, Iterated, body, fuel - 1);
      Then(was, mid, chain, rec, out, 0);
      if out == Halted { return; }
      Joined(pre, ex, ex2, p, exception, out.Threw?);
      d := LoopNode(s, env, ex, exception, pre, p, out.Threw?, Ended(out.Threw?, Done(res)));
      if !out.Ok? { return; }
      Returned(was, chain, rec, 2);
      Shrink(2);
      Settled(was, chain, rec, 0);
    }

    /** `execute_throw_statement` */
    method ExecThrow(env: Env?, e: Expr, fuel: nat) returns (out: Outcome, ghost d: Run)
      requires Valid()
      modifies this
      ensures After(old(Live()), old(frames), old(recovery), out, 0) && lastPoint >= old(lastPoint) && !out.Ok?
      ensures out != Halted ==> Tells(d, Statement(Throw(e)), env, old(exception), exception, true)
      decreases fuel
    {
      hide Tells, Derives, Rule, Chain;
      d := *;
      if fuel == 0 { return Halted, d; }
      ghost var was, chain, rec, ex := Live(), frames, recovery, exception;
      ghost var x;
      out, x := EvalExpression(env, e, fuel - 1);
      Then(was, was, chain, rec, out, 1);
      if out == Halted { return; }
      Piece(x, Expression(e), env, ex, exception, out.Threw?);
      d := ThrowNode(e, env, ex, x);
      if !out.Ok? { return; }
      Returned(was, chain, rec, 1);
      out := RaiseTop();
    }

    /** The value on top becomes the current exception, and the jump goes to the current recovery point. */
    method RaiseTop() returns (out: Outcome)
      requires Valid() && sp > 0
      modifies this`exception, this`sp
      ensures Valid() && old(Live()) == Live() + [exception] && exception == old(Live())[sp] && out == Threw(recovery)
    {
      exception := Pop();
      out := Threw(recovery);
    }

    /** `execute_try_statement` */
    method ExecTry(env: Env?, tryBlock: seq<Stmt>, catchBlock: Option<seq<Stmt>>, finallyBlock: Option<seq<Stmt>>,
                   fuel: nat)
      returns (out: Outcome, res: Completion, ghost d: Run)
      requires Valid()
      modifies this
      ensures After(old(Live()), old(frames), old(recovery), out, 0) && lastPoint >= old(lastPoint)
      ensures out != Halted ==>
        Tells(d, Statement(Try(tryBlock, catchBlock, finallyBlock)), env, old(exception), exception, out.Threw?)
      ensures out.Ok? ==> d.end == Done(res)
      ensures out.Ok? && catchBlock.None? ==> exception == Null
      ensures out.Ok? && finallyBlock.Some? ==>
        && |d.parts| >= 2 && In(d.parts[0], List(tryBlock), env)
        && In(d.parts[|d.parts| - 1], List(finallyBlock.value), env)
      ensures forall v :: finallyBlock == Some([Throw(Literal(v))]) ==> !out.Ok?
      decreases fuel
    {
      hide *;
      d := *;
      ghost var was, chain, rec, ex := Live(), frames, recovery, exception;
      Halting(was, chain, rec);
      res := Normal;
      if fuel == 0 { return Halted, Normal, d; }
      var backup := recovery;
      ghost var p, x;
      ghost var f: seq<Run> := [];
      out, res, p := ExecGuarded(env, tryBlock, catchBlock, fuel - 1);
      if out == Halted { return; }
      if !out.Ok? {
        d := TryCaught(tryBlock, catchBlock, finallyBlock, env, ex, p);
        return;
      }
      Returned(was, chain, rec, 0);
      if finallyBlock.Some? {
        var dummy;
        ghost var ex2 := exception;
        out, dummy, x := ExecList(env, finallyBlock.value, fuel - 1);
        Then(was, was, chain, rec, out, 0);
        if out == Halted { return; }
        Piece(x, List(finallyBlock.value), env, ex2, exception, out.Threw?);
        Single(x);
        f := [x];
        if !out.Ok? {
          d := TryEnded(tryBlock, catchBlock, finallyBlock, env, ex, p, f, true, res);
          return;
        }
        Returned(was, chain, rec, 0);
      }
      NoneDerive();
      if catchBlock.None? && exception != Null {
        d := TryEnded(tryBlock, catchBlock, finallyBlock, env, ex, p, f, true, res);
        Jumping(was, chain, rec);
        return Threw(backup), res, d;
      }
      d := TryEnded(tryBlock, catchBlock, finallyBlock, env, ex, p, f, false, res);
      TryShown(d, tryBlock, catchBlock, finallyBlock, env, ex, exception, false);
    }

    /** The block and, if it throws, the landing: the stack and the recovery point are set back to what they were
        at the start, from whatever depth the exception came, before the catch block runs. */
    method ExecGuarded(env: Env?, tryBlock: seq<Stmt>, catchBlock: Option<seq<Stmt>>, fuel: nat)
      returns (out: Outcome, res: Completion, ghost p: seq<Run>)
      requires Valid()
      modifies this
      ensures After(old(Live()), old(frames), old(recovery), out, 0) && lastPoint >= old(lastPoint)
      ensures out != Halted ==>
        && Attempted(p, tryBlock, catchBlock, env, old(exception)) && 1 <= |p| <= 2 && p[|p| - 1].now == exception
        && (out.Threw? <==> |p| == 2 && p[1].end.Raised?)
      ensures out.Ok? && p[|p| - 1].end.Done? ==> p[|p| - 1].end == Done(res)
      decreases fuel
    {
      hide *;
      ghost var was, chain, rec, ex := Live(), frames, recovery, exception;
      Halting(was, chain, rec);
      res, p := Normal, [];
      if fuel == 0 { return Halted, Normal, p; }
      var pointer, backup := sp, recovery;
      PointBound();
      var point := NewPoint();
      ghost var x, y;
      out, res, x := ExecList(env, tryBlock, fuel - 1);
      Always(was, chain, point, out, 0);
      Halting(was, chain, rec);
      if out == Halted { return; }
      Piece(x, List(tryBlock), env, ex, exception, out.Threw?);
      p := [x];
      if out.Threw? {
        assert out.target == point;
        Landed(was, chain, point, 0);
        SetStackPointer(pointer);
        Restore(backup);
        assert Live() == was && frames == chain && recovery == rec;
        if catchBlock.Some? {
          out, res, y := ExecCatch(env, catchBlock.value, fuel - 1);
          Then(was, was, chain, rec, out, 0);
          if out == Halted { return; }
          p := [x, y];
          AttemptedBoth(x, y, tryBlock, catchBlock.value, env, ex);
          if !out.Ok? { return; }
          Returned(was, chain, rec, 0);
        } else {
          AttemptedOnce(x, tryBlock, catchBlock, env, ex);
        }
      } else {
        Returned(was, chain, point, 0);
        AttemptedOnce(x, tryBlock, catchBlock, env, ex);
      }
      Restore(backup);
      out := Ok;
      Settled(was, chain, rec, 0);
    }

    /** The exception waits on the stack while its block runs. */
    method ExecCatch(env: Env?, block: seq<Stmt>, fuel: nat) returns (out: Outcome, res: Completion, ghost x: Run)
      requires Valid()
      modifies this
      ensures After(old(Live()), old(frames), old(recovery), out, 0) && lastPoint >= old(lastPoint)
      ensures out != Halted ==> Derives(x) && x.was == Null && x.now == exception && (x.end.Raised? <==> out.Threw?)
      ensures out != Halted ==> (x.what == Fault && out.Threw?) || In(x, List(block), env)
      ensures out.Ok? ==> x.end == Done(res)
      decreases fuel
    {
      hide Derives, Rule, Chain;
      x := *;
      res := Normal;
      if fuel == 0 { return Halted, Normal, x; }
      ghost var was, chain, rec := Live(), frames, recovery;
      TakeException();
      ghost var mid := Live();
      out, x := AssignToVariable(env, fuel - 1);
      Then(was, mid, chain, rec, out, 0);
      if !out.Ok? { return; }
      Returned(mid, chain, rec, 0);
      out, res, x := ExecList(env, block, fuel - 1);
      Then(was, mid, chain, rec, out, 0);
      if !out.Ok? { return; }
      Returned(was, chain, rec, 1);
      Shrink(1);
    }

    /** The exception moves to the stack and is current no longer. */
    method TakeException()
      requires Valid()
      modifies this`exception, this`cells, this`sp
      ensures Valid() && Live() == old(Live()) + [old(exception)] && exception == Null
    {
      Push(exception);
      exception := Null;
    }

    // -------------------------------------------------------------- the top level

    /** `show_error_stack_trace`: an error in it starts it again. */
    method ShowErrorStackTrace(fuel: nat) returns (out: Outcome)
      requires Valid()
      modifies this
      ensures Valid() && lastPoint >= old(lastPoint) && !out.Threw?
      ensures out.Ok? ==> frames == old(frames)
      decreases fuel
    {
      hide Tells;
      if fuel == 0 { return Halted; }
      ghost var was, chain := Live(), frames;
      ghost var x;
      var point := NewPoint();
      if exception != Assoc {
        out, x := RuntimeError(null, fuel - 1);
      } else {
        var func := AnyOption();
        if func.None? || !func.value.Closure? {
          out, x := RuntimeError(null, fuel - 1);
        } else {
          var dummy;
          out, dummy, x := CallFunction(null, func.value, 0, fuel - 1);
        }
      }
      if out.Threw? {
        assert out.target == point;
        Landed(was, chain, point, 0);
        out := ShowErrorStackTrace(fuel - 1);
      } else if out.Ok? {
        Returned(was, chain, point, 0);
      }
    }

    /** `CRB_interpret`: whatever the program does, the stack is empty afterwards and no environment is left. */
    method Interpret(statements: seq<Stmt>, fuel: nat) returns (out: Outcome, ghost d: Run)
      requires Valid() && sp == 0 && frames == []
      modifies this
      ensures Valid() && !out.Threw?
      ensures out.Ok? ==> sp == 0 && frames == [] && top == null
      ensures out.Ok? ==> Derives(d) && In(d, List(statements), null) && d.was == old(exception)
      ensures out.Ok? ==> exception == if d.end == Done(Normal) then d.now else Null
      decreases fuel
    {
      hide Derives, Rule;
      d := *;
      if fuel == 0 { return Halted, d; }
      var point := NewPoint();
      var res;
      ghost var x;
      out, res, d := ExecList(null, statements, fuel - 1);
      if out.Ok? {
        Returned([], [], point, 0);
        if !res.Normal? {
          out, x := RuntimeError(null, fuel - 1);
        }
      }
      if out.Threw? {
        assert out.target == point;
        Landed([], [], point, 0);
        out := ShowErrorStackTrace(fuel - 1);
        if out == Halted { return; }
        SetStackPointer(0);
        exception := Null;
      }
      if out.Ok? {
        assert sp == 0;
      }
    }
  }

  // ---------------------------------------------------------------- what the model leaves open

  /** A value that depends on the contents of variables, objects and numbers. */
  method AnyVal() returns (v: Val)
  {
    v := *;
  }

  /** The outcome of a search. */
  method AnyOption() returns (v: Option<Val>)
  {
    v := *;
  }

  method AnyBool() returns (b: bool)
  {
    b := *;
  }

  method AnyNat() returns (n: nat)
  {
    n := *;
  }

  /** What an operator gives for two values, or an error. */
  method OperatorResult(op: Op, a: Val, b: Val) returns (r: Option<Val>)
    ensures r.Some? <==> Takes(op, a, b)
    ensures r.Some? ==> Gives(op, a, b, r.value)
  {
    var truth := AnyBool();
    r := ResultOf(op, a, b, truth);
    AnyResultIs(op, a, b, truth);
  }

  function ResultOf(op: Op, a: Val, b: Val, truth: bool): Option<Val> {
    if a.Int? && b.Int? then IntResult(op, a.i, b.i)
    else if Numeric(a) && Numeric(b) then Some(if MathOp(op) then Float else Bool(truth))
    else if a.Bool? && b.Bool? then EqualityOnly(op, a.b == b.b)
    else if a == Str && op == Add then Some(Str)
    else if a == Str && b == Str then if MathOp(op) then None else Some(Bool(truth))
    else if a == Null || b == Null then EqualityOnly(op, a == b)
    else if ObjectValue(a) && ObjectValue(b) then Some(Bool(truth))
    else None
  }

  function EqualityOnly(op: Op, same: bool): Option<Val> {
    if op == Eq || op == Ne then Some(Bool(same == (op == Eq))) else None
  }

  lemma AnyResultIs(op: Op, a: Val, b: Val, truth: bool)
    ensures ResultOf(op, a, b, truth).Some? <==> Takes(op, a, b)
    ensures ResultOf(op, a, b, truth).Some? ==> Gives(op, a, b, ResultOf(op, a, b, truth).value)
  {
    if a.Int? && b.Int? {
      IntResultIs(op, a.i, b.i);
    } else {
      OtherResultIs(op, a, b, truth);
    }
  }

  lemma OtherResultIs(op: Op, a: Val, b: Val, truth: bool)
    requires !a.Int? || !b.Int?
    ensures ResultOf(op, a, b, truth).Some? <==> Takes(op, a, b)
    ensures ResultOf(op, a, b, truth).Some? ==> Gives(op, a, b, ResultOf(op, a, b, truth).value)
  {
    hide OfInts, IntResult;
  }

  function IntResult(op: Op, a: int, b: int): Option<Val> {
    match OfInts(op, a, b)
    case Ok(Int(i)) => Some(Int(i))
    case Ok(Bool(c)) => Some(Bool(c))
    case _ => None
  }

  lemma IntResultIs(op: Op, a: int, b: int)
    ensures IntResult(op, a, b).Some? <==> Takes(op, Int(a), Int(b))
    ensures IntResult(op, a, b).Some? ==> Gives(op, Int(a), Int(b), IntResult(op, a, b).value)
  {
  }
}
