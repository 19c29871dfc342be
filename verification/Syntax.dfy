/** Programs of the interpreter, the values they compute, and how a piece of a run ends. */
module Syntax {

  /** What the interpreter's control flow looks at in a value. What operators compute is in `Folding`. */
  datatype Val =
    | Null | Bool(b: bool) | Int(i: int) | Float | Str | Arr | Assoc | NativePtr
    | Closure(fun: Function)
    | Method        // a built-in method of a string or an array
    | Module

  datatype Function =
    | Crowbar(params: nat, body: seq<Stmt>)
    | NativeFun(expected: int)   // negative: any number

  datatype Op = Add | Sub | Mul | Div | Mod | Eq | Ne | Gt | Ge | Lt | Le

  datatype Option<T> = None | Some(value: T)

  datatype Expr =
    | Literal(v: Val)
    | Identifier(name: string)
    | Comma(left: Expr, right: Expr)
    | Assign(normal: bool, target: Expr, operand: Expr)
    | Concat(left: Expr, right: Expr)
    | Binary(op: Op, left: Expr, right: Expr)
    | AndOr(isOr: bool, left: Expr, right: Expr)
    | Minus(operand: Expr)
    | Not(operand: Expr)
    | Call(callee: Expr, args: seq<Expr>)
    | Member(of: Expr, name: string)
    | ArrayLit(elements: seq<Expr>)
    | AssocLit(members: seq<Expr>)
    | Index(arr: Expr, index: Expr)
    | Slice(arr: Expr, start: Option<Expr>, end: Option<Expr>)
    | IncDec(operand: Expr)

  datatype Stmt =
    | ExprStmt(e: Expr)
    | Global(names: seq<string>)
    | Return(result: Option<Expr>)
    | If(cond: Expr, thenBlock: seq<Stmt>, elifs: seq<(Expr, seq<Stmt>)>, elseBlock: Option<seq<Stmt>>)
    | While(wlabel: Option<string>, wcond: Expr, wbody: seq<Stmt>)
    | For(flabel: Option<string>, init: Option<Expr>, fcond: Option<Expr>, post: Option<Expr>, fbody: seq<Stmt>)
    | Foreach(elabel: Option<string>, collection: Expr, ebody: seq<Stmt>)
    | Break(blabel: Option<string>)
    | Continue(clabel: Option<string>)
    | Try(tryBlock: seq<Stmt>, catchBlock: Option<seq<Stmt>>, finallyBlock: Option<seq<Stmt>>)
    | Throw(exception: Expr)

  /** `StatementResult` */
  datatype Completion =
    | Normal
    | Returned(value: Val)
    | Broke(to: Option<string>)
    | Continued(to: Option<string>)

  /** How a piece of a run ends: it returns; it jumps to a recovery point; or it does not come back, because
      the fuel is spent or the process has stopped. */
  datatype Outcome = Ok | Threw(target: nat) | Halted

  /** `compare_labels` */
  function CompareLabels(to: Option<string>, loop: Option<string>, current: Completion): Completion {
    if to.None? then Normal
    else if loop.Some? && loop.value == to.value then Normal
    else current
  }

  /** What may leave a loop with this label: no break or continue that was meant for it. */
  predicate LeavesLoop(res: Completion, loop: Option<string>) {
    && (res.Broke? ==> res.to.Some? && res.to != loop)
    && (res.Continued? ==> res.to.Some? && res.to != loop)
  }
}
