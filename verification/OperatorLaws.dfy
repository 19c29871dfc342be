/** What programs may rely on in the operators: laws that hold between them. */
module OperatorLaws {
  import opened Folding

  /** The integer an operator gives for two integers. */
  function Num(op: Op, a: int, b: int): int {
    var o := BinaryInt(op, a, b);
    if o.Ok? && o.v.Int? then o.v.i else 0
  }

  /** The truth it gives. */
  predicate Holds(op: Op, a: int, b: int) {
    BinaryInt(op, a, b) == Ok(Bool(true))
  }

  lemma Kinds(op: Op, a: int, b: int)
    ensures op.Add? || op.Sub? || op.Mul? ==> BinaryInt(op, a, b) == Ok(Int(Num(op, a, b)))
    ensures op.Div? || op.Mod? ==>
      BinaryInt(op, a, b) == if Holds(Eq, b, 0) then Err(DivisionByZero) else Ok(Int(Num(op, a, b)))
    ensures CompareOp(op) ==> BinaryInt(op, a, b) == Ok(Bool(Holds(op, a, b)))
    ensures LogicalOp(op) || op.Concat? ==> BinaryInt(op, a, b) == Err(LogicalOpOnNumber)
  {
  }

  // ---------------------------------------------------------------- integers

  /** Addition makes the integers a commutative group, and subtraction undoes it. */
  lemma AddLaws(a: int, b: int, c: int)
    ensures Num(Add, a, 0) == a && Num(Add, a, b) == Num(Add, b, a)
    ensures Num(Add, Num(Add, a, b), c) == Num(Add, a, Num(Add, b, c))
    ensures Num(Sub, Num(Add, a, b), b) == a && Num(Add, Num(Sub, a, b), b) == a
  {
  }

  /** Multiplication has a unit, is commutative and distributes over addition. */
  lemma MulLaws(a: int, b: int, c: int)
    ensures Num(Mul, a, 1) == a && Num(Mul, a, b) == Num(Mul, b, a)
    ensures Num(Mul, a, Num(Add, b, c)) == Num(Add, Num(Mul, a, b), Num(Mul, a, c))
  {
  }

  /** Quotient and remainder make up the dividend; the remainder is smaller than the divisor and has the sign of the
      dividend. */
  lemma DivLaws(a: int, b: int)
    requires b != 0
    ensures var q, r := Num(Div, a, b), Num(Mod, a, b);
      && Num(Add, Num(Mul, q, b), r) == a
      && (Holds(Gt, b, 0) ==> Holds(Lt, r, b) && Holds(Lt, Num(Sub, 0, r), b))
      && (Holds(Lt, b, 0) ==> Holds(Gt, r, b) && Holds(Gt, Num(Sub, 0, r), b))
      && (Holds(Ge, a, 0) ==> Holds(Ge, r, 0)) && (Holds(Le, a, 0) ==> Holds(Le, r, 0))
  {
    hide Num, Holds, Quotient, Remainder, Abs;
    DivNumbers(a, b);
    DivSum(a, b);
    RemainderSigns(a, b);
  }

  lemma DivNumbers(a: int, b: int)
    requires b != 0
    ensures Num(Div, a, b) == Quotient(a, b) && Num(Mod, a, b) == Remainder(a, b)
  {
    hide Quotient, Remainder;
  }

  lemma DivSum(a: int, b: int)
    requires b != 0
    ensures Num(Add, Num(Mul, Quotient(a, b), b), Remainder(a, b)) == a
  {
    hide Quotient, Remainder, Abs;
    TruncatedDivision(a, b);
  }

  lemma RemainderSigns(a: int, b: int)
    requires b != 0
    ensures var r := Remainder(a, b);
      && (Holds(Gt, b, 0) ==> Holds(Lt, r, b) && Holds(Lt, Num(Sub, 0, r), b))
      && (Holds(Lt, b, 0) ==> Holds(Gt, r, b) && Holds(Gt, Num(Sub, 0, r), b))
      && (Holds(Ge, a, 0) ==> Holds(Ge, r, 0)) && (Holds(Le, a, 0) ==> Holds(Le, r, 0))
  {
    hide Quotient, Remainder, Abs;
    TruncatedDivision(a, b);
    RemainderSize(Remainder(a, b), b);
  }

  lemma RemainderSize(r: int, b: int)
    requires Abs(r) < Abs(b)
    ensures b > 0 ==> r < b && 0 - r < b
    ensures b < 0 ==> r > b && 0 - r > b
  {
  }

  /** The comparisons are those of one strict total order, which addition keeps, and in which nothing lies between a
      number and the number plus one. */
  lemma OrderLaws(a: int, b: int, c: int)
    ensures Holds(Lt, a, b) || Holds(Eq, a, b) || Holds(Gt, a, b)
    ensures !(Holds(Lt, a, b) && Holds(Eq, a, b)) && !(Holds(Lt, a, b) && Holds(Gt, a, b))
    ensures !(Holds(Eq, a, b) && Holds(Gt, a, b))
    ensures Holds(Lt, a, b) && Holds(Lt, b, c) ==> Holds(Lt, a, c)
    ensures Holds(Gt, a, b) <==> Holds(Lt, b, a)
    ensures Holds(Eq, a, b) <==> a == b
    ensures (Holds(Ne, a, b) <==> !Holds(Eq, a, b)) && (Holds(Ge, a, b) <==> !Holds(Lt, a, b))
    ensures Holds(Le, a, b) <==> !Holds(Gt, a, b)
    ensures Holds(Lt, a, b) <==> Holds(Lt, Num(Add, a, c), Num(Add, b, c))
    ensures Holds(Lt, a, Num(Add, a, 1)) && !(Holds(Lt, a, c) && Holds(Lt, c, Num(Add, a, 1)))
  {
  }

  /** The negative of a number is what adds up with it to nothing; twice negated it is the number. */
  lemma MinusLaws(m: Machine, a: int)
    ensures MinusValue(m, Int(a)).Ok? && MinusValue(m, Int(a)).v.Int?
    ensures Num(Add, a, MinusValue(m, Int(a)).v.i) == 0
    ensures MinusValue(m, MinusValue(m, Int(a)).v) == Ok(Int(a))
  {
  }

  /** On floating-point numbers the operators are those of the machine, in the order written; an integer beside one is
      converted first. */
  lemma FloatLaws(m: Machine, op: Op, a: Float, b: Float, i: int)
    requires MathOp(op) || CompareOp(op)
    ensures BinaryValue(m, op, Float(a), Float(b)) ==
      Ok(if MathOp(op) then Float(m.math(op, a, b)) else Bool(m.compare(op, a, b)))
    ensures BinaryValue(m, op, Int(i), Float(b)) == BinaryValue(m, op, Float(m.ofInt(i)), Float(b))
    ensures BinaryValue(m, op, Float(a), Int(i)) == BinaryValue(m, op, Float(a), Float(m.ofInt(i)))
  {
  }

  // ---------------------------------------------------------------- strings

  /** Alphabetic order: irreflexive, */
  lemma {:induction false} BeforeNotSelf(s: string)
    ensures !Before(s, s)
  {
    if s != "" { BeforeNotSelf(s[1..]); }
  }

  /** transitive */
  lemma {:induction false} BeforeTransitive(s: string, t: string, u: string)
    requires Before(s, t) && Before(t, u)
    ensures Before(s, u)
  {
    if s != "" && s[0] == t[0] && t[0] == u[0] { BeforeTransitive(s[1..], t[1..], u[1..]); }
  }

  /** and total; */
  lemma {:induction false} BeforeTotal(s: string, t: string)
    ensures s == t || Before(s, t) || Before(t, s)
    ensures !(Before(s, t) && Before(t, s))
  {
    if s != "" && t != "" && s[0] == t[0] {
      BeforeTotal(s[1..], t[1..]);
      assert s == [s[0]] + s[1..] && t == [t[0]] + t[1..];
    }
  }

  /** a proper prefix comes first, */
  lemma {:induction false} BeforePrefix(s: string, t: string)
    requires t != ""
    ensures Before(s, s + t)
  {
    if s == "" {
      assert s + t == t;
    } else {
      BeforePrefix(s[1..], t);
      assert (s + t)[1..] == s[1..] + t && (s + t)[0] == s[0];
    }
  }

  /** and otherwise the first difference decides. */
  lemma {:induction false} BeforeAt(p: string, a: char, b: char, s: string, t: string)
    ensures Before(p + [a] + s, p + [b] + t) <==> a < b || (a == b && Before(s, t))
  {
    if p == "" {
      assert p + [a] + s == [a] + s && p + [b] + t == [b] + t;
      assert ([a] + s)[1..] == s && ([b] + t)[1..] == t;
    } else {
      BeforeAt(p[1..], a, b, s, t);
      assert (p + [a] + s)[1..] == p[1..] + [a] + s && (p + [b] + t)[1..] == p[1..] + [b] + t;
    }
  }

  /** The operators on strings are those of that order. */
  lemma {:induction false} StringOrder(s: string, t: string)
    ensures CompareString(Lt, s, t) == Ok(Bool(Before(s, t))) && CompareString(Gt, s, t) == CompareString(Lt, t, s)
    ensures CompareString(Eq, s, t) == Ok(Bool(!Before(s, t) && !Before(t, s)))
    ensures CompareString(Ge, s, t) == Ok(Bool(!Before(s, t))) && CompareString(Le, s, t) == CompareString(Ge, t, s)
    ensures CompareString(Ne, s, t) == Ok(Bool(Before(s, t) || Before(t, s)))
  {
    BeforeTotal(s, t);
    BeforeNotSelf(s);
    hide Before;
  }

  lemma StringEqual(s: string, t: string)
    ensures CompareString(Eq, s, t) == Ok(Bool(s == t)) && CompareString(Ne, s, t) == Ok(Bool(s != t))
  {
    hide Before;
  }

  // ---------------------------------------------------------------- any values

  /** `==` tells whether two values are the same, in either order of the operands, and `!=` whether they are not,
      exactly unless both are objects and not both strings. */
  lemma DifferentRight(m: Machine, a: Val, b: Val)
    requires !a.Float? && !b.Float?
    ensures BinaryValue(m, Eq, a, b).Ok? <==> BinaryValue(m, Eq, b, a).Ok?
    ensures BinaryValue(m, Eq, a, b).Ok? ==>
      && BinaryValue(m, Eq, a, b).v == Bool(a == b)
      && (BinaryValue(m, Ne, a, b) == Ok(Bool(a != b)) <==> !(ObjectValue(a) && ObjectValue(b)) || (a.Str? && b.Str?))
  {
    hide CompareString, Before;
    if a.Str? && b.Str? {
      StringEqual(a.s, b.s);
      StringEqual(b.s, a.s);
    }
  }

  /** On two objects that are not strings every operator tells whether they are the same. */
  lemma ObjectsOnlyEqual(m: Machine, op: Op, a: Val, b: Val)
    requires ObjectValue(a) && ObjectValue(b) && !a.Str?
    ensures BinaryValue(m, op, a, b) == Ok(Bool(a == b))
  {
  }

  /** Joining strings is associative, and the empty string makes no difference. */
  lemma JoinLaws(m: Machine, a: string, b: string, c: string)
    requires forall s :: m.text(Str(s)) == s
    ensures BinaryValue(m, Add, Str(a), Str("")) == Ok(Str(a)) && BinaryValue(m, Add, Str(""), Str(a)) == Ok(Str(a))
    ensures BinaryValue(m, Add, Str(a + b), Str(c)) == BinaryValue(m, Add, Str(a), Str(b + c))
    ensures Combined(m, Concat, Str(a), Str(b)) == BinaryValue(m, Add, Str(a), Str(b))
  {
    assert a + b + c == a + (b + c);
  }

  // ---------------------------------------------------------------- logic

  /** `&&` and `||` on two booleans. */
  lemma {:induction false} TruthTable(m: Machine, env: Env, a: bool, b: bool, st: int)
    ensures Eval(m, env, Binary(And, Lit(Bool(a)), Lit(Bool(b))), st) == (Ok(Bool(a && b)), st)
    ensures Eval(m, env, Binary(Or, Lit(Bool(a)), Lit(Bool(b))), st) == (Ok(Bool(a || b)), st)
    ensures Eval(m, env, Not(Lit(Bool(a))), st) == (Ok(Bool(!a)), st)
  {
  }

  /** A left operand that decides hides the right one, whatever that would do. */
  lemma {:induction false} RightHidden(m: Machine, env: Env, x: Exp, y: Exp, st: int)
    ensures Eval(m, env, x, st).0 == Ok(Bool(false)) ==> Eval(m, env, Binary(And, x, y), st) == Eval(m, env, x, st)
    ensures Eval(m, env, x, st).0 == Ok(Bool(true)) ==> Eval(m, env, Binary(Or, x, y), st) == Eval(m, env, x, st)
  {
  }

  /** The left operand comes first: if it fails, nothing else happens. */
  lemma {:induction false} LeftFirst(m: Machine, env: Env, op: Op, x: Exp, y: Exp, st: int)
    requires Eval(m, env, x, st).0.Err?
    ensures Eval(m, env, Binary(op, x, y), st) == Eval(m, env, x, st)
  {
  }

  /** Moving a `!` inward changes neither value nor effect nor error, whatever runs in the operands, provided that the
      right operand, if it is evaluated and gives a value, gives a boolean: nothing else would notice that it does
      not. */
  lemma {:induction false} DeMorgan(m: Machine, env: Env, x: Exp, y: Exp, st: int)
    requires var (a, s) := Eval(m, env, x, st);
      a == Ok(Bool(true)) ==> var (b, _) := Eval(m, env, y, s); b.Ok? ==> b.v.Bool?
    ensures Eval(m, env, Not(Binary(And, x, y)), st) == Eval(m, env, Binary(Or, Not(x), Not(y)), st)
  {
    var (a, s) := Eval(m, env, x, st);
    assert Eval(m, env, Not(x), st) ==
      if a.Err? then (a, s) else if a.v.Bool? then (Ok(Bool(!a.v.b)), s) else (Err(NotBooleanType), s);
    if a == Ok(Bool(true)) {
      var (b, s2) := Eval(m, env, y, s);
      assert Eval(m, env, Not(y), s) ==
        if b.Err? then (b, s2) else if b.v.Bool? then (Ok(Bool(!b.v.b)), s2) else (Err(NotBooleanType), s2);
      assert Eval(m, env, Binary(And, x, y), st) == if b.Err? then (b, s2) else (Combined(m, And, a.v, b.v), s2);
    }
  }
}
