/** The expression tree of calc.h: a closed set of node kinds, each with a
    side-effect-free evaluation. */
module Expressions {
  import opened Results

  type NonZero = x: real | x != 0.0 witness 1.0

  datatype Expr =
    | Number(value: real)
    | Add(left: Expr, right: Expr)
    | Subtract(left: Expr, right: Expr)
    | Multiply(left: Expr, right: Expr)
    | Divide(left: Expr, right: Expr)
    | Power(left: Expr, right: Expr)
      /** Only `MakeFraction` builds one: the denominator is never zero. */
    | Fraction(numerator: real, denominator: NonZero)
    | Sin(operand: Expr)
    | Cos(operand: Expr)

  /** The five node kinds a binary operator character builds. */
  datatype BinaryKind = AddKind | SubtractKind | MultiplyKind | DivideKind | PowerKind

  predicate IsBinary(e: Expr) {
    e.Add? || e.Subtract? || e.Multiply? || e.Divide? || e.Power?
  }

  function MakeBinary(k: BinaryKind, l: Expr, r: Expr): (e: Expr)
    ensures IsBinary(e) && e.left == l && e.right == r
    ensures (k == AddKind <==> e.Add?) && (k == SubtractKind <==> e.Subtract?)
    ensures (k == MultiplyKind <==> e.Multiply?) && (k == DivideKind <==> e.Divide?)
    ensures k == PowerKind <==> e.Power?
  {
    match k
    case AddKind => Add(l, r)
    case SubtractKind => Subtract(l, r)
    case MultiplyKind => Multiply(l, r)
    case DivideKind => Divide(l, r)
    case PowerKind => Power(l, r)
  }

  /** `std::pow`, `std::sin` and `std::cos`; their values are not modelled. */
  datatype MathLib = MathLib(pow: (real, real) -> real, sin: real -> real, cos: real -> real)

  /** `Expression::evaluate`.  The only failure is a division by zero. */
  function Eval(e: Expr, m: MathLib): (r: Result<real>)
    ensures r.Err? ==> r.error == DivisionByZero
  {
    match e
    case Number(v) => Ok(v)
    case Add(a, b) =>
      var x :- Eval(a, m);
      var y :- Eval(b, m);
      Ok(x + y)
    case Subtract(a, b) =>
      var x :- Eval(a, m);
      var y :- Eval(b, m);
      Ok(x - y)
    case Multiply(a, b) =>
      var x :- Eval(a, m);
      var y :- Eval(b, m);
      Ok(x * y)
    case Divide(a, b) =>
      // the right operand is evaluated first
      var y :- Eval(b, m);
      if y == 0.0 then Err(DivisionByZero)
      else
        var x :- Eval(a, m);
        Ok(x / y)
    case Power(a, b) =>
      var x :- Eval(a, m);
      var y :- Eval(b, m);
      Ok(m.pow(x, y))
    case Fraction(n, d) => Ok(n / d)
    case Sin(a) =>
      var x :- Eval(a, m);
      Ok(m.sin(x))
    case Cos(a) =>
      var x :- Eval(a, m);
      Ok(m.cos(x))
  }

  /** The `Fraction` constructor: a zero denominator is refused. */
  function MakeFraction(num: real, denom: real): (r: Result<Expr>)
    ensures r.Err? <==> denom == 0.0
    ensures r.Err? ==> r.error == ZeroDenominator
    ensures r.Ok? ==> r.value.Fraction? && r.value.numerator == num && r.value.denominator == denom
    ensures r.Ok? ==> forall m: MathLib :: Eval(r.value, m) == Ok(num / denom)
  {
    if denom == 0.0 then Err(ZeroDenominator) else Ok(Fraction(num, denom))
  }

  /** A binary node other than `Divide` combines the values `x` and `y` of
      its two children. */
  lemma EvalBinary(a: Expr, b: Expr, m: MathLib, x: real, y: real)
    requires Eval(a, m) == Ok(x) && Eval(b, m) == Ok(y)
    ensures Eval(Add(a, b), m) == Ok(x + y)
    ensures Eval(Subtract(a, b), m) == Ok(x - y)
    ensures Eval(Multiply(a, b), m).Ok? && Eval(Multiply(a, b), m).value == x * y
    ensures Eval(Power(a, b), m) == Ok(m.pow(x, y))
  {
  }

  /** A failing left child of a binary node other than `Divide`, or a
      failing operand of `Sin` or `Cos`, makes the node fail the same way. */
  lemma EvalFailurePropagates(a: Expr, b: Expr, m: MathLib)
    requires Eval(a, m).Err?
    ensures Eval(Add(a, b), m) == Eval(a, m)
    ensures Eval(Subtract(a, b), m) == Eval(a, m)
    ensures Eval(Multiply(a, b), m) == Eval(a, m)
    ensures Eval(Power(a, b), m) == Eval(a, m)
    ensures Eval(Sin(a), m) == Eval(a, m) && Eval(Cos(a), m) == Eval(a, m)
  {
  }

  /** A number is its value; `sin` and `cos` apply to the value `x` of the
      operand. */
  lemma EvalLeaves(v: real, a: Expr, m: MathLib, x: real)
    requires Eval(a, m) == Ok(x)
    ensures Eval(Number(v), m) == Ok(v)
    ensures Eval(Sin(a), m) == Ok(m.sin(x)) && Eval(Cos(a), m) == Ok(m.cos(x))
  {
  }

  /** Some `Divide` node of `e` has a right operand that evaluates to 0. */
  predicate DividesByZero(e: Expr, m: MathLib) {
    match e
    case Number(_) => false
    case Fraction(_, _) => false
    case Sin(a) => DividesByZero(a, m)
    case Cos(a) => DividesByZero(a, m)
    case Divide(a, b) => DividesByZero(a, m) || DividesByZero(b, m) || Eval(b, m) == Ok(0.0)
    case Add(a, b) => DividesByZero(a, m) || DividesByZero(b, m)
    case Subtract(a, b) => DividesByZero(a, m) || DividesByZero(b, m)
    case Multiply(a, b) => DividesByZero(a, m) || DividesByZero(b, m)
    case Power(a, b) => DividesByZero(a, m) || DividesByZero(b, m)
  }

  /** Evaluation fails exactly when some divisor evaluates to 0. */
  lemma {:induction false} EvalFailsIffDividesByZero(e: Expr, m: MathLib)
    ensures Eval(e, m).Err? <==> DividesByZero(e, m)
  {
    match e
    case Number(_) =>
    case Fraction(_, _) =>
    case Sin(a) => EvalFailsIffDividesByZero(a, m);
    case Cos(a) => EvalFailsIffDividesByZero(a, m);
    case Divide(a, b) => EvalFailsIffDividesByZero(a, m); EvalFailsIffDividesByZero(b, m);
    case Add(a, b) => EvalFailsIffDividesByZero(a, m); EvalFailsIffDividesByZero(b, m);
    case Subtract(a, b) => EvalFailsIffDividesByZero(a, m); EvalFailsIffDividesByZero(b, m);
    case Multiply(a, b) => EvalFailsIffDividesByZero(a, m); EvalFailsIffDividesByZero(b, m);
    case Power(a, b) => EvalFailsIffDividesByZero(a, m); EvalFailsIffDividesByZero(b, m);
  }

  /** `Divide` checks its right operand before it looks at the left one:
      a zero divisor fails even when the left operand would fail as well,
      and otherwise the quotient is returned. */
  lemma DivideSemantics(a: Expr, b: Expr, m: MathLib)
    ensures Eval(b, m) == Ok(0.0) ==> Eval(Divide(a, b), m) == Err(DivisionByZero)
    ensures Eval(a, m).Ok? && Eval(b, m).Ok? && Eval(b, m).value != 0.0 ==>
      Eval(Divide(a, b), m) == Ok(Eval(a, m).value / Eval(b, m).value)
  {
  }
}
