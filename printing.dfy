/** A printer for expression trees whose numbers are naturals: every binary
    node is written inside its own parentheses and a function as its name
    applied to its argument.  It is the partner of the parser: module
    ParseProperties proves that parsing a printed tree gives the tree back. */
module Printing {
  import opened Expressions
  import opened Scanning

  function DigitChar(d: nat): (c: char)
    requires d < 10
    ensures IsDigit(c) && DigitValue(c) == d
  {
    (('0' as int) + d) as char
  }

  /** The decimal digits of `n`, most significant first. */
  function NatDigits(n: nat): (w: string)
    ensures |w| >= 1 && AllDigits(w) && DigitsValue(w) == n
  {
    if n < 10 then [DigitChar(n)]
    else
      var w := NatDigits(n / 10) + [DigitChar(n % 10)];
      assert w[..|w| - 1] == NatDigits(n / 10);
      w
  }

  /** The trees the printer can write: natural-number leaves, no `Fraction`
      (the parser has no syntax for one). */
  predicate Printable(e: Expr) {
    match e
    case Number(v) => 0.0 <= v && v == v.Floor as real
    case Fraction(_, _) => false
    case Sin(a) => Printable(a)
    case Cos(a) => Printable(a)
    case Add(a, b) => Printable(a) && Printable(b)
    case Subtract(a, b) => Printable(a) && Printable(b)
    case Multiply(a, b) => Printable(a) && Printable(b)
    case Divide(a, b) => Printable(a) && Printable(b)
    case Power(a, b) => Printable(a) && Printable(b)
  }

  /** The operator character of a binary node. */
  function OperatorOf(e: Expr): char
    requires IsBinary(e)
  {
    if e.Add? then '+' else if e.Subtract? then '-' else if e.Multiply? then '*'
    else if e.Divide? then '/' else '^'
  }

  function Infix(a: string, op: char, b: string): string {
    "(" + a + [op] + b + ")"
  }

  /** The text of `e`. */
  function Print(e: Expr): (w: string)
    requires Printable(e)
    decreases e, 1
  {
    PrintNode(e)
  }

  /** The text of the root node of `e`, its children written by `Print`
      (a separate step, so that the solver unfolds one level at a time). */
  function PrintNode(e: Expr): (w: string)
    requires Printable(e)
    decreases e, 0
  {
    match e
    case Number(v) => NatDigits(v.Floor)
    case Sin(a) => "sin(" + Print(a) + ")"
    case Cos(a) => "cos(" + Print(a) + ")"
    case Add(a, b) => Infix(Print(a), '+', Print(b))
    case Subtract(a, b) => Infix(Print(a), '-', Print(b))
    case Multiply(a, b) => Infix(Print(a), '*', Print(b))
    case Divide(a, b) => Infix(Print(a), '/', Print(b))
    case Power(a, b) => Infix(Print(a), '^', Print(b))
  }

  lemma PrintBinary(e: Expr)
    requires Printable(e) && IsBinary(e)
    ensures Printable(e.left) && Printable(e.right)
    ensures Print(e) == Infix(Print(e.left), OperatorOf(e), Print(e.right))
  {
  }

  // ---------------------------------------------------------------------
  // Printed text has balanced parentheses and no white space

  predicate NoSpaces(w: string) {
    forall k :: 0 <= k < |w| ==> !IsSpace(w[k])
  }

  /** No prefix of `w` closes more than `-m` parentheses it did not open. */
  predicate DepthAtLeast(w: string, m: int) {
    forall j :: 0 <= j <= |w| ==> Depth(w[..j]) >= m
  }

  lemma {:induction false} DepthConcat(a: string, b: string)
    ensures Depth(a + b) == Depth(a) + Depth(b)
  {
    if a != [] {
      assert (a + b)[0] == a[0];
      assert (a + b)[1..] == a[1..] + b;
      DepthConcat(a[1..], b);
    } else {
      assert a + b == b;
    }
  }

  lemma ConcatAtLeast(a: string, b: string, m: int)
    requires DepthAtLeast(a, m) && DepthAtLeast(b, m - Depth(a))
    ensures DepthAtLeast(a + b, m)
  {
    forall j | 0 <= j <= |a + b|
      ensures Depth((a + b)[..j]) >= m
    {
      if j <= |a| {
        assert (a + b)[..j] == a[..j];
      } else {
        assert (a + b)[..j] == a + b[..j - |a|];
        DepthConcat(a, b[..j - |a|]);
      }
    }
  }

  lemma NoSpacesConcat(a: string, b: string)
    requires NoSpaces(a) && NoSpaces(b)
    ensures NoSpaces(a + b)
  {
    forall k | 0 <= k < |a + b|
      ensures !IsSpace((a + b)[k])
    {
      if k >= |a| {
        assert (a + b)[k] == b[k - |a|];
      }
    }
  }

  predicate NoParens(w: string) {
    forall k :: 0 <= k < |w| ==> w[k] != '(' && w[k] != ')'
  }

  lemma {:induction false} NoParensDepth(w: string)
    requires NoParens(w)
    ensures Depth(w) == 0
  {
    if w != [] {
      assert NoParens(w[1..]) by {
        forall k | 0 <= k < |w[1..]| ensures w[1..][k] == w[k + 1] { }
      }
      NoParensDepth(w[1..]);
    }
  }

  lemma NoParensAtLeast(w: string)
    requires NoParens(w)
    ensures DepthAtLeast(w, 0) && Depth(w) == 0
  {
    forall j | 0 <= j <= |w|
      ensures Depth(w[..j]) == 0
    {
      assert NoParens(w[..j]) by {
        forall k | 0 <= k < j ensures w[..j][k] == w[k] { }
      }
      NoParensDepth(w[..j]);
    }
    assert w[..|w|] == w;
  }

  lemma OpenAtLeast(p: string)
    requires NoParens(p)
    ensures DepthAtLeast(p + "(", 0) && Depth(p + "(") == 1
  {
    NoParensAtLeast(p);
    NoParensAtLeast("");
    assert "("[..0] == "" && "("[..1] == "(" && "("[1..] == "";
    ConcatAtLeast(p, "(", 0);
    DepthConcat(p, "(");
  }

  /** Wrapping balanced text in a prefix `p` and a closing `)`. */
  lemma WrapAtLeast(p: string, a: string)
    requires DepthAtLeast(p, 0) && Depth(p) == 1
    requires DepthAtLeast(a, 0) && Depth(a) == 0
    ensures DepthAtLeast(p + a + ")", 0) && Depth(p + a + ")") == 0
  {
    ConcatAtLeast(p, a, 0);
    DepthConcat(p, a);
    assert ")"[..0] == "" && ")"[..1] == ")" && ")"[1..] == "";
    ConcatAtLeast(p + a, ")", 0);
    DepthConcat(p + a, ")");
  }

  /** The shape of a function call `name(a)`. */
  lemma CallShape(name: string, a: string)
    requires NoParens(name) && NoSpaces(name)
    requires NoSpaces(a) && Depth(a) == 0 && DepthAtLeast(a, 0)
    ensures NoSpaces(name + "(" + a + ")")
    ensures Depth(name + "(" + a + ")") == 0 && DepthAtLeast(name + "(" + a + ")", 0)
  {
    OpenAtLeast(name);
    WrapAtLeast(name + "(", a);
    NoSpacesConcat(name, "(");
    NoSpacesConcat(name + "(", a);
    NoSpacesConcat(name + "(" + a, ")");
  }

  /** The shape of a binary node `(a op b)`. */
  lemma InfixShape(a: string, op: char, b: string)
    requires op != '(' && op != ')' && !IsSpace(op)
    requires NoSpaces(a) && Depth(a) == 0 && DepthAtLeast(a, 0)
    requires NoSpaces(b) && Depth(b) == 0 && DepthAtLeast(b, 0)
    ensures NoSpaces(Infix(a, op, b))
    ensures Depth(Infix(a, op, b)) == 0 && DepthAtLeast(Infix(a, op, b), 0)
  {
    var p := "(" + a + [op];
    OpenAtLeast("");
    assert "" + "(" == "(";
    ConcatAtLeast("(", a, 0);
    DepthConcat("(", a);
    NoParensAtLeast([op]);
    ConcatAtLeast("(" + a, [op], 0);
    DepthConcat("(" + a, [op]);
    WrapAtLeast(p, b);
    NoSpacesConcat("(", a);
    NoSpacesConcat("(" + a, [op]);
    NoSpacesConcat(p, b);
    NoSpacesConcat(p + b, ")");
    assert Infix(a, op, b) == p + b + ")";
  }

  lemma {:induction false} PrintShape(e: Expr)
    requires Printable(e)
    ensures NoSpaces(Print(e))
    ensures Depth(Print(e)) == 0 && DepthAtLeast(Print(e), 0)
  {
    match e
    case Number(v) =>
      assert NoParens(Print(e));
      NoParensAtLeast(Print(e));
    case Sin(a) =>
      PrintShape(a);
      CallShape("sin", Print(a));
      assert Print(e) == "sin" + "(" + Print(a) + ")";
    case Cos(a) =>
      PrintShape(a);
      CallShape("cos", Print(a));
      assert Print(e) == "cos" + "(" + Print(a) + ")";
    case Fraction(_, _) =>
    case _ =>
      PrintBinary(e);
      PrintShape(e.left);
      PrintShape(e.right);
      InfixShape(Print(e.left), OperatorOf(e), Print(e.right));
  }
}
